/** The other direction: packing what was unpacked restores the memory. */
module RepackLaws {
  import opened Machine
  import opened IntCodec
  import opened Search
  import opened Format
  import opened PackSpec
  import opened PackLaws

  /** Writing changes nothing exactly when it writes what is already there. */
  lemma WriteSame(s: State, b: Blocks)
    requires s.i + BlocksSize(b) <= |s.mem|
    ensures var o := WriteBlocks(s, b);
      && o.Ok? && o.s.i == s.i + BlocksSize(b) && o.s.k == s.k + 1
      && (o.s.mem == s.mem <==> Holds(s.mem, s.i, b))
  {
    var one := Splice(s.mem, s.i, b.first);
    var two := Splice(one, s.i + |b.first|, b.second);
    assert two[s.i..s.i + |b.first|] == b.first;
    assert two[s.i + |b.first|..s.i + |b.first| + |b.second|] == b.second;
    if Holds(s.mem, s.i, b) {
      assert one == s.mem;
      assert two == s.mem;
    }
  }

  lemma IntField(field: seq<byte>, little: bool, signed: bool)
    requires field != [] && DecodeInt(Order(field, little), signed).Some?
    ensures var n := DecodeInt(Order(field, little), signed).value;
      InRange(n, |field|, signed) && Order(EncodeInt(n, |field|, signed), little) == field
  {
    hide DecodeInt, InRange, EncodeInt;
    EncodeDecode(Order(field, little), signed);
    OrderTwice(field, little);
  }

  /** Whether the float image read at an offset comes back when it is narrowed again; other items always do. */
  predicate ImageSurvives(plat: Platform, little: bool, kind: Kind, size: nat, m: seq<byte>, at: nat)
    requires at + size <= |m|
  {
    kind == KFloat && size == SIZEOF_FLOAT ==>
      var image := Order(m[at..at + size], little == plat.native);
      plat.narrow(plat.widen(image)) == image
  }

  /** Every 'f' option that a reader passes finds an image that survives. */
  predicate Survives(plat: Platform, prog: seq<Token>, m: seq<byte>, pos: nat)
    requires (forall t <- prog :: ValidToken(t)) && pos <= |m| < TWO63 && Unpack(plat, prog, m, pos).Some?
  {
    prog == [] ||
    var t := prog[0];
    assert ValidToken(t);
    && ImageSurvives(plat, t.little, t.kind, t.size, m, pos + Padding(pos, t.align))
    && Survives(plat, prog[1..], m, UnpackStep(plat, t, m, pos).value.pos)
  }

  /** Encoding a decoded value gives blocks of the length read, which memory m holds if its image survives. */
  ghost predicate Reencodes(plat: Platform, little: bool, kind: Kind, size: nat, m: seq<byte>, at: nat, item: Item)
    requires Consumes(kind) && Sized(kind, size) && at + size <= |m|
  {
    && |item.out| == 1
    && Encode(plat, little, kind, size, item.out[0]).Some?
    && BlocksSize(Encode(plat, little, kind, size, item.out[0]).value) == item.len
    && (Holds(m, at, Encode(plat, little, kind, size, item.out[0]).value) <==> ImageSurvives(plat, little, kind, size, m, at))
  }

  lemma Reencode(plat: Platform, little: bool, kind: Kind, size: nat, m: seq<byte>, at: nat)
    requires Plain(plat) && Consumes(kind) && Sized(kind, size)
    requires at + size <= |m| < TWO63 && Decode(plat, little, kind, size, m, at).Some?
    ensures Reencodes(plat, little, kind, size, m, at, Decode(plat, little, kind, size, m, at).value)
  {
    hide DecodeInt, Order, MemChr, InRange, EncodeInt;
    match kind {
      case KInt => ReencodeInt(plat, little, kind, size, m, at);
      case KUint => ReencodeInt(plat, little, kind, size, m, at);
      case KFloat => ReencodeFloat(plat, little, size, m, at);
      case KChar =>
      case KString => ReencodeString(plat, little, size, m, at);
      case KZstr => ReencodeZstr(plat, little, size, m, at);
    }
  }

  lemma ReencodeInt(plat: Platform, little: bool, kind: Kind, size: nat, m: seq<byte>, at: nat)
    requires Plain(plat) && (kind == KInt || kind == KUint) && Sized(kind, size)
    requires at + size <= |m| < TWO63 && Decode(plat, little, kind, size, m, at).Some?
    ensures Reencodes(plat, little, kind, size, m, at, Decode(plat, little, kind, size, m, at).value)
  {
    hide DecodeInt, Order, MemChr, InRange, EncodeInt;
    IntField(m[at..at + size], little, kind == KInt);
  }

  lemma ReencodeFloat(plat: Platform, little: bool, size: nat, m: seq<byte>, at: nat)
    requires Plain(plat) && Sized(KFloat, size) && at + size <= |m| < TWO63
    ensures Reencodes(plat, little, KFloat, size, m, at, Decode(plat, little, KFloat, size, m, at).value)
  {
    hide Order;
    var keep := little == plat.native;
    var field := m[at..at + size];
    var image := Order(field, keep);
    OrderTwice(field, keep);
    if size == SIZEOF_FLOAT {
      OrderTwice(plat.narrow(plat.widen(image)), keep);
    }
  }

  lemma ReencodeString(plat: Platform, little: bool, size: nat, m: seq<byte>, at: nat)
    requires Plain(plat) && Sized(KString, size)
    requires at + size <= |m| < TWO63 && Decode(plat, little, KString, size, m, at).Some?
    ensures Reencodes(plat, little, KString, size, m, at, Decode(plat, little, KString, size, m, at).value)
  {
    hide DecodeInt, Order, MemChr, InRange, EncodeInt;
    var field := m[at..at + size];
    IntField(field, little, false);
    StringLength(field, little);
    var n := DecodeInt(Order(field, little), false).value;
    assert |m[at + size..at + size + n]| == n;
  }

  lemma ReencodeZstr(plat: Platform, little: bool, size: nat, m: seq<byte>, at: nat)
    requires Plain(plat) && Sized(KZstr, size)
    requires at + size <= |m| < TWO63 && Decode(plat, little, KZstr, size, m, at).Some?
    ensures Reencodes(plat, little, KZstr, size, m, at, Decode(plat, little, KZstr, size, m, at).value)
  {
    hide DecodeInt, Order, MemChr, InRange, EncodeInt;
    var z := MemChr(m, at, 0, |m| - at).value;
    assert m[z..z + 1] == [0];
  }

  /** A length below 2^63 is its own signed value. */
  lemma StringLength(field: seq<byte>, little: bool)
    requires DecodeInt(Order(field, little), false).Some?
    ensures var n := DecodeInt(Order(field, little), false).value; ToUnsigned(n) < TWO63 ==> ToUnsigned(n) == n
  {
  }

  /** A memory that is the one that was read from offset pos on. */
  ghost predicate SameFrom(m: seq<byte>, now: seq<byte>, pos: nat) {
    |now| == |m| && pos <= |m| && now[pos..] == m[pos..]
  }

  /** A step over the value that was read stops where the reader did, and changes the memory unless an image is lost. */
  lemma StepRepack(plat: Platform, t: Token, args: seq<Value>, k: nat, m: seq<byte>, now: seq<byte>, pos: nat)
    requires Plain(plat) && ValidToken(t) && pos <= |m| < TWO63 && SameFrom(m, now, pos)
    requires UnpackStep(plat, t, m, pos).Some?
    requires var out := UnpackStep(plat, t, m, pos).value.out; k + |out| <= |args| && args[k..k + |out|] == out
    ensures var u := UnpackStep(plat, t, m, pos).value;
      var o := PackStep(plat, true, t, args, State(pos, k, now));
      && o.Ok? && o.s.i == u.pos && o.s.k == k + |u.out|
      && (o.s.mem == now <==> ImageSurvives(plat, t.little, t.kind, t.size, m, pos + Padding(pos, t.align)))
  {
    hide Encode, Decode, Padding, WriteBlocks, Plain, ImageSurvives;
    var at := pos + Padding(pos, t.align);
    if Consumes(t.kind) {
      Reencode(plat, t.little, t.kind, t.size, m, at);
      var item := Decode(plat, t.little, t.kind, t.size, m, at).value;
      assert args[k] == args[k..k + 1][0] == item.out[0];
      var b := Encode(plat, t.little, t.kind, t.size, args[k]).value;
      HoldsFrom(m, now, pos, at, b);
      WriteSame(State(at, k, now), b);
    } else {
      PassOver(plat, t.little, t.kind, t.size, m, at);
    }
  }

  lemma HoldsFrom(m: seq<byte>, now: seq<byte>, pos: nat, at: nat, b: Blocks)
    requires SameFrom(m, now, pos) && pos <= at
    ensures Holds(m, at, b) <==> Holds(now, at, b)
  {
    if at + BlocksSize(b) <= |m| {
      SliceFrom(m, now, pos, at, at + |b.first|);
      SliceFrom(m, now, pos, at + |b.first|, at + BlocksSize(b));
    }
  }

  lemma SliceFrom(m: seq<byte>, now: seq<byte>, pos: nat, a: nat, b: nat)
    requires SameFrom(m, now, pos) && pos <= a <= b <= |m|
    ensures m[a..b] == now[a..b]
  {
    SliceOfSlice(m, pos, |m|, a - pos, b - pos);
    SliceOfSlice(now, pos, |m|, a - pos, b - pos);
    assert m[pos..|m|] == m[pos..] && now[pos..|m|] == now[pos..];
  }

  lemma PassOver(plat: Platform, little: bool, kind: Kind, size: nat, m: seq<byte>, at: nat)
    requires !Consumes(kind) && Sized(kind, size) && at + size <= |m| < TWO63
    ensures Decode(plat, little, kind, size, m, at) == Some(Item([], size)) && ImageSurvives(plat, little, kind, size, m, at)
  {
  }

  lemma UnpackHead(plat: Platform, prog: seq<Token>, m: seq<byte>, pos: nat)
    requires (forall t <- prog :: ValidToken(t)) && pos <= |m| < TWO63
    ensures prog == [] ==> Unpack(plat, prog, m, pos) == Some(Reader(pos, []))
    ensures prog != [] ==> var u := UnpackStep(plat, prog[0], m, pos);
      Unpack(plat, prog, m, pos) == if u.None? then None else Then(u.value.out, Unpack(plat, prog[1..], m, u.value.pos))
  {
  }

  lemma StillSame(m: seq<byte>, now: seq<byte>, later: seq<byte>, pos: nat, end: nat)
    requires SameFrom(m, now, pos) && pos <= end <= |m| == |later|
    requires forall j :: end <= j < |m| ==> later[j] == now[j]
    ensures SameFrom(m, later, end)
  {
    SliceFrom(m, now, pos, end, |m|);
    assert later[end..] == now[end..|m|] && m[end..|m|] == m[end..];
  }

  lemma ArgsSplit(args: seq<Value>, k: nat, a: seq<Value>, b: seq<Value>)
    requires k + |a + b| <= |args| && args[k..k + |a + b|] == a + b
    ensures args[k..k + |a|] == a && args[k + |a|..k + |a| + |b|] == b
  {
    var n := |a + b|;
    assert args[k..k + |a|] == args[k..k + n][..|a|];
    assert args[k + |a|..k + n] == args[k..k + n][|a|..];
  }

  /** Whole runs: packing back what was unpacked always succeeds and stops at the same place, and it changes no byte
      exactly when every float image that was widened survives. */
  lemma {:induction false} Repack(plat: Platform, prog: seq<Token>, args: seq<Value>, k: nat, m: seq<byte>, now: seq<byte>, pos: nat)
    requires Plain(plat) && (forall t <- prog :: ValidToken(t)) && pos <= |m| < TWO63 && SameFrom(m, now, pos)
    requires Unpack(plat, prog, m, pos).Some?
    requires var out := Unpack(plat, prog, m, pos).value.out; k + |out| <= |args| && args[k..k + |out|] == out
    ensures var u := Unpack(plat, prog, m, pos).value;
      var o := Pack(plat, true, prog, args, State(pos, k, now));
      o.Ok? && o.s.i == u.pos && o.s.k == k + |u.out| && (o.s.mem == now <==> Survives(plat, prog, m, pos))
  {
    hide PackStep, UnpackStep, Plain, ImageSurvives, Padding, Skips;
    UnpackHead(plat, prog, m, pos);
    if prog != [] {
      var s := State(pos, k, now);
      var u := UnpackStep(plat, prog[0], m, pos).value;
      var v := Unpack(plat, prog[1..], m, u.pos).value;
      ArgsSplit(args, k, u.out, v.out);
      StepRepack(plat, prog[0], args, k, m, now, pos);
      PackCons(plat, true, prog, args, s);
      var t := PackStep(plat, true, prog[0], args, s).s;
      StepKeeps(plat, true, prog[0], args, s);
      StillSame(m, now, t.mem, pos, u.pos);
      Repack(plat, prog[1..], args, k + |u.out|, m, t.mem, u.pos);
      PackKeeps(plat, true, prog[1..], args, t);
      Unchanged(now, t.mem, Pack(plat, true, prog[1..], args, t).s.mem, u.pos);
    }
  }

  /** Two changes, the first before an offset and the second from it on, do not cancel out. */
  lemma Unchanged(a: seq<byte>, b: seq<byte>, c: seq<byte>, pos: nat)
    requires |a| == |b| == |c| && pos <= |a|
    requires forall j :: pos <= j < |a| ==> a[j] == b[j]
    requires forall j :: 0 <= j < pos ==> b[j] == c[j]
    ensures c == a <==> b == a && c == b
  {
    if c == a {
      assert b == a;
    }
  }
}
