/** The calls memory.pack and memory.unpack: the C loops, and their laws as a Lua program sees them. */
module PackCalls {
  import opened Machine
  import opened Bits
  import opened IntCodec
  import opened Slices
  import opened Search
  import opened Format
  import opened PackSpec
  import opened PackBytes
  import opened PackLaws
  import opened RepackLaws

  // ---------- What the calls return ----------

  /** lua_pushinteger(L, i + 1): the position after offset i. */
  function Position(i: nat): Value
    requires i < TWO63
  {
    Int(ToSigned(i + 1))
  }

  /** A run that is to start at the given Lua position. */
  function Starting(m: seq<byte>, start: S64): State {
    State(StartOf(start, |m|) - 1, 0, m)
  }

  /** Results (None for a raised error) and memory after memory.pack(mem, fmt, start, ...), where prog is the program
      that fmt is read as. */
  function PackCall(plat: Platform, base: bool, m: seq<byte>, prog: seq<Token>, start: S64, args: seq<Value>)
    : (Option<seq<Value>>, seq<byte>)
    requires (forall t <- prog :: ValidToken(t)) && |m| < TWO63
  {
    var i := StartOf(start, |m|) - 1;
    if i > |m| then (None, m)
    else match Pack(plat, base, prog, args, State(i, 0, m))
      case Ok(s) => (Some([Bool(true), Position(s.i)]), s.mem)
      case Full(s) => (Some([Bool(false), Position(s.i)] + args[s.k..]), s.mem)
      case Error(s) => (None, s.mem)
  }

  /** Results of memory.unpack(mem, fmt, start), where prog is the program that fmt is read as. */
  function UnpackCall(plat: Platform, m: seq<byte>, prog: seq<Token>, start: Option<S64>): Option<seq<Value>>
    requires (forall t <- prog :: ValidToken(t)) && |m| < TWO63
  {
    var i := StartOf(if start.Some? then start.value else 1, |m|) - 1;
    if i > |m| then None
    else match Unpack(plat, prog, m, i)
      case None => None
      case Some(r) => Some(r.out + [Position(r.pos)])
  }

  // ---------- Laws, for every program and so for every format ----------

  /** Whatever a successful pack wrote, unpack with the same format and start returns, with the same next position. */
  lemma PackThenUnpack(plat: Platform, base: bool, m: seq<byte>, prog: seq<Token>, start: S64, args: seq<Value>)
    requires (forall t <- prog :: ValidToken(t)) && |m| < TWO63
    requires var (r, _) := PackCall(plat, base, m, prog, start, args); r.Some? && r.value[0] == Bool(true)
    ensures var (r, m') := PackCall(plat, base, m, prog, start, args);
      && |m'| == |m|
      && UnpackCall(plat, m', prog, Some(start)) == Some(ReadBack(plat, prog, args, 0) + [r.value[1]])
      && (start == 1 ==> UnpackCall(plat, m', prog, None) == UnpackCall(plat, m', prog, Some(start)))
  {
    hide Pack, Unpack;
    var s := Starting(m, start);
    RoundTrip(plat, base, prog, args, s);
  }

  /** Without a start position, reading starts at the first byte. */
  lemma StartDefaults(plat: Platform, m: seq<byte>, prog: seq<Token>)
    requires (forall t <- prog :: ValidToken(t)) && |m| < TWO63
    ensures UnpackCall(plat, m, prog, None) == UnpackCall(plat, m, prog, Some(1))
  {
  }

  /** The value has the option's own type, and survives narrowing if the option narrows. */
  predicate Matches(plat: Platform, t: Token, v: Value) {
    t.Token? && match t.kind
      case KInt => v.Int?
      case KUint => v.Int?
      case KFloat => v.Num? && (t.size == SIZEOF_FLOAT ==> plat.widen(plat.narrow(v.image)) == v.image)
      case _ => v.Bytes?
  }

  predicate AllMatch(plat: Platform, prog: seq<Token>, args: seq<Value>, k: nat) {
    if prog == [] then true
    else if prog[0].Token? && Consumes(prog[0].kind) then
      k < |args| && Matches(plat, prog[0], args[k]) && AllMatch(plat, prog[1..], args, k + 1)
    else AllMatch(plat, prog[1..], args, k)
  }

  lemma MatchIsCanonical(plat: Platform, t: Token, v: Value)
    requires Plain(plat) && Matches(plat, t, v) && Consumes(t.kind)
    ensures Canon(plat, t.kind, t.size, v) == v
  {
  }

  /** Values of the options' own types read back unchanged, in order. */
  lemma {:induction false} ReadBackIsExact(plat: Platform, prog: seq<Token>, args: seq<Value>, k: nat)
    requires Plain(plat) && k <= |args| && AllMatch(plat, prog, args, k)
    ensures var n := |ReadBack(plat, prog, args, k)|;
      k + n <= |args| && ReadBack(plat, prog, args, k) == args[k..k + n]
  {
    if prog != [] {
      if prog[0].Token? && Consumes(prog[0].kind) {
        MatchIsCanonical(plat, prog[0], args[k]);
        hide Plain, Matches, Canon, Consumes;
        ReadBackIsExact(plat, prog[1..], args, k + 1);
      } else {
        ReadBackIsExact(plat, prog[1..], args, k);
      }
    }
  }

  /** So a plain Lua program that packs values of the options' own types gets those values back. */
  lemma PackThenUnpackExact(plat: Platform, base: bool, m: seq<byte>, prog: seq<Token>, start: S64, args: seq<Value>)
    requires Plain(plat) && |m| < TWO63 && (forall t <- prog :: ValidToken(t)) && AllMatch(plat, prog, args, 0)
    requires var (r, _) := PackCall(plat, base, m, prog, start, args); r.Some? && r.value[0] == Bool(true)
    ensures var (r, m') := PackCall(plat, base, m, prog, start, args);
      var n := |ReadBack(plat, prog, args, 0)|;
      n <= |args| && |m'| == |m| && UnpackCall(plat, m', prog, Some(start)) == Some(args[..n] + [r.value[1]])
  {
    hide Pack, Unpack, PackCall, UnpackCall, AllMatch, Plain, ReadBack;
    PackThenUnpack(plat, base, m, prog, start, args);
    ReadBackIsExact(plat, prog, args, 0);
  }

  /** A call that succeeds in a longer memory succeeds in this one, with the same results and bytes, exactly when the
      position it returns is at most one past this memory's end; otherwise it returns false. */
  lemma PackCallFits(plat: Platform, m: seq<byte>, extra: seq<byte>, prog: seq<Token>, start: S64, bigStart: S64, args: seq<Value>)
    requires |m| + |extra| < TWO63 - 1 && (forall t <- prog :: ValidToken(t))
    requires StartOf(start, |m|) == StartOf(bigStart, |m| + |extra|)
    requires var (r, _) := PackCall(plat, true, m + extra, prog, bigStart, args); r.Some? && r.value[0] == Bool(true)
    ensures var (big, bigMem) := PackCall(plat, true, m + extra, prog, bigStart, args);
      var (r, m') := PackCall(plat, true, m, prog, start, args);
      && (r.Some? <==> StartOf(start, |m|) <= |m| + 1)
      && (r.Some? ==>
            && (r.value[0] == Bool(true) <==> big.value[1].n <= |m| + 1)
            && (r.value[0] == Bool(true) ==> r == big && bigMem == m' + extra))
  {
    hide Pack;
    if StartOf(start, |m|) <= |m| + 1 {
      PackFits(plat, true, prog, args, Starting(m, start), extra);
    }
  }

  /** Packing back what was unpacked always returns true and the same position, and leaves every byte as it was exactly
      when every image read by an 'f' option survives being widened and narrowed. */
  lemma UnpackThenPack(plat: Platform, m: seq<byte>, prog: seq<Token>, start: S64, out: seq<Value>, next: Value, extra: seq<Value>)
    requires Plain(plat) && |m| < TWO63 && (forall t <- prog :: ValidToken(t))
    requires UnpackCall(plat, m, prog, Some(start)) == Some(out + [next])
    ensures var (r, m') := PackCall(plat, true, m, prog, start, out + extra);
      r == Some([Bool(true), next]) && (m' == m <==> Survives(plat, prog, m, StartOf(start, |m|) - 1))
  {
    hide Pack, Unpack, Plain, Survives;
    var i := StartOf(start, |m|) - 1;
    var r := Unpack(plat, prog, m, i).value;
    assert (out + [next])[..|out|] == out && (r.out + [Position(r.pos)])[..|r.out|] == r.out;
    assert r.out == out && next == Position(r.pos);
    assert (out + extra)[0..0 + |out|] == out;
    Repack(plat, prog, out + extra, 0, m, m, i);
  }

  /** A machine that quiets signalling NaNs loses the image 01 00 80 7F: reading it with 'f' and packing it back leaves
      other bytes. So does any image that does not survive. */
  lemma LostImage(plat: Platform, image: Image4)
    requires Plain(plat) && plat.narrow(plat.widen(image)) != image
    ensures var f := [Token(KFloat, SIZEOF_FLOAT, 1, plat.native)];
      && UnpackCall(plat, image, f, Some(1)) == Some([Num(plat.widen(image)), Position(4)])
      && PackCall(plat, true, image, f, 1, [Num(plat.widen(image))])
         == (Some([Bool(true), Position(4)]), plat.narrow(plat.widen(image)))
  {
    var t := Token(KFloat, SIZEOF_FLOAT, 1, plat.native);
    var v, lost := Num(plat.widen(image)), plat.narrow(plat.widen(image));
    LostStep(plat, image, t);
    hide UnpackStep, PackStep, Unpack, Pack, Plain;
    assert [t][1..] == [] && [v] + [] == [v];
    UnpackHead(plat, [t], image, 0);
    UnpackHead(plat, [], image, 4);
    assert Unpack(plat, [t], image, 0) == Some(Reader(4, [v]));
    assert [v] + [Position(4)] == [v, Position(4)] && StartOf(1, 4) == 1;
    PackHead(plat, true, [t], [v], State(0, 0, image));
    PackHead(plat, true, [], [v], State(4, 1, lost));
  }

  lemma LostStep(plat: Platform, image: Image4, t: Token)
    requires Plain(plat) && t == Token(KFloat, SIZEOF_FLOAT, 1, plat.native)
    ensures var v, lost := Num(plat.widen(image)), plat.narrow(plat.widen(image));
      && UnpackStep(plat, t, image, 0) == Some(Reader(4, [v]))
      && PackStep(plat, true, t, [v], State(0, 0, image)) == Ok(State(4, 1, lost))
  {
    var lost := plat.narrow(plat.widen(image));
    assert image[0..4] == image;
    assert Splice(image, 0, lost) == lost && Splice(lost, 4, []) == lost;
  }

  /** On every returning path: the position lies between start and end, bytes outside the two are kept, and so are all
      bytes skipped between them; what is returned after false is a suffix of the arguments. */
  lemma PackCallFrame(plat: Platform, base: bool, m: seq<byte>, prog: seq<Token>, start: S64, args: seq<Value>)
    requires (forall t <- prog :: ValidToken(t)) && |m| < TWO63 && PackCall(plat, base, m, prog, start, args).0.Some?
    ensures var (r, m') := PackCall(plat, base, m, prog, start, args);
      && |r.value| >= 2 && r.value[0].Bool? && r.value[1].Int?
      && StartOf(start, |m|) <= ToUnsigned(r.value[1].n) <= |m| + 1
      && |m'| == |m| && m'[..StartOf(start, |m|) - 1] == m[..StartOf(start, |m|) - 1]
      && m'[ToUnsigned(r.value[1].n) - 1..] == m[ToUnsigned(r.value[1].n) - 1..]
      && (forall j <- Skips(plat, base, prog, args, Starting(m, start)) :: 0 <= j < |m| ==> m'[j] == m[j])
      && (if r.value[0].b then |r.value| == 2
          else |r.value| - 2 <= |args| && r.value[2..] == args[|args| - (|r.value| - 2)..])
  {
    hide Pack, Skips;
    PackKeeps(plat, base, prog, args, Starting(m, start));
  }

  /** Results and memory of a call whose run ends in outcome o. */
  predicate Returns(args: seq<Value>, r: Option<seq<Value>>, m: seq<byte>, o: Outcome) {
    && m == o.s.mem && o.s.k <= |args| && o.s.i < TWO63
    && match o
       case Ok(s) => r == Some([Bool(true), Int(ToSigned(s.i + 1))])
       case Full(s) => r == Some([Bool(false), Int(ToSigned(s.i + 1))] + args[s.k..])
       case Error(_) => r == None
  }

  /** The whole call in numbers: an error when the start lies past the end; otherwise option after option from the start, and
      the position one past the cursor where the run ended. */
  lemma PackCallLaw(plat: Platform, base: bool, m: seq<byte>, prog: seq<Token>, start: S64, args: seq<Value>)
    requires (forall t <- prog :: ValidToken(t)) && |m| < TWO63
    ensures var (r, m') := PackCall(plat, base, m, prog, start, args);
      if StartOf(start, |m|) > |m| + 1 then r == None && m' == m
      else exists o :: Runs(plat, base, prog, args, Starting(m, start), o) && Returns(args, r, m', o)
  {
    hide Pack, Runs;
    if StartOf(start, |m|) <= |m| + 1 {
      RunLaw(plat, base, prog, args, Starting(m, start));
    }
  }

  /** After false, some option found no room where the options before it left the cursor. PackBytes.Packs says what position
      that makes, which is returned, and the values from its own on are returned unused. */
  lemma PackCallStops(plat: Platform, base: bool, m: seq<byte>, prog: seq<Token>, start: S64, args: seq<Value>)
    requires (forall t <- prog :: ValidToken(t)) && |m| < TWO63
    requires var (r, _) := PackCall(plat, base, m, prog, start, args); r.Some? && r.value[0] == Bool(false)
    ensures var (r, m') := PackCall(plat, base, m, prog, start, args);
      exists n: nat, s: State ::
        && StopsAt(plat, base, prog, args, Starting(m, start), Full(s), n)
        && Returns(args, r, m', Full(s))
  {
    hide Pack, StopsAt;
    var from := Starting(m, start);
    RunStops(plat, base, prog, args, from);
    var s := Pack(plat, base, prog, args, from).s;
    var n :| 0 <= n && StopsAt(plat, base, prog, args, from, Full(s), n);
  }

  // ---------- Formats to bytes ----------

  /** What some formats say, as a fresh header reads them. */
  lemma ShortFormats(native: bool)
    ensures Program(native, "<h") == [Token(KNop, 0, 1, true), Token(KInt, 2, 1, true)]
    ensures Program(native, ">h") == [Token(KNop, 0, 1, false), Token(KInt, 2, 1, false)]
    ensures Program(native, "=h") == [Token(KNop, 0, 1, native), Token(KInt, 2, 1, native)]
  {
    ShortFormat(native, "<h", true);
    ShortFormat(native, ">h", false);
    ShortFormat(native, "=h", native);
  }

  lemma ShortFormat(native: bool, fmt: string, little: bool)
    requires |fmt| == 2 && fmt[1] == 'h'
    requires (fmt[0] == '<' && little) || (fmt[0] == '>' && !little) || (fmt[0] == '=' && little == native)
    ensures Program(native, fmt) == [Token(KNop, 0, 1, little), Token(KInt, 2, 1, little)]
  {
    var c, d := InitialConfig(native), Config(native, little, 1);
    hide ReadOption, ReadToken, Tokens;
    OtherLetters(c, fmt, 0);
    TokenLaw(c, fmt, 0);
    TableIsRead(d, fmt, 1);
    TokenLaw(d, fmt, 1);
    assert ReadToken(c, fmt, 0) == Reading(Token(KNop, 0, 1, little), d, 1);
    assert ReadToken(d, fmt, 1) == Reading(Token(KInt, 2, 1, little), d, 2);
    hide IsAligned, Table, ValidToken, ValidConfig;
    TokensCons(c, fmt, 0);
    TokensCons(d, fmt, 1);
    TokensNil(d, fmt, 2);
  }

  /** The two bytes of a short in the byte order asked for, whatever the machine's. */
  function ShortImage(n: int, little: bool): seq<byte> {
    if little then [n % 256, n / 256 % 256] else [n / 256 % 256, n % 256]
  }

  /** memory.pack(mem, "<h", start, n) writes the low byte of n first, and with ">h" the high byte; with "=h" the order is
      the machine's. */
  lemma ShortBytes(plat: Platform, m: seq<byte>, fmt: string, start: S64, n: S64)
    requires fmt in {"<h", ">h", "=h"} && -32768 <= n < 32768 && plat.toInteger(Int(n)) == Some(n)
    requires StartOf(start, |m|) + 1 <= |m| < TWO63
    ensures var at := StartOf(start, |m|) - 1;
      PackCall(plat, true, m, Program(plat.native, fmt), start, [Int(n)])
      == (Some([Bool(true), Position(at + 2)]),
          m[..at] + ShortImage(n, fmt == "<h" || (fmt == "=h" && plat.native)) + m[at + 2..])
  {
    var little := fmt == "<h" || (fmt == "=h" && plat.native);
    hide Program, Pack, ShortImage;
    ShortFormat(plat.native, fmt, little);
    ShortRun(plat, [Int(n)], Starting(m, start), little);
  }

  lemma ShortRun(plat: Platform, args: seq<Value>, s: State, little: bool)
    requires |args| == 1 && args[0].Int? && -32768 <= args[0].n < 32768 && plat.toInteger(args[0]) == Some(args[0].n)
    requires s.i + 2 <= |s.mem| < TWO63 && s.k == 0
    ensures Pack(plat, true, [Token(KNop, 0, 1, little), Token(KInt, 2, 1, little)], args, s)
         == Ok(State(s.i + 2, 1, s.mem[..s.i] + ShortImage(args[0].n, little) + s.mem[s.i + 2..]))
  {
    var t, u := Token(KNop, 0, 1, little), Token(KInt, 2, 1, little);
    ShortStep(plat, u, args, s, little);
    StepPacks(plat, true, t, args, s);
    assert PackStep(plat, true, t, args, s) == Ok(s);
    hide Pack, PackStep;
    assert [t, u][1..] == [u] && [u][1..] == [];
    PackHead(plat, true, [t, u], args, s);
    PackHead(plat, true, [u], args, s);
    PackHead(plat, true, [], args, PackStep(plat, true, u, args, s).s);
  }

  lemma ShortStep(plat: Platform, u: Token, args: seq<Value>, s: State, little: bool)
    requires u == Token(KInt, 2, 1, little) && |args| == 1 && args[0].Int? && -32768 <= args[0].n < 32768
    requires plat.toInteger(args[0]) == Some(args[0].n) && s.i + 2 <= |s.mem| < TWO63 && s.k == 0
    ensures PackStep(plat, true, u, args, s)
         == Ok(State(s.i + 2, 1, s.mem[..s.i] + ShortImage(args[0].n, little) + s.mem[s.i + 2..]))
  {
    StepPacks(plat, true, u, args, s);
    var n, o := args[0].n, PackStep(plat, true, u, args, s);
    assert Pow2(15) == 32768;
    assert Pow256(0) == 1 && Pow256(1) == 256;
    assert ByteOf(n, 0) == n % 256 && ByteOf(n, 1) == n / 256 % 256;
    hide PackStep, Pow2, Pow256, ByteOf;
    var b: seq<byte> :| Layout(plat, KInt, 2, little, args[0], b) && Stores(u, s, s.i, b, o);
    assert b[if little then 0 else 1] == ByteOf(n, 0) && b[if little then 1 else 0] == ByteOf(n, 1);
    assert b == ShortImage(n, little);
  }

  // ---------- The C routines ----------

  method CopyWithEndian(dest: array<byte>, d: nat, src: seq<byte>, size: nat, keep: bool)
    requires size <= |src| && d + size <= dest.Length
    modifies dest
    ensures dest[..] == Splice(old(dest[..]), d, Order(src[..size], keep))
  {
    ghost var image := Order(src[..size], keep);
    ReverseAt(src[..size]);
    hide Reverse;
    var left := size;
    var from := 0;
    if keep {
      var to := d;
      while left != 0
        invariant left + from == size && to == d + from
        invariant forall j :: 0 <= j < dest.Length && !(d <= j < to) ==> dest[j] == old(dest[j])
        invariant forall j :: d <= j < to ==> dest[j] == image[j - d]
      {
        dest[to] := src[from];
        to, from, left := to + 1, from + 1, left - 1;
      }
    } else {
      var to := d + size - 1;
      while left != 0
        invariant left + from == size && to == d + left - 1
        invariant forall j :: 0 <= j < dest.Length && !(d + left <= j < d + size) ==> dest[j] == old(dest[j])
        invariant forall j :: d + left <= j < d + size ==> dest[j] == image[j - d]
      {
        dest[to] := src[from];
        to, from, left := to - 1, from + 1, left - 1;
      }
    }
  }

  lemma ReverseAt(s: seq<byte>)
    ensures forall k :: 0 <= k < |s| ==> Reverse(s)[k] == s[|s| - 1 - k]
  {
  }

  method PackStream(mem: array<byte>, i: U64, s: seq<byte>) returns (ok: bool, next: U64)
    requires i <= mem.Length < TWO63 && |s| < TWO63
    modifies mem
    ensures ok <==> i + |s| <= mem.Length
    ensures next == if ok then i + |s| else i
    ensures mem[..] == if ok then Splice(old(mem[..]), i, s) else old(mem[..])
  {
    ok, next := true, i;
    if |s| > 0 {
      ok, next := GetBytes(true, i, mem.Length, |s|);
      if ok {
        forall k | 0 <= k < |s| {
          mem[i + k] := s[k];
        }
      }
    }
  }

  method PackChar(mem: array<byte>, i: U64, c: byte) returns (ok: bool, next: U64)
    requires i <= mem.Length < TWO63
    modifies mem
    ensures ok <==> i + 1 <= mem.Length
    ensures next == if ok then i + 1 else i
    ensures mem[..] == if ok then Splice(old(mem[..]), i, [c]) else old(mem[..])
  {
    if i < mem.Length {
      mem[i] := c;
      return true, i + 1;
    }
    return false, i;
  }

  /** packfailed: the results left on the Lua stack, whose values are numbered from 1. */
  function PackFailed(stack: seq<Value>, i: U64, arg: nat): (r: seq<Value>)
    requires 3 <= arg <= |stack| + 1 && i < TWO63
    ensures r == [Bool(false), Position(i)] + stack[arg - 1..]
  {
    var s := stack[arg - 3 := Bool(false)][arg - 2 := Position(i)];
    s[|s| - (3 + |s| - arg)..]
  }

  datatype Status = Going | NoRoom | Raised

  ghost predicate Becomes(st: Status, o: Outcome, i: nat, k: nat, m: seq<byte>) {
    o.s == State(i, k, m) && (st == Going <==> o.Ok?) && (st == NoRoom <==> o.Full?)
  }

  /** The switch of mem_pack, after alignment was skipped; arg numbers the stack slot of the current argument. */
  method PackOption(plat: Platform, mem: array<byte>, i: U64, kind: Kind, size: nat, little: bool, stack: seq<Value>, arg: nat)
    returns (st: Status, next: U64, arg': nat)
    requires i <= mem.Length < TWO63 && Sized(kind, size) && 4 <= arg <= |stack| + 1
    modifies mem
    ensures arg' >= 3
    ensures var o := PackItem(plat, stack[3..], kind, size, little, State(i, arg - 4, old(mem[..])));
      Becomes(st, o, next, if o.Ok? then arg' - 3 else arg - 4, mem[..]) && (!o.Ok? ==> arg' == arg)
  {
    hide Encode, WriteBlocks;
    ghost var args, m := stack[3..], mem[..];
    ghost var s := State(i, arg - 4, m);
    st, next, arg' := Raised, i, arg;
    if kind == KPadding {
      var ok;
      ok, next := GetBytes(true, i, mem.Length, 1);
      if !ok {
        return NoRoom, i, arg;
      }
      return Going, next, arg - 1;
    } else if kind == KPaddAlign || kind == KNop {
      return Going, i, arg - 1;
    }
    var data := i;
    if kind == KFloat {
      var ok;
      ok, next := GetBytes(true, i, mem.Length, size);
      if !ok {
        return NoRoom, i, arg;
      }
    }
    if arg > |stack| {
      return Raised, i, arg;
    }
    var v := stack[arg - 1];
    assert v == args[arg - 4];
    st, next := PackValue(plat, mem, i, kind, size, little, v, arg - 4);
  }

  ghost predicate Writes(plat: Platform, little: bool, kind: Kind, size: nat, v: Value, s: State, st: Status, next: nat, m: seq<byte>)
    requires Consumes(kind) && Sized(kind, size) && s.i <= |s.mem|
  {
    match Encode(plat, little, kind, size, v)
    case None => Becomes(st, Error(s), next, s.k, m)
    case Some(b) => var o := WriteBlocks(s, b); Becomes(st, o, next, if o.Ok? then s.k + 1 else s.k, m)
  }

  method PackValue(plat: Platform, mem: array<byte>, i: U64, kind: Kind, size: nat, little: bool, v: Value, ghost k: nat)
    returns (st: Status, next: U64)
    requires i <= mem.Length < TWO63 && Sized(kind, size) && Consumes(kind)
    requires kind == KFloat ==> i + size <= mem.Length
    modifies mem
    ensures Writes(plat, little, kind, size, v, State(i, k, old(mem[..])), st, next, mem[..])
  {
    match kind {
      case KInt => st, next := PackSigned(plat, mem, i, size, little, v, k);
      case KUint => st, next := PackUnsigned(plat, mem, i, size, little, v, k);
      case KFloat => st, next := PackFloat(plat, mem, i, size, little, v, k);
      case KChar => st, next := PackChars(plat, mem, i, size, little, v, k);
      case KString => st, next := PackString(plat, mem, i, size, little, v, k);
      case KZstr => st, next := PackZstr(plat, mem, i, size, little, v, k);
    }
  }

  lemma OneBlock(s: State, b: seq<byte>)
    requires s.i <= |s.mem|
    ensures WriteBlocks(s, Blocks(b, []))
         == if s.i + |b| > |s.mem| then Full(s) else Ok(State(s.i + |b|, s.k + 1, Splice(s.mem, s.i, b)))
  {
    if s.i + |b| <= |s.mem| {
      var t := Write(s, b);
      assert Splice(t.mem, t.i, []) == t.mem;
    }
  }

  method PackSigned(plat: Platform, mem: array<byte>, i: U64, size: nat, little: bool, v: Value, ghost k: nat)
    returns (st: Status, next: U64)
    requires i <= mem.Length < TWO63 && Sized(KInt, size)
    modifies mem
    ensures Writes(plat, little, KInt, size, v, State(i, k, old(mem[..])), st, next, mem[..])
  {
    hide InRange, Order, Digits, Pow2, WriteBlocks, Splice;
    var n := plat.toInteger(v);
    if n.None? {
      return Raised, i;
    }
    if size < SZINT {
      LimitsAreRanges(n.value, size);
      var lim := Pow2(size * NB - 1);
      if !(-(lim as int) <= n.value < lim) {
        return Raised, i;
      }
    }
    AlwaysInRange(n.value, size, true);
    ghost var image := Order(Digits(n.value, size), little);
    assert Written(ToUnsigned(n.value), n.value < 0) == n.value;
    assert Encode(plat, little, KInt, size, v) == Some(Blocks(image, []));
    hide Encode, Written;
    OneBlock(State(i, k, mem[..]), image);
    var ok;
    ok, next := PackInt(mem, true, i, ToUnsigned(n.value), little, size, n.value < 0);
    st := if ok then Going else NoRoom;
  }

  lemma AlwaysInRange(n: S64, size: nat, signed: bool)
    ensures size >= SZINT ==> InRange(n, size, signed)
  {
  }

  method PackUnsigned(plat: Platform, mem: array<byte>, i: U64, size: nat, little: bool, v: Value, ghost k: nat)
    returns (st: Status, next: U64)
    requires i <= mem.Length < TWO63 && Sized(KUint, size)
    modifies mem
    ensures Writes(plat, little, KUint, size, v, State(i, k, old(mem[..])), st, next, mem[..])
  {
    hide InRange, Order, Digits, Pow2, WriteBlocks, Splice;
    var n := plat.toInteger(v);
    if n.None? {
      return Raised, i;
    }
    if size < SZINT {
      LimitsAreRanges(n.value, size);
      if !(ToUnsigned(n.value) < Pow2(size * NB)) {
        return Raised, i;
      }
    }
    AlwaysInRange(n.value, size, false);
    ghost var image := Order(Digits(ToUnsigned(n.value), size), little);
    assert Written(ToUnsigned(n.value), false) == ToUnsigned(n.value);
    assert Encode(plat, little, KUint, size, v) == Some(Blocks(image, []));
    hide Encode, Written;
    OneBlock(State(i, k, mem[..]), image);
    var ok;
    ok, next := PackInt(mem, true, i, ToUnsigned(n.value), little, size, false);
    st := if ok then Going else NoRoom;
  }

  method PackFloat(plat: Platform, mem: array<byte>, i: U64, size: nat, little: bool, v: Value, ghost k: nat)
    returns (st: Status, next: U64)
    requires i <= mem.Length < TWO63 && Sized(KFloat, size) && i + size <= mem.Length
    modifies mem
    ensures Writes(plat, little, KFloat, size, v, State(i, k, old(mem[..])), st, next, mem[..])
  {
    hide Order, WriteBlocks, Splice;
    var n := plat.toNumber(v);
    if n.None? {
      return Raised, i;
    }
    var u := FloatImage(plat, size, n.value);
    assert u[..size] == u;
    OneBlock(State(i, k, mem[..]), Order(u, little == plat.native));
    CopyWithEndian(mem, i, u, size, little == plat.native);
    return Going, i + size;
  }

  method PackChars(plat: Platform, mem: array<byte>, i: U64, size: nat, little: bool, v: Value, ghost k: nat)
    returns (st: Status, next: U64)
    requires i <= mem.Length < TWO63 && Sized(KChar, size)
    modifies mem
    ensures Writes(plat, little, KChar, size, v, State(i, k, old(mem[..])), st, next, mem[..])
  {
    hide WriteBlocks, Splice;
    var s := plat.toArray(v);
    if s.None? || |s.value| != size {
      return Raised, i;
    }
    OneBlock(State(i, k, mem[..]), s.value);
    var ok;
    ok, next := PackStream(mem, i, s.value);
    st := if ok then Going else NoRoom;
  }

  /** The length, then the bytes; the length stays when the bytes do not fit. */
  method PackCounted(mem: array<byte>, i: U64, size: nat, little: bool, s: LuaString, ghost k: nat)
    returns (st: Status, next: U64)
    requires i <= mem.Length < TWO63 && 1 <= size <= MAXINTSIZE
    modifies mem
    ensures st != Raised
    ensures var o := WriteBlocks(State(i, k, old(mem[..])), Blocks(Order(Digits(|s|, size), little), s));
      Becomes(st, o, next, if o.Ok? then k + 1 else k, mem[..])
  {
    assert Written(|s|, false) == |s|;
    hide Order, Digits, Splice, Written;
    var ok;
    ok, next := PackInt(mem, true, i, |s|, little, size, false);
    if ok {
      ok, next := PackStream(mem, next, s);
    }
    st := if ok then Going else NoRoom;
  }

  method PackString(plat: Platform, mem: array<byte>, i: U64, size: nat, little: bool, v: Value, ghost k: nat)
    returns (st: Status, next: U64)
    requires i <= mem.Length < TWO63 && Sized(KString, size)
    modifies mem
    ensures Writes(plat, little, KString, size, v, State(i, k, old(mem[..])), st, next, mem[..])
  {
    hide InRange, Order, Digits, Pow2, Splice;
    var s := plat.toArray(v);
    if s.None? {
      return Raised, i;
    }
    var len: U64 := |s.value|;
    if size < SIZEOF_SIZE_T {
      LimitsAreRanges(len, size);
    }
    AlwaysInRange(len, size, false);
    if !(size >= SIZEOF_SIZE_T || len < Pow2(size * NB)) {
      return Raised, i;
    }
    hide WriteBlocks;
    st, next := PackCounted(mem, i, size, little, s.value, k);
  }

  method PackZstr(plat: Platform, mem: array<byte>, i: U64, size: nat, little: bool, v: Value, ghost k: nat)
    returns (st: Status, next: U64)
    requires i <= mem.Length < TWO63 && Sized(KZstr, size)
    modifies mem
    ensures Writes(plat, little, KZstr, size, v, State(i, k, old(mem[..])), st, next, mem[..])
  {
    hide MemChr, Splice;
    var s := plat.toArray(v);
    if s.None? {
      return Raised, i;
    }
    assert s.value[0..|s.value|] == s.value;
    if MemChr(s.value, 0, 0, |s.value|).Some? {
      return Raised, i;
    }
    var ok;
    ok, next := PackStream(mem, i, s.value);
    if ok {
      ok, next := PackChar(mem, next, 0);
    }
    st := if ok then Going else NoRoom;
  }

  lemma PackHead(plat: Platform, base: bool, prog: seq<Token>, args: seq<Value>, s: State)
    requires (forall t <- prog :: ValidToken(t)) && Valid(args, s)
    ensures prog == [] ==> Pack(plat, base, prog, args, s) == Ok(s)
    ensures prog != [] ==> var o := PackStep(plat, base, prog[0], args, s);
      Pack(plat, base, prog, args, s) == if o.Ok? then Pack(plat, base, prog[1..], args, o.s) else o
  {
  }

  /** One round of the loop of mem_pack, from the details of an option on. */
  method PackNext(plat: Platform, mem: array<byte>, base: bool, i: U64, kind: Kind, size: nat, ntoalign: nat, little: bool,
                  stack: seq<Value>, arg: nat, ghost t: Token)
    returns (st: Status, next: U64, arg': nat)
    requires i <= mem.Length < TWO63 && (base || mem.Length == 0) && 4 <= arg <= |stack| + 1
    requires t.Token? && t == Token(kind, size, t.align, little) && ValidToken(t) && ntoalign == Padding(i, t.align)
    modifies mem
    ensures arg' >= 3
    ensures var o := PackStep(plat, base, t, stack[3..], State(i, arg - 4, old(mem[..])));
      Becomes(st, o, next, if o.Ok? then arg' - 3 else arg - 4, mem[..]) && (!o.Ok? ==> arg' == arg)
  {
    hide PackItem, Padding;
    PaddingIsSmall(i, t.align);
    var ok;
    ok, next := GetBytes(base, i, mem.Length, ntoalign);
    if !ok {
      return NoRoom, next, arg;
    }
    st, next, arg' := PackOption(plat, mem, next, kind, size, little, stack, arg);
  }

  lemma PaddingIsSmall(i: nat, align: nat)
    requires IsPowerOf2(align)
    ensures Padding(i, align) < 16
  {
  }

  /** mem_pack */
  method MemPack(plat: Platform, mem: array<byte>, base: bool, fmt: string, start: S64, args: seq<Value>)
    returns (out: Option<seq<Value>>)
    requires mem.Length < TWO63 && (base || mem.Length == 0)
    modifies mem
    ensures (out, mem[..]) == PackCall(plat, base, old(mem[..]), Program(plat.native, fmt), start, args)
  {
    hide ReadToken, PackStep, Pack, Tokens, Padding, IsPowerOf2;
    var lb := mem.Length;
    var stack := [Nil, Nil, Int(start)] + args;   // the memory, the format, the start position, then the values
    assert stack[3..] == args;
    var i: U64 := PosRelatI(start, lb) - 1;
    var arg: nat := 3;
    if i > lb {
      return None;
    }
    var h := new Header(plat.native);
    var p := 0;
    ghost var all := Pack(plat, base, Program(plat.native, fmt), args, State(i, 0, mem[..]));
    while CharAt(fmt, p) != '\0'
      invariant p <= |fmt| && ValidConfig(h.View()) && h.native == plat.native
      invariant i <= lb && 3 <= arg <= |stack|
      invariant all == Pack(plat, base, Tokens(h.View(), fmt, p), args, State(i, arg - 3, mem[..]))
      decreases |fmt| - p
    {
      ghost var c, s := h.View(), State(i, arg - 3, mem[..]);
      ghost var r := ReadToken(c, fmt, p);
      TokensCons(c, fmt, p);
      PackHead(plat, base, Tokens(c, fmt, p), args, s);
      var ok, kind, size, ntoalign, q := h.GetDetails(i, fmt, p);
      if !ok {
        BadTokenStops(plat, base, args, s);
        return None;
      }
      var st;
      st, i, arg := PackNext(plat, mem, base, i, kind, size, ntoalign, h.islittle, stack, arg + 1, r.token);
      if st == NoRoom {
        return Some(PackFailed(stack, i, arg));
      } else if st == Raised {
        return None;
      }
      assert (if r.token.BadToken? then [] else Tokens(r.cfg, fmt, r.next)) == Tokens(c, fmt, p)[1..];
      p := q;
    }
    TokensNil(h.View(), fmt, p);
    PackHead(plat, base, [], args, State(i, arg - 3, mem[..]));
    return Some([Bool(true), Position(i)]);
  }

  lemma BadTokenStops(plat: Platform, base: bool, args: seq<Value>, s: State)
    requires Valid(args, s)
    ensures PackStep(plat, base, BadToken, args, s) == Error(s)
  {
  }

  /** The switch of mem_unpack: the values pushed and the bytes passed. */
  method UnpackOption(plat: Platform, data: array<byte>, pos: nat, kind: Kind, size: nat, little: bool) returns (r: Option<Item>)
    requires pos + size <= data.Length < TWO63 && Sized(kind, size)
    ensures r == Decode(plat, little, kind, size, data[..], pos)
  {
    hide DecodeInt, MemChr, Order;
    ghost var m := data[..];
    assert data[pos..pos + size] == m[pos..pos + size];
    match kind {
      case KInt =>
        var res := UnpackInt(data, pos, little, size, true);
        r := if res.None? then None else Some(Item([Int(res.value)], size));
      case KUint =>
        var res := UnpackInt(data, pos, little, size, false);
        r := if res.None? then None else Some(Item([Int(res.value)], size));
      case KFloat =>
        var u := new byte[size](_ => 0);
        ghost var field := m[pos..pos + size];
        assert field[..size] == field;
        CopyWithEndian(u, 0, data[pos..pos + size], size, little == plat.native);
        assert u[..] == Order(field, little == plat.native);
        r := Some(Item([Num(Float(plat, u[..]))], size));
      case KChar =>
        r := Some(Item([Bytes(data[pos..pos + size])], size));
      case KString =>
        r := UnpackString(plat, data, pos, size, little);
      case KZstr =>
        r := UnpackZstr(plat, data, pos, little);
      case _ =>
        r := Some(Item([], size));
    }
  }

  method UnpackString(plat: Platform, data: array<byte>, pos: nat, size: nat, little: bool) returns (r: Option<Item>)
    requires pos + size <= data.Length < TWO63 && Sized(KString, size)
    ensures r == Decode(plat, little, KString, size, data[..], pos)
  {
    hide DecodeInt, MemChr, Order;
    assert data[pos..pos + size] == data[..][pos..pos + size];
    var res := UnpackInt(data, pos, little, size, false);
    if res.None? {
      return None;
    }
    var len := ToUnsigned(res.value);
    if len > data.Length - pos - size {
      return None;
    }
    return Some(Item([Bytes(data[pos + size..pos + size + len])], size + len));
  }

  method UnpackZstr(plat: Platform, data: array<byte>, pos: nat, little: bool) returns (r: Option<Item>)
    requires pos <= data.Length < TWO63
    ensures r == Decode(plat, little, KZstr, 0, data[..], pos)
  {
    hide DecodeInt, MemChr, Order;
    var z := MemChr(data[..], pos, 0, data.Length - pos);
    if z.None? {
      return None;
    }
    var len := z.value - pos;
    return Some(Item([Bytes(data[pos..pos + len])], len + 1));
  }

  /** One round of the loop of mem_unpack, from the details of an option on. */
  method UnpackNext(plat: Platform, data: array<byte>, pos: nat, kind: Kind, size: nat, ntoalign: nat, little: bool, ghost t: Token)
    returns (r: Option<Reader>)
    requires pos <= data.Length < TWO63
    requires t.Token? && t == Token(kind, size, t.align, little) && ValidToken(t) && ntoalign == Padding(pos, t.align)
    ensures r == UnpackStep(plat, t, data[..], pos)
  {
    hide Decode, Padding;
    if !(ntoalign + size <= data.Length - pos) {
      return None;
    }
    var at := pos + ntoalign;
    var item := UnpackOption(plat, data, at, kind, size, little);
    if item.None? {
      return None;
    }
    return Some(Reader(at + item.value.len, item.value.out));
  }

  /** mem_unpack */
  method MemUnpack(plat: Platform, data: array<byte>, fmt: string, start: Option<S64>) returns (out: Option<seq<Value>>)
    requires data.Length < TWO63
    ensures out == UnpackCall(plat, data[..], Program(plat.native, fmt), start)
  {
    hide ReadToken, UnpackStep, Unpack, Tokens, Padding, IsPowerOf2;
    var ld := data.Length;
    var pos: U64 := PosRelatI(if start.Some? then start.value else 1, ld) - 1;
    if pos > ld {
      return None;
    }
    var h := new Header(plat.native);
    var p := 0;
    var pushed: seq<Value> := [];
    ghost var m := data[..];
    ghost var all := Unpack(plat, Program(plat.native, fmt), m, pos);
    assert all == Then([], all) by { NothingPushed(all); }
    while CharAt(fmt, p) != '\0'
      invariant p <= |fmt| && ValidConfig(h.View()) && h.native == plat.native && pos <= ld && data[..] == m
      invariant all == Then(pushed, Unpack(plat, Tokens(h.View(), fmt, p), m, pos))
      decreases |fmt| - p
    {
      ghost var c := h.View();
      ghost var r := ReadToken(c, fmt, p);
      TokensCons(c, fmt, p);
      UnpackHead(plat, Tokens(c, fmt, p), m, pos);
      var ok, kind, size, ntoalign, q := h.GetDetails(pos, fmt, p);
      if !ok {
        BadTokenRaises(plat, m, pos);
        return None;
      }
      var u := UnpackNext(plat, data, pos, kind, size, ntoalign, h.islittle, r.token);
      if u.None? {
        return None;
      }
      assert (if r.token.BadToken? then [] else Tokens(r.cfg, fmt, r.next)) == Tokens(c, fmt, p)[1..];
      ThenThen(pushed, u.value.out, Unpack(plat, Tokens(c, fmt, p)[1..], m, u.value.pos));
      pos, pushed, p := u.value.pos, pushed + u.value.out, q;
    }
    TokensNil(h.View(), fmt, p);
    UnpackHead(plat, [], m, pos);
    assert pushed + [] == pushed;
    return Some(pushed + [Position(pos)]);
  }

  lemma NothingPushed(u: Option<Reader>)
    ensures Then([], u) == u
  {
    assert u.Some? ==> [] + u.value.out == u.value.out;
  }

  lemma ThenThen(a: seq<Value>, b: seq<Value>, u: Option<Reader>)
    ensures Then(a, Then(b, u)) == Then(a + b, u)
  {
    assert u.Some? ==> a + (b + u.value.out) == a + b + u.value.out;
  }

  lemma BadTokenRaises(plat: Platform, m: seq<byte>, pos: nat)
    requires pos <= |m| < TWO63
    ensures UnpackStep(plat, BadToken, m, pos) == None
  {
  }
}
