/** What every packing option does to memory and position, byte by byte (section 6.4.2 of the Lua 5.4 Reference Manual). */
module PackBytes {
  import opened Machine
  import opened Bits
  import opened IntCodec
  import opened Format
  import opened PackSpec

  /** The values that an option takes; every other value raises an error. */
  predicate Accepts(plat: Platform, kind: Kind, size: nat, v: Value)
    requires Consumes(kind) && Sized(kind, size)
  {
    match kind
    case KInt =>
      var n := plat.toInteger(v);
      n.Some? && (size >= 8 || -(Pow2(8 * size - 1) as int) <= n.value < Pow2(8 * size - 1))
    case KUint =>
      var n := plat.toInteger(v);
      n.Some? && (size >= 8 || 0 <= n.value < Pow2(8 * size))
    case KFloat => plat.toNumber(v).Some?
    case KChar =>
      var a := plat.toArray(v);
      a.Some? && |a.value| == size
    case KString =>
      var a := plat.toArray(v);
      a.Some? && (size >= 8 || |a.value| < Pow2(8 * size))
    case KZstr =>
      var a := plat.toArray(v);
      a.Some? && 0 !in a.value
  }

  /** The bytes b are a float image, as it is or reversed. */
  predicate HoldsImage(b: seq<byte>, image: seq<byte>, same: bool) {
    |b| == |image| && forall k :: 0 <= k < |b| ==> b[k] == image[if same then k else |image| - 1 - k]
  }

  /** The bytes b are what an option makes of an accepted value. */
  ghost predicate Layout(plat: Platform, kind: Kind, size: nat, little: bool, v: Value, b: seq<byte>)
    requires Consumes(kind) && Sized(kind, size) && Accepts(plat, kind, size, v)
  {
    match kind
    case KInt => |b| == size && HoldsInt(b, plat.toInteger(v).value, little)
    case KUint =>
      var n := plat.toInteger(v).value;
      |b| == size && HoldsInt(b, if n < 0 then n + 0x1_0000_0000_0000_0000 else n, little)
    case KFloat =>
      var x := plat.toNumber(v).value;
      HoldsImage(b, if size == 4 then plat.narrow(x) else x, little == plat.native)
    case KChar => b == plat.toArray(v).value
    case KString =>
      var a := plat.toArray(v).value;
      |b| == size + |a| && HoldsInt(b[..size], |a|, little) && b[size..] == a
    case KZstr => b == plat.toArray(v).value + [0]
  }

  /** How many of the len bytes of an item are written although there is room for fewer: the length of a string whose body
      does not fit, the body of a string whose zero does not fit. */
  function LeftBehind(kind: Kind, size: nat, len: nat, room: nat): nat
    requires room < len
  {
    if kind == KString && size <= room then size
    else if kind == KZstr && room == len - 1 then len - 1
    else 0
  }

  /** The bytes b written over those of m from offset at on. */
  function Over(m: seq<byte>, at: nat, b: seq<byte>): seq<byte>
    requires at + |b| <= |m|
  {
    m[..at] + b + m[at + |b|..]
  }

  /** The outcome o of an option, from cursor s.i and argument s.k on: where the cursor stops, what is written, and when an
      error is raised. */
  ghost predicate Packs(plat: Platform, base: bool, t: Token, args: seq<Value>, s: State, o: Outcome)
    requires t.Token? && ValidToken(t) && Valid(args, s)
  {
    var at := s.i + Padding(s.i, t.align);
    if !base || at > |s.mem| then o == Full(s)
    else if t.kind == KPadding then
      o == if at < |s.mem| then Ok(State(at + 1, s.k, s.mem)) else Full(State(at, s.k, s.mem))
    else if t.kind == KPaddAlign || t.kind == KNop then o == Ok(State(at, s.k, s.mem))
    else if t.kind == KFloat && at + t.size > |s.mem| then o == Full(State(at, s.k, s.mem))
    else if s.k >= |args| || !Accepts(plat, t.kind, t.size, args[s.k]) then o == Error(State(at, s.k, s.mem))
    else
      exists b: seq<byte> :: Layout(plat, t.kind, t.size, t.little, args[s.k], b) && Stores(t, s, at, b, o)
  }

  /** An item of bytes b goes to offset at, or as much of it as is left behind. */
  ghost predicate Stores(t: Token, s: State, at: nat, b: seq<byte>, o: Outcome)
    requires t.Token? && at <= |s.mem|
  {
    if at + |b| <= |s.mem| then o == Ok(State(at + |b|, s.k + 1, Over(s.mem, at, b)))
    else
      var n := LeftBehind(t.kind, t.size, |b|, |s.mem| - at);
      o == Full(State(at + n, s.k, Over(s.mem, at, b[..n])))
  }

  /** The conversion checks of mem_pack on an integer, as the C code makes them. */
  lemma LimitsAreRanges(n: S64, size: nat)
    requires 1 <= size < SZINT
    ensures -(Pow2(size * NB - 1) as int) <= n < Pow2(size * NB - 1) <==> InRange(n, size, true)
    ensures ToUnsigned(n) < Pow2(size * NB) <==> InRange(n, size, false)
  {
    Pow2Bytes(size);
    assert Pow2(8 * size) == 2 * Pow2(8 * size - 1);
  }

  /** A negative integer is no short unsigned field. */
  lemma NegativeIsLarge(n: S64, size: nat)
    requires 1 <= size < SZINT
    ensures InRange(n, size, false) ==> n >= 0
  {
    FieldRange(size);
  }

  /** Encoding accepts these values and lays them out so; only strings come in two blocks. */
  ghost predicate EncodesAs(plat: Platform, little: bool, kind: Kind, size: nat, v: Value)
    requires Consumes(kind) && Sized(kind, size)
  {
    var b := Encode(plat, little, kind, size, v);
    && (b.Some? <==> Accepts(plat, kind, size, v))
    && (b.Some? ==>
          && Layout(plat, kind, size, little, v, b.value.first + b.value.second)
          && (kind == KString ==> |b.value.first| == size)
          && (kind == KZstr ==> |b.value.second| == 1)
          && (kind != KString && kind != KZstr ==> b.value.second == []))
  }

  lemma EncodeLaw(plat: Platform, little: bool, kind: Kind, size: nat, v: Value)
    requires Consumes(kind) && Sized(kind, size)
    ensures EncodesAs(plat, little, kind, size, v)
  {
    hide Order, Digits, InRange, HoldsInt, Pow2;
    match kind {
      case KInt =>
        var n := plat.toInteger(v);
        if n.Some? {
          Limits(n.value, size);
          IntLaw(n.value, size, little);
          assert Order(EncodeInt(n.value, size, true), little) + [] == Order(EncodeInt(n.value, size, true), little);
        }
      case KUint =>
        var n := plat.toInteger(v);
        if n.Some? {
          Limits(n.value, size);
          IntLaw(ToUnsigned(n.value), size, little);
          assert Order(EncodeInt(n.value, size, false), little) + [] == Order(EncodeInt(n.value, size, false), little);
        }
      case KFloat => FloatLaw(plat, little, size, v);
      case KChar =>
        var a := plat.toArray(v);
        assert a.Some? ==> a.value + [] == a.value;
      case KString =>
        var a := plat.toArray(v);
        if a.Some? {
          Limits(|a.value|, size);
          IntLaw(|a.value|, size, little);
          var f := Order(EncodeInt(|a.value|, size, false), little);
          assert (f + a.value)[..size] == f && (f + a.value)[size..] == a.value;
        }
      case KZstr =>
    }
  }

  lemma IntLaw(n: int, size: nat, little: bool)
    ensures HoldsInt(Order(Digits(n, size), little), n, little)
  {
    DigitsHold(n, size, little);
  }

  lemma Limits(n: S64, size: nat)
    requires 1 <= size
    ensures InRange(n, size, true) <==> size >= 8 || -(Pow2(8 * size - 1) as int) <= n < Pow2(8 * size - 1)
    ensures InRange(n, size, false) <==> size >= 8 || 0 <= n < Pow2(8 * size)
  {
    hide Pow2;
    if size < 8 {
      LimitsAreRanges(n, size);
      NegativeIsLarge(n, size);
    }
  }

  lemma FloatLaw(plat: Platform, little: bool, size: nat, v: Value)
    requires Sized(KFloat, size)
    ensures EncodesAs(plat, little, KFloat, size, v)
  {
    var x := plat.toNumber(v);
    if x.Some? {
      var image := FloatImage(plat, size, x.value);
      var f := Order(image, little == plat.native);
      assert f + [] == f;
      assert HoldsImage(f, image, little == plat.native);
    }
  }

  lemma BlocksLaw(t: Token, s: State, b: Blocks)
    requires t.Token? && s.i <= |s.mem|
    requires t.kind == KString ==> |b.first| == t.size
    requires t.kind == KZstr ==> |b.second| == 1
    requires t.kind != KString && t.kind != KZstr ==> b.second == []
    ensures Stores(t, s, s.i, b.first + b.second, WriteBlocks(s, b))
  {
    hide Over, Splice;
    var all := b.first + b.second;
    if s.i + |b.first| > |s.mem| {
      OverNothing(s.mem, s.i, all);
    } else {
      SpliceIsOver(s.mem, s.i, b.first);
      assert all[..|b.first|] == b.first;
      if s.i + |all| <= |s.mem| {
        SpliceIsOver(Over(s.mem, s.i, b.first), s.i + |b.first|, b.second);
        OverTwice(s.mem, s.i, b.first, b.second);
      }
    }
  }

  lemma OverNothing(m: seq<byte>, at: nat, b: seq<byte>)
    requires at <= |m|
    ensures Over(m, at, b[..0]) == m
  {
    assert b[..0] == [] && m[..at] + [] + m[at..] == m;
  }

  lemma OverTwice(m: seq<byte>, at: nat, a: seq<byte>, b: seq<byte>)
    requires at + |a| + |b| <= |m|
    ensures |Over(m, at, a)| == |m| && Over(Over(m, at, a), at + |a|, b) == Over(m, at, a + b)
  {
    var one := Over(m, at, a);
    assert one[..at + |a|] == m[..at] + a;
    assert one[at + |a| + |b|..] == m[at + |a| + |b|..];
  }

  lemma SpliceIsOver(m: seq<byte>, at: nat, b: seq<byte>)
    requires at + |b| <= |m|
    ensures Splice(m, at, b) == Over(m, at, b) && |Over(m, at, b)| == |m|
  {
  }

  /** Every option does exactly what these numbers say. */
  lemma StepPacks(plat: Platform, base: bool, t: Token, args: seq<Value>, s: State)
    requires ValidToken(t) && Valid(args, s)
    ensures t.BadToken? ==> PackStep(plat, base, t, args, s) == Error(s)
    ensures t.Token? ==> Packs(plat, base, t, args, s, PackStep(plat, base, t, args, s))
  {
    hide Padding, Encode, Accepts, Layout, WriteBlocks, Stores;
    if t.Token? {
      var at := s.i + Padding(s.i, t.align);
      if at <= |s.mem| && Consumes(t.kind) && s.k < |args| {
        ItemPacks(plat, t, args, s, at);
      }
    }
  }

  /** An item that takes a value, after its alignment. */
  lemma ItemPacks(plat: Platform, t: Token, args: seq<Value>, s: State, at: nat)
    requires t.Token? && ValidToken(t) && Consumes(t.kind) && Valid(args, s) && s.k < |args| && at <= |s.mem|
    ensures var o := PackItem(plat, args, t.kind, t.size, t.little, s.(i := at));
      if t.kind == KFloat && at + t.size > |s.mem| then o == Full(s.(i := at))
      else if !Accepts(plat, t.kind, t.size, args[s.k]) then o == Error(s.(i := at))
      else exists b: seq<byte> :: Layout(plat, t.kind, t.size, t.little, args[s.k], b) && Stores(t, s, at, b, o)
  {
    EncodeLaw(plat, t.little, t.kind, t.size, args[s.k]);
    hide Encode, Accepts, Layout, WriteBlocks, Stores;
    var b := Encode(plat, t.little, t.kind, t.size, args[s.k]);
    if b.Some? {
      BlocksLaw(t, s.(i := at), b.value);
      MovedStores(t, s, at, b.value.first + b.value.second, WriteBlocks(s.(i := at), b.value));
    }
  }

  lemma MovedStores(t: Token, s: State, at: nat, b: seq<byte>, o: Outcome)
    requires t.Token? && at <= |s.mem| && Stores(t, s.(i := at), at, b, o)
    ensures Stores(t, s, at, b, o)
  {
  }
}
