/** What packing keeps, when it fits, and that unpacking undoes it. */
module PackLaws {
  import opened Machine
  import opened IntCodec
  import opened Search
  import opened Format
  import opened PackSpec
  import opened PackBytes

  // ---------- Frame ----------

  function Interval(from: nat, to: nat): set<int> {
    set j {:trigger Between(from, j, to)} | from <= j < to && Between(from, j, to)
  }

  predicate Between(from: nat, j: int, to: nat) {
    from <= j < to
  }

  /** The offsets that a step passes over without writing: alignment and 'x' bytes. */
  function StepSkips(t: Token, s: State): set<int>
    requires ValidToken(t)
  {
    if t.BadToken? then {}
    else Interval(s.i, s.i + if t.kind == KPadding then 1 else Padding(s.i, t.align))
  }

  function Skips(plat: Platform, base: bool, prog: seq<Token>, args: seq<Value>, s: State): set<int>
    requires (forall t <- prog :: ValidToken(t)) && Valid(args, s)
  {
    if prog == [] then {}
    else
      StepSkips(prog[0], s) +
      match PackStep(plat, base, prog[0], args, s)
      case Ok(u) => Skips(plat, base, prog[1..], args, u)
      case _ => {}
  }

  /** From s to t the cursors only moved on, and only bytes between the two cursors and outside skipped changed. */
  ghost predicate Keeps(s: State, t: State, skipped: set<int>) {
    && s.i <= t.i <= |t.mem| == |s.mem| && s.k <= t.k
    && (forall j :: 0 <= j < |s.mem| && (j < s.i || j >= t.i || j in skipped) ==> t.mem[j] == s.mem[j])
  }

  lemma StepKeeps(plat: Platform, base: bool, t: Token, args: seq<Value>, s: State)
    requires ValidToken(t) && Valid(args, s)
    ensures var o := PackStep(plat, base, t, args, s);
      Keeps(s, o.s, StepSkips(t, s)) && (o.Ok? ==> o.s.k <= s.k + 1) && (!o.Ok? ==> o.s.k == s.k)
  {
  }

  /** On every outcome of a run, memory outside what was packed is as before, and so are all skipped bytes. */
  lemma {:induction false} PackKeeps(plat: Platform, base: bool, prog: seq<Token>, args: seq<Value>, s: State)
    requires (forall t <- prog :: ValidToken(t)) && Valid(args, s)
    ensures Keeps(s, Pack(plat, base, prog, args, s).s, Skips(plat, base, prog, args, s))
  {
    if prog != [] {
      StepKeeps(plat, base, prog[0], args, s);
      var o := PackStep(plat, base, prog[0], args, s);
      if o.Ok? {
        PackKeeps(plat, base, prog[1..], args, o.s);
        SkipsAhead(plat, base, prog[1..], args, o.s);
      }
    }
  }

  /** A run skips nothing before its cursor. */
  lemma {:induction false} SkipsAhead(plat: Platform, base: bool, prog: seq<Token>, args: seq<Value>, s: State)
    requires (forall t <- prog :: ValidToken(t)) && Valid(args, s)
    ensures forall j <- Skips(plat, base, prog, args, s) :: j >= s.i
  {
    if prog != [] {
      StepKeeps(plat, base, prog[0], args, s);
      var o := PackStep(plat, base, prog[0], args, s);
      if o.Ok? {
        SkipsAhead(plat, base, prog[1..], args, o.s);
      }
    }
  }

  // ---------- When it fits ----------

  function Longer(s: State, extra: seq<byte>): State {
    s.(mem := s.mem + extra)
  }

  lemma WriteLonger(s: State, b: seq<byte>, extra: seq<byte>)
    requires s.i + |b| <= |s.mem|
    ensures Write(Longer(s, extra), b) == Longer(Write(s, b), extra)
  {
    assert Splice(s.mem + extra, s.i, b) == Splice(s.mem, s.i, b) + extra;
  }

  /** Outcome o in a memory of the given length, and big in that memory made longer. */
  ghost predicate Alike(o: Outcome, big: Outcome, lb: nat, extra: seq<byte>) {
    match o
    case Ok(t) => big == Ok(Longer(t, extra))
    case Error(t) => big == Error(Longer(t, extra))
    case Full(t) => big.Ok? ==> big.s.i > lb
  }

  lemma BlocksLonger(s: State, b: Blocks, extra: seq<byte>)
    requires s.i <= |s.mem|
    ensures Alike(WriteBlocks(s, b), WriteBlocks(Longer(s, extra), b), |s.mem|, extra)
  {
    if s.i + |b.first| <= |s.mem| {
      WriteLonger(s, b.first, extra);
      var t := Write(s, b.first);
      if t.i + |b.second| <= |s.mem| {
        WriteLonger(t, b.second, extra);
      }
    }
  }

  lemma ItemLonger(plat: Platform, args: seq<Value>, kind: Kind, size: nat, little: bool, s: State, extra: seq<byte>)
    requires Valid(args, s) && Valid(args, Longer(s, extra)) && Sized(kind, size)
    ensures Alike(PackItem(plat, args, kind, size, little, s), PackItem(plat, args, kind, size, little, Longer(s, extra)),
                  |s.mem|, extra)
  {
    if Consumes(kind) && s.k < |args| {
      var b := Encode(plat, little, kind, size, args[s.k]);
      if b.Some? {
        BlocksLonger(s, b.value, extra);
        assert kind == KFloat ==> |b.value.first| == size;
      }
    }
  }

  /** In a longer memory a step does the same, except that it may find room that was lacking. */
  lemma StepLonger(plat: Platform, base: bool, t: Token, args: seq<Value>, s: State, extra: seq<byte>)
    requires ValidToken(t) && Valid(args, s) && Valid(args, Longer(s, extra)) && (base || extra == [])
    ensures Alike(PackStep(plat, base, t, args, s), PackStep(plat, base, t, args, Longer(s, extra)), |s.mem|, extra)
  {
    hide PackItem, Padding;
    if t.Token? {
      var pad := Padding(s.i, t.align);
      if Room(base, |s.mem|, s.i, pad) {
        ItemLonger(plat, args, t.kind, t.size, t.little, s.(i := s.i + pad), extra);
      }
    }
  }

  /** A pack call that goes through in a longer memory goes through in this one exactly when its end lies in it. */
  lemma {:induction false} PackFits(plat: Platform, base: bool, prog: seq<Token>, args: seq<Value>, s: State, extra: seq<byte>)
    requires (forall t <- prog :: ValidToken(t)) && Valid(args, s) && Valid(args, Longer(s, extra)) && (base || extra == [])
    requires Pack(plat, base, prog, args, Longer(s, extra)).Ok?
    ensures var o, big := Pack(plat, base, prog, args, s), Pack(plat, base, prog, args, Longer(s, extra));
      && (o.Ok? <==> big.s.i <= |s.mem|) && (o.Full? <==> big.s.i > |s.mem|)
      && (o.Ok? ==> big == Ok(Longer(o.s, extra)))
  {
    if prog != [] {
      StepLonger(plat, base, prog[0], args, s, extra);
      var o := PackStep(plat, base, prog[0], args, s);
      if o.Ok? {
        PackFits(plat, base, prog[1..], args, o.s, extra);
      } else {
        PackKeeps(plat, base, prog[1..], args, PackStep(plat, base, prog[0], args, Longer(s, extra)).s);
      }
    }
  }

  // ---------- Whole runs, in numbers ----------

  /** The first n options were packed, and the next one ended the run with outcome o: a lack of room or an error. */
  ghost predicate StopsAt(plat: Platform, base: bool, prog: seq<Token>, args: seq<Value>, from: State, o: Outcome, n: nat)
    requires (forall t <- prog :: ValidToken(t)) && Valid(args, from)
  {
    && n < |prog| && !o.Ok?
    && var done := Pack(plat, base, prog[..n], args, from);
       && done.Ok?
       && if prog[n].BadToken? then o == Error(done.s) else Packs(plat, base, prog[n], args, done.s, o)
  }

  /** A run that is cut short got as far as one option, which alone says where the cursor stops and what was written last. */
  lemma {:induction false} RunStops(plat: Platform, base: bool, prog: seq<Token>, args: seq<Value>, s: State)
    requires (forall t <- prog :: ValidToken(t)) && Valid(args, s) && !Pack(plat, base, prog, args, s).Ok?
    ensures exists n :: 0 <= n && StopsAt(plat, base, prog, args, s, Pack(plat, base, prog, args, s), n)
  {
    var end := Pack(plat, base, prog, args, s);
    var o := PackStep(plat, base, prog[0], args, s);
    StepPacks(plat, base, prog[0], args, s);
    hide PackStep, Packs;
    if o.Ok? {
      RunStops(plat, base, prog[1..], args, o.s);
      var m: nat :| StopsAt(plat, base, prog[1..], args, o.s, end, m);
      assert prog[..m + 1][1..] == prog[1..][..m] && prog[..m + 1][0] == prog[0] && prog[1..][m] == prog[m + 1];
      assert StopsAt(plat, base, prog, args, s, end, m + 1);
    } else {
      assert StopsAt(plat, base, prog, args, s, end, 0);
    }
  }

  /** The outcome o of a run from state s: option after option, each as PackBytes.Packs says. */
  ghost predicate Runs(plat: Platform, base: bool, prog: seq<Token>, args: seq<Value>, s: State, o: Outcome)
    requires (forall t <- prog :: ValidToken(t)) && Valid(args, s)
  {
    if prog == [] then o == Ok(s)
    else if prog[0].BadToken? then o == Error(s)
    else
      exists now :: Packs(plat, base, prog[0], args, s, now) &&
        if now.Ok? then Valid(args, now.s) && Runs(plat, base, prog[1..], args, now.s, o) else o == now
  }

  lemma {:induction false} RunLaw(plat: Platform, base: bool, prog: seq<Token>, args: seq<Value>, s: State)
    requires (forall t <- prog :: ValidToken(t)) && Valid(args, s)
    ensures Runs(plat, base, prog, args, s, Pack(plat, base, prog, args, s))
  {
    if prog != [] {
      var o := PackStep(plat, base, prog[0], args, s);
      StepPacks(plat, base, prog[0], args, s);
      hide PackStep, Packs;
      if o.Ok? {
        RunLaw(plat, base, prog[1..], args, o.s);
      }
    }
  }

  // ---------- Unpacking undoes packing ----------

  /** What an item reads back as: the converted value, a float narrowed to the option's size. */
  function Canon(plat: Platform, kind: Kind, size: nat, v: Value): Value
    requires Consumes(kind)
  {
    match kind
    case KInt => (match plat.toInteger(v) case Some(n) => Int(n) case None => Nil)
    case KUint => (match plat.toInteger(v) case Some(n) => Int(n) case None => Nil)
    case KFloat => (match plat.toNumber(v)
                    case Some(x) => Num(if size == SIZEOF_FLOAT then plat.widen(plat.narrow(x)) else x)
                    case None => Nil)
    case KChar => (match plat.toArray(v) case Some(s) => Bytes(s) case None => Nil)
    case KString => (match plat.toArray(v) case Some(s) => Bytes(s) case None => Nil)
    case KZstr => (match plat.toArray(v) case Some(s) => Bytes(s) case None => Nil)
  }

  function StepReadBack(plat: Platform, t: Token, args: seq<Value>, k: nat): seq<Value> {
    if t.Token? && Consumes(t.kind) && k < |args| then [Canon(plat, t.kind, t.size, args[k])] else []
  }

  /** The values a successful run consumes, as they read back, in order. */
  function ReadBack(plat: Platform, prog: seq<Token>, args: seq<Value>, k: nat): seq<Value> {
    if prog == [] then []
    else
      var now := StepReadBack(plat, prog[0], args, k);
      now + ReadBack(plat, prog[1..], args, k + |now|)
  }

  /** The bytes of blocks b are in memory m at offset at. */
  predicate Holds(m: seq<byte>, at: nat, b: Blocks) {
    && at + |b.first| + |b.second| <= |m|
    && m[at..at + |b.first|] == b.first
    && m[at + |b.first|..at + |b.first| + |b.second|] == b.second
  }

  lemma FirstZero(m: seq<byte>, at: nat, s: seq<byte>)
    requires at + |s| + 1 <= |m| && m[at..at + |s|] == s && m[at + |s|] == 0 && 0 !in s
    ensures MemChr(m, at, 0, |m| - at) == Some(at + |s|)
  {
    forall k | at <= k < at + |s|
      ensures m[k] != 0
    {
      assert m[k] == s[k - at];
    }
    MemChrFinds(m, at, 0, |m| - at, at + |s|);
  }

  function BlocksSize(b: Blocks): nat {
    |b.first| + |b.second|
  }

  lemma IntBlock(n: S64, size: nat, signed: bool, little: bool)
    requires size >= 1 && InRange(n, size, signed)
    ensures DecodeInt(Order(Order(EncodeInt(n, size, signed), little), little), signed) == Some(n)
  {
    OrderTwice(EncodeInt(n, size, signed), little);
    DecodeEncode(n, size, signed);
  }

  /** Blocks b are what an option of the given kind and size makes of a value that reads back as w. */
  ghost predicate Represents(plat: Platform, little: bool, kind: Kind, size: nat, b: Blocks, w: Value) {
    if kind == KInt || kind == KUint then
      w.Int? && b.second == [] && |b.first| == size && DecodeInt(Order(b.first, little), kind == KInt) == Some(w.n)
    else if kind == KFloat then
      b.second == [] && |b.first| == size && (size == 4 || size == 8)
      && w == Num(Float(plat, Order(b.first, little == plat.native)))
    else
      w.Bytes? &&
      if kind == KChar then b == Blocks(w.s, []) && |w.s| == size
      else if kind == KString then
        b.second == w.s && |b.first| == size && DecodeInt(Order(b.first, little), false) == Some(|w.s|)
      else kind == KZstr && b == Blocks(w.s, [0]) && 0 !in w.s
  }

  /** Encoding makes blocks that represent the value as converted. */
  lemma EncodeRepresents(plat: Platform, little: bool, kind: Kind, size: nat, v: Value)
    requires Consumes(kind) && Sized(kind, size) && Encode(plat, little, kind, size, v).Some?
    ensures Represents(plat, little, kind, size, Encode(plat, little, kind, size, v).value, Canon(plat, kind, size, v))
    ensures BlocksSize(Encode(plat, little, kind, size, v).value) >= size
  {
    match kind {
      case KInt => IntBlock(plat.toInteger(v).value, size, true, little);
      case KUint => IntBlock(plat.toInteger(v).value, size, false, little);
      case KFloat => OrderTwice(FloatImage(plat, size, plat.toNumber(v).value), little == plat.native);
      case KChar =>
      case KString => IntBlock(|plat.toArray(v).value|, size, false, little);
      case KZstr =>
    }
  }

  /** Decoding a memory that holds blocks gives the value they represent. */
  lemma DecodeHeld(plat: Platform, little: bool, kind: Kind, size: nat, b: Blocks, w: Value, m: seq<byte>, at: nat)
    requires Represents(plat, little, kind, size, b, w) && Sized(kind, size)
    requires at + size <= |m| < TWO63 && Holds(m, at, b)
    ensures Decode(plat, little, kind, size, m, at) == Some(Item([w], BlocksSize(b)))
  {
    hide DecodeInt, Order, MemChr;
    if kind == KZstr {
      assert m[at + |w.s|..at + |w.s| + 1][0] == 0;
      FirstZero(m, at, w.s);
    } else if kind == KString {
      assert m[at..at + size] == b.first;
      assert m[at + size..at + size + |w.s|] == w.s;
    } else {
      assert m[at..at + size] == b.first;
    }
  }

  /** A memory that agrees with t's before t's cursor. */
  predicate Agrees(m: seq<byte>, t: State) {
    |m| == |t.mem| && t.i <= |m| && m[..t.i] == t.mem[..t.i]
  }

  lemma WrittenBlocksHold(s: State, b: Blocks, m: seq<byte>)
    requires s.i <= |s.mem| && WriteBlocks(s, b).Ok? && Agrees(m, WriteBlocks(s, b).s)
    ensures Holds(m, s.i, b)
    ensures WriteBlocks(s, b).s.i == s.i + BlocksSize(b) && WriteBlocks(s, b).s.k == s.k + 1
  {
    var t := WriteBlocks(s, b).s;
    assert forall j :: 0 <= j < t.i ==> m[j] == m[..t.i][j] == t.mem[..t.i][j] == t.mem[j];
  }

  lemma ItemRoundTrip(plat: Platform, t: Token, args: seq<Value>, s: State, m: seq<byte>)
    requires t.Token? && ValidToken(t) && Valid(args, s) && |m| < TWO63
    requires PackItem(plat, args, t.kind, t.size, t.little, s).Ok?
    requires Agrees(m, PackItem(plat, args, t.kind, t.size, t.little, s).s)
    ensures var u, now := PackItem(plat, args, t.kind, t.size, t.little, s).s, StepReadBack(plat, t, args, s.k);
      && s.i + t.size <= u.i && u.k == s.k + |now|
      && Decode(plat, t.little, t.kind, t.size, m, s.i) == Some(Item(now, u.i - s.i))
  {
    if Consumes(t.kind) {
      ConsumedRoundTrip(plat, t, args, s, m);
    }
  }

  lemma ConsumedRoundTrip(plat: Platform, t: Token, args: seq<Value>, s: State, m: seq<byte>)
    requires t.Token? && ValidToken(t) && Consumes(t.kind) && Valid(args, s) && |m| < TWO63
    requires PackItem(plat, args, t.kind, t.size, t.little, s).Ok?
    requires Agrees(m, PackItem(plat, args, t.kind, t.size, t.little, s).s)
    ensures var u := PackItem(plat, args, t.kind, t.size, t.little, s).s;
      && s.k < |args| && s.i + t.size <= u.i && u.k == s.k + 1
      && Decode(plat, t.little, t.kind, t.size, m, s.i) == Some(Item([Canon(plat, t.kind, t.size, args[s.k])], u.i - s.i))
  {
    hide Encode, Decode, Canon, Represents, WriteBlocks;
    var b := Encode(plat, t.little, t.kind, t.size, args[s.k]).value;
    WrittenBlocksHold(s, b, m);
    EncodeRepresents(plat, t.little, t.kind, t.size, args[s.k]);
    DecodeHeld(plat, t.little, t.kind, t.size, b, Canon(plat, t.kind, t.size, args[s.k]), m, s.i);
  }

  /** Step by step: a reader at the packer's position ends up where the packer does. */
  lemma StepRoundTrip(plat: Platform, base: bool, t: Token, args: seq<Value>, s: State, m: seq<byte>)
    requires ValidToken(t) && Valid(args, s) && |m| < TWO63
    requires PackStep(plat, base, t, args, s).Ok? && Agrees(m, PackStep(plat, base, t, args, s).s)
    ensures var u, now := PackStep(plat, base, t, args, s).s, StepReadBack(plat, t, args, s.k);
      UnpackStep(plat, t, m, s.i) == Some(Reader(u.i, now)) && u.k == s.k + |now|
  {
    hide Decode, PackItem, Padding;
    var at := s.i + Padding(s.i, t.align);
    ItemRoundTrip(plat, t, args, s.(i := at), m);
    assert at + t.size <= |m|;
  }

  /** A reader of u's memory that starts at s pushes the values consumed from s to u, and stops at u. */
  ghost predicate Follows(plat: Platform, prog: seq<Token>, args: seq<Value>, s: State, u: State)
    requires (forall t <- prog :: ValidToken(t)) && s.i <= |u.mem| < TWO63
  {
    && Unpack(plat, prog, u.mem, s.i) == Some(Reader(u.i, ReadBack(plat, prog, args, s.k)))
    && u.k == s.k + |ReadBack(plat, prog, args, s.k)|
  }

  lemma FollowsCons(plat: Platform, prog: seq<Token>, args: seq<Value>, s: State, t: State, u: State)
    requires prog != [] && (forall t <- prog :: ValidToken(t)) && s.i <= |u.mem| < TWO63 && t.i <= |u.mem|
    requires var now := StepReadBack(plat, prog[0], args, s.k);
      UnpackStep(plat, prog[0], u.mem, s.i) == Some(Reader(t.i, now)) && t.k == s.k + |now|
    requires Follows(plat, prog[1..], args, t, u)
    ensures Follows(plat, prog, args, s, u)
  {
  }

  /** Whole runs: whatever is packed reads back, item for item, to the same next position. */
  lemma {:induction false} RoundTrip(plat: Platform, base: bool, prog: seq<Token>, args: seq<Value>, s: State)
    requires (forall t <- prog :: ValidToken(t)) && Valid(args, s) && Pack(plat, base, prog, args, s).Ok?
    ensures Follows(plat, prog, args, s, Pack(plat, base, prog, args, s).s)
  {
    if prog != [] {
      var t := PackStep(plat, base, prog[0], args, s).s;
      var u := Pack(plat, base, prog, args, s).s;
      PackCons(plat, base, prog, args, s);
      PackKeeps(plat, base, prog[1..], args, t);
      RoundTrip(plat, base, prog[1..], args, t);
      StepRoundTrip(plat, base, prog[0], args, s, u.mem);
      FollowsCons(plat, prog, args, s, t, u);
    }
  }

  lemma PackCons(plat: Platform, base: bool, prog: seq<Token>, args: seq<Value>, s: State)
    requires prog != [] && (forall t <- prog :: ValidToken(t)) && Valid(args, s)
    requires PackStep(plat, base, prog[0], args, s).Ok?
    ensures Pack(plat, base, prog, args, s) == Pack(plat, base, prog[1..], args, PackStep(plat, base, prog[0], args, s).s)
  {
  }
}
