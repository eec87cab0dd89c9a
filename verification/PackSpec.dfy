/** Packing and unpacking as functions: one step per format option, and whole runs (section 6.4.2 of the manual). */
module PackSpec {
  import opened Machine
  import opened IntCodec
  import opened Search
  import opened Format

  type Image8 = s: seq<byte> | |s| == 8 witness [0, 0, 0, 0, 0, 0, 0, 0]
  type Image4 = s: seq<byte> | |s| == 4 witness [0, 0, 0, 0]
  type LuaString = s: seq<byte> | |s| < 0x8000_0000_0000_0000

  /** Lua values; a float is its byte image, and Bytes is a string or the contents of a memory. */
  datatype Value = Nil | Bool(b: bool) | Int(n: S64) | Num(image: Image8) | Bytes(s: LuaString)

  /** Byte order of the machine, and the conversions of the Lua API and of the C compiler. */
  datatype Platform = Platform(
    native: bool,
    toInteger: Value -> Option<S64>,
    toNumber: Value -> Option<Image8>,
    toArray: Value -> Option<LuaString>,
    narrow: Image8 -> Image4,
    widen: Image4 -> Image8)

  /** Values of the right type convert to themselves. */
  ghost predicate Plain(plat: Platform) {
    && (forall n: S64 :: plat.toInteger(Int(n)) == Some(n))
    && (forall x: Image8 :: plat.toNumber(Num(x)) == Some(x))
    && (forall s: LuaString :: plat.toArray(Bytes(s)) == Some(s))
  }

  // ---------- Packing ----------

  /** A point of a packing run: cursor, values consumed and memory. */
  datatype State = State(i: nat, k: nat, mem: seq<byte>)

  predicate Valid(args: seq<Value>, s: State) {
    s.i <= |s.mem| < TWO63 && s.k <= |args|
  }

  /** Ok goes on, Full lacks room at the item numbered s.k, Error is a raised error. */
  datatype Outcome = Ok(s: State) | Full(s: State) | Error(s: State)

  predicate Consumes(kind: Kind) {
    kind !in {KPadding, KPaddAlign, KNop}
  }

  /** The bytes of an item, written as two blocks that are checked for room one after the other. */
  datatype Blocks = Blocks(first: seq<byte>, second: seq<byte>)

  function FloatImage(plat: Platform, size: nat, x: Image8): (r: seq<byte>)
    ensures |r| == if size == SIZEOF_FLOAT then 4 else 8
  {
    if size == SIZEOF_FLOAT then plat.narrow(x) else x
  }

  /** None when the C code raises an error about the value. */
  function Encode(plat: Platform, little: bool, kind: Kind, size: nat, v: Value): Option<Blocks>
    requires Consumes(kind) && Sized(kind, size)
  {
    match kind
    case KInt =>
      (match plat.toInteger(v)
       case None => None
       case Some(n) => if InRange(n, size, true) then Some(Blocks(Order(EncodeInt(n, size, true), little), [])) else None)
    case KUint =>
      (match plat.toInteger(v)
       case None => None
       case Some(n) => if InRange(n, size, false) then Some(Blocks(Order(EncodeInt(n, size, false), little), [])) else None)
    case KFloat =>
      (match plat.toNumber(v)
       case None => None
       case Some(x) => Some(Blocks(Order(FloatImage(plat, size, x), little == plat.native), [])))
    case KChar =>
      (match plat.toArray(v)
       case None => None
       case Some(s) => if |s| == size then Some(Blocks(s, [])) else None)
    case KString =>
      (match plat.toArray(v)
       case None => None
       case Some(s) =>
         if InRange(|s|, size, false) then Some(Blocks(Order(EncodeInt(|s|, size, false), little), s)) else None)
    case KZstr =>
      (match plat.toArray(v)
       case None => None
       case Some(s) => if 0 !in s then Some(Blocks(s, [0])) else None)
  }

  function Write(s: State, b: seq<byte>): State
    requires s.i + |b| <= |s.mem|
  {
    s.(mem := Splice(s.mem, s.i, b), i := s.i + |b|)
  }

  function WriteBlocks(s: State, b: Blocks): Outcome
    requires s.i <= |s.mem|
  {
    if s.i + |b.first| > |s.mem| then Full(s)
    else
      var t := Write(s, b.first);
      if t.i + |b.second| > |s.mem| then Full(t)
      else Ok(Write(t, b.second).(k := s.k + 1))
  }

  /** An option after its alignment has been skipped. */
  function PackItem(plat: Platform, args: seq<Value>, kind: Kind, size: nat, little: bool, s: State): (o: Outcome)
    requires Valid(args, s) && Sized(kind, size)
    ensures Valid(args, o.s) && |o.s.mem| == |s.mem| && o.s.i >= s.i
  {
    if !Consumes(kind) then
      if kind != KPadding then Ok(s)
      else if s.i + 1 > |s.mem| then Full(s) else Ok(s.(i := s.i + 1))
    else if kind == KFloat && s.i + size > |s.mem| then Full(s)
    else if s.k >= |args| then Error(s)
    else match Encode(plat, little, kind, size, args[s.k])
      case None => Error(s)
      case Some(b) => WriteBlocks(s, b)
  }

  function PackStep(plat: Platform, base: bool, t: Token, args: seq<Value>, s: State): (o: Outcome)
    requires ValidToken(t) && Valid(args, s)
    ensures Valid(args, o.s) && |o.s.mem| == |s.mem|
  {
    if t.BadToken? then Error(s)
    else
      var pad := Padding(s.i, t.align);
      if !Room(base, |s.mem|, s.i, pad) then Full(s)
      else PackItem(plat, args, t.kind, t.size, t.little, s.(i := s.i + pad))
  }

  /** A run of the loop of mem_pack. */
  function Pack(plat: Platform, base: bool, prog: seq<Token>, args: seq<Value>, s: State): (o: Outcome)
    requires (forall t <- prog :: ValidToken(t)) && Valid(args, s)
    ensures Valid(args, o.s) && |o.s.mem| == |s.mem|
  {
    if prog == [] then Ok(s)
    else match PackStep(plat, base, prog[0], args, s)
      case Ok(t) => Pack(plat, base, prog[1..], args, t)
      case stop => stop
  }

  // ---------- Unpacking ----------

  /** Where a reader stops, and the values it has pushed on the way. */
  datatype Reader = Reader(pos: nat, out: seq<Value>)

  /** The values pushed for an option, and the number of bytes read. */
  datatype Item = Item(out: seq<Value>, len: nat)

  function Float(plat: Platform, image: seq<byte>): Image8
    requires |image| == 4 || |image| == 8
  {
    if |image| == SIZEOF_FLOAT then plat.widen(image) else image
  }

  /** None when the C code raises an error. */
  function Decode(plat: Platform, little: bool, kind: Kind, size: nat, mem: seq<byte>, at: nat): (r: Option<Item>)
    requires at + size <= |mem| < TWO63 && Sized(kind, size)
    ensures r.Some? ==> at + r.value.len <= |mem|
  {
    var field := mem[at..at + size];
    match kind
    case KInt =>
      (match DecodeInt(Order(field, little), true)
       case None => None
       case Some(n) => Some(Item([Int(n)], size)))
    case KUint =>
      (match DecodeInt(Order(field, little), false)
       case None => None
       case Some(n) => Some(Item([Int(n)], size)))
    case KFloat => Some(Item([Num(Float(plat, Order(field, little == plat.native)))], size))
    case KChar => Some(Item([Bytes(field)], size))
    case KString =>
      (match DecodeInt(Order(field, little), false)
       case None => None
       case Some(n) =>
         var len := ToUnsigned(n);
         if len <= |mem| - at - size then Some(Item([Bytes(mem[at + size..at + size + len])], size + len)) else None)
    case KZstr =>
      (match MemChr(mem, at, 0, |mem| - at)
       case None => None
       case Some(z) => Some(Item([Bytes(mem[at..z])], z - at + 1)))
    case _ => Some(Item([], size))
  }

  function UnpackStep(plat: Platform, t: Token, mem: seq<byte>, pos: nat): (u: Option<Reader>)
    requires ValidToken(t) && pos <= |mem| < TWO63
    ensures u.Some? ==> pos <= u.value.pos <= |mem|
  {
    if t.BadToken? then None
    else
      var at := pos + Padding(pos, t.align);
      if at + t.size > |mem| then None
      else match Decode(plat, t.little, t.kind, t.size, mem, at)
        case None => None
        case Some(item) => Some(Reader(at + item.len, item.out))
  }

  /** A run of the loop of mem_unpack. */
  function Unpack(plat: Platform, prog: seq<Token>, mem: seq<byte>, pos: nat): (u: Option<Reader>)
    requires (forall t <- prog :: ValidToken(t)) && pos <= |mem| < TWO63
    ensures u.Some? ==> pos <= u.value.pos <= |mem|
  {
    if prog == [] then Some(Reader(pos, []))
    else match UnpackStep(plat, prog[0], mem, pos)
      case None => None
      case Some(u) => Then(u.out, Unpack(plat, prog[1..], mem, u.pos))
  }

  function Then(now: seq<Value>, later: Option<Reader>): Option<Reader> {
    match later
    case None => None
    case Some(u) => Some(Reader(u.pos, now + u.out))
  }
}
