/** JSON values and their wire format (saveJSON and loadJSON in JsonSerialize.hpp). */
module JsonWire {
  import opened Machine
  import opened IntCodec
  import Compare

  type Text = s: seq<byte> | |s| < 0x1_0000_0000_0000_0000
  type Image = s: seq<byte> | |s| == 8 witness [0, 0, 0, 0, 0, 0, 0, 0]

  /** A value of nlohmann::json; the fields of an object are in key order, a float is its byte image. */
  datatype Json =
    | Null
    | Object(fields: seq<Field>)
    | Array(elems: seq<Json>)
    | Str(s: Text)
    | Boolean(b: bool)
    | Integer(n: S64)
    | Unsigned(u: U64)
    | Float(image: Image)
    | Binary(bytes: Text, subtype: Option<U64>)
    | Discarded

  datatype Field = Field(key: Text, value: Json)

  /** The order of std::map<std::string, ...>. */
  predicate Before(a: Text, b: Text) {
    Compare.Less(a, b, false)
  }

  predicate Sorted(fields: seq<Field>) {
    forall i, j :: 0 <= i < j < |fields| ==> Before(fields[i].key, fields[j].key)
  }

  /** What the library keeps true of every value: keys are sorted and distinct, sizes fit in a size_t. */
  predicate Valid(v: Json)
    decreases v
  {
    match v
    case Object(fields) => |fields| < TWO64 && Sorted(fields) && forall f <- fields :: Valid(f.value)
    case Array(elems) => |elems| < TWO64 && forall e <- elems :: Valid(e)
    case _ => true
  }

  /** No value inside v is the "discarded" one that the parser callbacks of the library make. */
  predicate Complete(v: Json)
    decreases v
  {
    match v
    case Object(fields) => forall f <- fields :: Complete(f.value)
    case Array(elems) => forall e <- elems :: Complete(e)
    case Discarded => false
    case _ => true
  }

  /** Every binary value inside v carries a subtype. */
  predicate Tagged(v: Json)
    decreases v
  {
    match v
    case Object(fields) => forall f <- fields :: Tagged(f.value)
    case Array(elems) => forall e <- elems :: Tagged(e)
    case Binary(_, subtype) => subtype.Some?
    case _ => true
  }

  const NO_SUBTYPE: U64 := 0xFFFF_FFFF_FFFF_FFFF

  // ---------- Writing ----------

  function Tag(v: Json): byte {
    match v
    case Null => 0
    case Object(_) => 1
    case Array(_) => 2
    case Str(_) => 3
    case Boolean(_) => 4
    case Integer(_) => 5
    case Unsigned(_) => 6
    case Float(_) => 7
    case Binary(_, _) => 8
    case Discarded => 9
  }

  /** The eight bytes of a machine word. */
  function Word(n: int): (r: seq<byte>)
    ensures |r| == 8
  {
    Digits(n, 8)
  }

  /** What is written, and whether it ended without an exception. */
  datatype Emission = Emission(bytes: seq<byte>, ok: bool)

  function Then(a: Emission, b: Emission): Emission {
    if a.ok then Emission(a.bytes + b.bytes, b.ok) else a
  }

  function Put(s: seq<byte>): Emission {
    Emission(s, true)
  }

  function SubtypeWord(subtype: Option<U64>): U64 {
    if subtype.Some? then subtype.value else NO_SUBTYPE
  }

  function Save(v: Json): Emission
    decreases v, 1
  {
    Then(Put([Tag(v)]), SavePayload(v))
  }

  function SavePayload(v: Json): Emission
    decreases v, 0
  {
    match v
    case Null => Put([])
    case Object(fields) => Then(Put(Word(|fields|)), SaveFields(fields))
    case Array(elems) => Then(Put(Word(|elems|)), SaveElems(elems))
    case Str(s) => Put(Word(|s|) + s)
    case Boolean(b) => Put([if b then 1 else 0])
    case Integer(n) => Put(Word(n))
    case Unsigned(u) => Put(Word(u))
    case Float(image) => Put(image)
    case Binary(bytes, subtype) => Put(Word(|bytes|) + Word(SubtypeWord(subtype)) + bytes)
    case Discarded => Emission([], false)
  }

  function SaveElems(elems: seq<Json>): Emission
    decreases elems, 0
  {
    if elems == [] then Put([]) else Then(Save(elems[0]), SaveElems(elems[1..]))
  }

  function SaveFields(fields: seq<Field>): Emission
    decreases fields, 0
  {
    if fields == [] then Put([])
    else
      var f := fields[0];
      Then(Then(Put(Word(|f.key|) + f.key), Save(f.value)), SaveFields(fields[1..]))
  }

  // ---------- Reading ----------

  /** A value and the bytes left; None for an exception. */
  type Parsed<T> = Option<(T, seq<byte>)>

  function ReadWord(s: seq<byte>): (r: Parsed<U64>)
    ensures r.Some? ==> |r.value.1| + 8 == |s|
  {
    if |s| < 8 then None
    else
      WordBound(s[..8]);
      Some((Value(s[..8]), s[8..]))
  }

  lemma WordBound(w: seq<byte>)
    requires |w| == 8
    ensures Value(w) < TWO64
  {
    DigitsOfValue(w);
    Pow256Word();
  }

  function ReadText(s: seq<byte>): (r: Parsed<Text>)
    ensures r.Some? ==> |r.value.1| < |s|
  {
    match ReadWord(s)
    case None => None
    case Some((n, rest)) => if n > |rest| then None else Some((rest[..n], rest[n..]))
  }

  /** map::emplace: a key that is already there keeps its value. */
  function Emplace(fields: seq<Field>, f: Field): seq<Field> {
    if fields == [] then [f]
    else if fields[0].key == f.key then fields
    else if Before(f.key, fields[0].key) then [f] + fields
    else [fields[0]] + Emplace(fields[1..], f)
  }

  /** loadJSON into a target that holds the given value. */
  function Load(target: Json, s: seq<byte>): (r: Parsed<Json>)
    ensures r.Some? ==> |r.value.1| < |s|
    decreases |s|, 0
  {
    if s == [] then None
    else
      var t, p := s[0], s[1..];
      if t == 0 then Some((target, p))
      else if t == 1 then
        (match ReadWord(p)
         case None => None
         case Some((n, q)) =>
           match LoadFields([], q, n)
           case None => None
           case Some((fields, rest)) => Some((Object(fields), rest)))
      else if t == 2 then
        (match ReadWord(p)
         case None => None
         case Some((n, q)) =>
           match LoadElems(q, n)
           case None => None
           case Some((elems, rest)) => Some((Array(elems), rest)))
      else LoadScalar(t, p)
  }

  function LoadScalar(t: byte, p: seq<byte>): (r: Parsed<Json>)
    ensures r.Some? ==> |r.value.1| <= |p|
  {
    if t == 3 then (match ReadText(p) case None => None case Some((s, rest)) => Some((Str(s), rest)))
    else if t == 4 then (if p == [] then None else Some((Boolean(p[0] != 0), p[1..])))
    else if t == 5 then (match ReadWord(p) case None => None case Some((n, rest)) => Some((Integer(ToSigned(n)), rest)))
    else if t == 6 then (match ReadWord(p) case None => None case Some((n, rest)) => Some((Unsigned(n), rest)))
    else if t == 7 then (if |p| < 8 then None else Some((Float(p[..8]), p[8..])))
    else if t == 8 then
      (match ReadWord(p)
       case None => None
       case Some((n, q)) =>
         match ReadWord(q)
         case None => None
         case Some((st, rest)) => if n > |rest| then None else Some((Binary(rest[..n], Some(st)), rest[n..])))
    else None
  }

  /** n values, each loaded into a fresh (null) wrapper. */
  function LoadElems(s: seq<byte>, n: nat): (r: Parsed<seq<Json>>)
    ensures r.Some? ==> |r.value.1| <= |s|
    decreases |s|, 1, n
  {
    if n == 0 then Some(([], s))
    else match Load(Null, s)
      case None => None
      case Some((v, rest)) =>
        match LoadElems(rest, n - 1)
        case None => None
        case Some((vs, rest')) => Some(([v] + vs, rest'))
  }

  /** n fields, emplaced one after the other. */
  function LoadFields(fields: seq<Field>, s: seq<byte>, n: nat): (r: Parsed<seq<Field>>)
    ensures r.Some? ==> |r.value.1| <= |s|
    decreases |s|, 1, n
  {
    if n == 0 then Some((fields, s))
    else match ReadText(s)
      case None => None
      case Some((key, q)) =>
        match Load(Null, q)
        case None => None
        case Some((v, rest)) => LoadFields(Emplace(fields, Field(key, v)), rest, n - 1)
  }
}
