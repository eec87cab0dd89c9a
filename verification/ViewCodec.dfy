/** MemoryView and its JSON forms (MemoryView.cpp). */
module ViewCodec {
  import opened Machine
  import opened IntCodec
  import opened JsonWire
  import JsonLaws

  /** The fields of a view: intent byte, owner address, serialised bulk handle and window. */
  datatype View = View(intent: byte, owner: Text, bulk: Text, offset: U64, size: U64)

  const SUBTYPE: U64 := 2388

  /** The buffer sizes fit in memory. */
  predicate Fits(v: View) {
    |v.owner| + |v.bulk| + 33 < TWO63
  }

  // ---------- The layout ----------

  function Encode(v: View): (r: seq<byte>)
    ensures |r| == 33 + |v.owner| + |v.bulk|
  {
    [v.intent] + Word(|v.owner|) + v.owner + Word(|v.bulk|) + v.bulk + Word(v.offset) + Word(v.size)
  }

  /** The constructor's reads; None where it would read past the end of the bytes. */
  function Decode(s: seq<byte>): Option<View> {
    if s == [] then None
    else match ReadText(s[1..])
      case None => None
      case Some((owner, p)) =>
        match ReadText(p)
        case None => None
        case Some((bulk, q)) =>
          match ReadWord(q)
          case None => None
          case Some((offset, r)) =>
            match ReadWord(r)
            case None => None
            case Some((size, _)) => Some(View(s[0], owner, bulk, offset, size))
  }

  lemma ReadOfText(t: Text, rest: seq<byte>)
    ensures ReadText(Word(|t|) + (t + rest)) == Some((t, rest))
  {
    hide Word, ReadText;
    JsonLaws.ReadOfText(t, rest);
    assert Word(|t|) + t + rest == Word(|t|) + (t + rest);
  }

  /** The bytes of a view decode to the view, whatever follows them. */
  lemma DecodeEncode(v: View, extra: seq<byte>)
    ensures Decode(Encode(v) + extra) == Some(v)
  {
    hide Word, ReadWord, ReadText;
    var r := Word(v.size) + extra;
    var q := Word(v.offset) + r;
    var p := Word(|v.bulk|) + (v.bulk + q);
    var o := Word(|v.owner|) + (v.owner + p);
    var s := Encode(v) + extra;
    Regroup(v, extra);
    assert s[0] == v.intent && s[1..] == o;
    ReadOfText(v.owner, p);
    ReadOfText(v.bulk, q);
    JsonLaws.ReadOfWord(v.offset, r);
    JsonLaws.ReadOfWord(v.size, extra);
  }

  lemma Regroup(v: View, extra: seq<byte>)
    ensures Encode(v) + extra
         == [v.intent] + (Word(|v.owner|) + (v.owner + (Word(|v.bulk|) + (v.bulk + (Word(v.offset) + (Word(v.size) + extra))))))
  {
    hide Word;
  }

  lemma WordOfRead(s: seq<byte>)
    requires ReadWord(s).Some?
    ensures var (n, rest) := ReadWord(s).value; s == Word(n) + rest
  {
    DigitsOfValue(s[..8]);
  }

  lemma TextOfRead(s: seq<byte>)
    requires ReadText(s).Some?
    ensures var (t, rest) := ReadText(s).value; s == Word(|t|) + (t + rest)
  {
    hide Word, ReadWord;
    WordOfRead(s);
    var (n, p) := ReadWord(s).value;
    assert p == p[..n] + p[n..];
  }

  /** Bytes that decode at all start with the encoding of what they decode to. */
  lemma EncodeDecode(s: seq<byte>)
    requires Decode(s).Some?
    ensures var v := Decode(s).value; |Encode(v)| <= |s| && s[..|Encode(v)|] == Encode(v)
  {
    hide Word, ReadWord, ReadText, Encode;
    var v := Decode(s).value;
    var o := s[1..];
    TextOfRead(o);
    var (owner, p) := ReadText(o).value;
    TextOfRead(p);
    var (bulk, q) := ReadText(p).value;
    WordOfRead(q);
    var (offset, r) := ReadWord(q).value;
    WordOfRead(r);
    var (size, extra) := ReadWord(r).value;
    Regroup(v, extra);
    assert s == [s[0]] + o;
    assert s == Encode(v) + extra;
  }

  /** Where everything is: intent in one byte, owner and bulk with their lengths in eight bytes before them, then offset and
      size in eight bytes each, numbers with the least significant byte first. */
  lemma LayoutIs(v: View)
    ensures var s, o, b := Encode(v), |v.owner|, |v.bulk|;
      && |s| == 33 + o + b && s[0] == v.intent
      && HoldsInt(s[1..9], o, true) && s[9..9 + o] == v.owner
      && HoldsInt(s[9 + o..17 + o], b, true) && s[17 + o..17 + o + b] == v.bulk
      && HoldsInt(s[17 + o + b..25 + o + b], v.offset, true) && HoldsInt(s[25 + o + b..], v.size, true)
  {
    hide HoldsInt, Digits;
    JsonLaws.WordHolds(|v.owner|);
    JsonLaws.WordHolds(|v.bulk|);
    JsonLaws.WordHolds(v.offset);
    JsonLaws.WordHolds(v.size);
    hide Word;
    var s, o, b := Encode(v), |v.owner|, |v.bulk|;
    assert s[1..9] == Word(o) && s[9..9 + o] == v.owner;
    assert s[9 + o..17 + o] == Word(b) && s[17 + o..17 + o + b] == v.bulk;
    assert s[17 + o + b..25 + o + b] == Word(v.offset) && s[25 + o + b..] == Word(v.size);
  }

  // ---------- JSON forms ----------

  const BYTES_KEY: Text := [98, 121, 116, 101, 115]                    // "bytes"
  const SUBTYPE_KEY: Text := [115, 117, 98, 116, 121, 112, 101]        // "subtype"

  function Find(fields: seq<Field>, key: Text): Option<Json> {
    if fields == [] then None
    else if fields[0].key == key then Some(fields[0].value)
    else Find(fields[1..], key)
  }

  /** get<int>() of an unsigned number keeps the low 32 bits. */
  function AsInt(u: U64): int {
    var low := u % 0x1_0000_0000;
    if low < 0x8000_0000 then low else low - 0x1_0000_0000
  }

  predicate IsByte(j: Json) {
    j.Unsigned? && j.u < 256
  }

  predicate IsMemoryView(j: Json) {
    match j
    case Binary(_, subtype) => subtype == Some(SUBTYPE)
    case Object(fields) =>
      var bytes, subtype := Find(fields, BYTES_KEY), Find(fields, SUBTYPE_KEY);
      && bytes.Some? && subtype.Some?
      && subtype.value.Unsigned? && AsInt(subtype.value.u) == SUBTYPE
      && bytes.value.Array? && (forall b <- bytes.value.elems :: IsByte(b))
    case _ => false
  }

  function ByteValues(elems: seq<Json>): (r: seq<byte>)
    requires forall b <- elems :: IsByte(b)
    ensures |r| == |elems| && forall i :: 0 <= i < |elems| ==> elems[i] == Unsigned(r[i])
  {
    if elems == [] then [] else assert IsByte(elems[0]); [elems[0].u] + ByteValues(elems[1..])
  }

  /** The bytes a recognised value carries. */
  function Payload(j: Json): seq<byte>
    requires IsMemoryView(j)
  {
    if j.Binary? then j.bytes else ByteValues(Find(j.fields, BYTES_KEY).value.elems)
  }

  /** toJson; a default-constructed view gives null. */
  function ToJson(v: Option<View>): Json
    requires v.Some? ==> Fits(v.value)
  {
    if v.None? then Null else Binary(Encode(v.value), Some(SUBTYPE))
  }

  /** What dumping a binary value to text and parsing it again gives. */
  function Dumped(bytes: Text, subtype: Option<U64>): Json {
    Object([Field(BYTES_KEY, Array(Numbers(bytes))),
            Field(SUBTYPE_KEY, if subtype.Some? then Unsigned(subtype.value) else Null)])
  }

  function Numbers(bytes: seq<byte>): (r: seq<Json>)
    ensures |r| == |bytes| && forall i :: 0 <= i < |bytes| ==> r[i] == Unsigned(bytes[i])
  {
    if bytes == [] then [] else [Unsigned(bytes[0])] + Numbers(bytes[1..])
  }

  lemma ByteValuesOfNumbers(bytes: seq<byte>)
    ensures (forall b <- Numbers(bytes) :: IsByte(b)) && ByteValues(Numbers(bytes)) == bytes
  {
  }

  lemma FindInDump(bytes: Text, subtype: Option<U64>)
    ensures var fields := Dumped(bytes, subtype).fields;
      Find(fields, BYTES_KEY) == Some(fields[0].value) && Find(fields, SUBTYPE_KEY) == Some(fields[1].value)
  {
    var fields := Dumped(bytes, subtype).fields;
    assert BYTES_KEY != SUBTYPE_KEY by { assert |BYTES_KEY| != |SUBTYPE_KEY|; }
    assert fields[1..] == [fields[1]];
  }

  /** The two forms are recognised alike except for subtypes that only agree with the code in their low 32 bits. */
  lemma DumpIsRecognised(bytes: Text, subtype: Option<U64>)
    ensures IsMemoryView(Dumped(bytes, subtype)) <==> subtype.Some? && subtype.value % 0x1_0000_0000 == SUBTYPE
    ensures (IsMemoryView(Dumped(bytes, subtype)) <==> IsMemoryView(Binary(bytes, subtype)))
       <==> !(subtype.Some? && subtype.value != SUBTYPE && subtype.value % 0x1_0000_0000 == SUBTYPE)
    ensures IsMemoryView(Dumped(bytes, subtype)) ==> Payload(Dumped(bytes, subtype)) == bytes
  {
    FindInDump(bytes, subtype);
    ByteValuesOfNumbers(bytes);
  }

  /** A subtype that is taken for a view's after a dump but not before. */
  lemma WideSubtypeIsMistaken()
    ensures IsMemoryView(Dumped([], Some(0x1_0000_0000 + SUBTYPE))) && !IsMemoryView(Binary([], Some(0x1_0000_0000 + SUBTYPE)))
  {
    DumpIsRecognised([], Some(0x1_0000_0000 + SUBTYPE));
  }

  // ---------- The window check ----------

  /** The offset and size a view is made with, or None when the constructor throws. */
  function Window(bulkSize: U64, offset: Option<U64>, size: Option<U64>): Option<(U64, U64)> {
    var o := if offset.Some? then offset.value else 0;
    var s := if size.Some? then size.value else bulkSize;
    if Wrap(o + s) > bulkSize then None else Some((o, s))
  }

  /** The constructor throws exactly when offset plus size, taken modulo 2^64, exceeds the size of the bulk; an absent offset
      is 0, an absent size the size of the whole bulk. */
  lemma WindowIs(bulkSize: U64, offset: U64, size: U64)
    ensures Window(bulkSize, Some(offset), Some(size))
         == if (offset + size) % 0x1_0000_0000_0000_0000 > bulkSize then None else Some((offset, size))
    ensures Window(bulkSize, None, Some(size)) == if size > bulkSize then None else Some((0, size))
    ensures Window(bulkSize, Some(offset), None)
         == if (offset + bulkSize) % 0x1_0000_0000_0000_0000 > bulkSize then None else Some((offset, bulkSize))
    ensures Window(bulkSize, None, None) == Some((0, bulkSize))
  {
  }

  /** An accepted window lies inside the bulk exactly when offset plus size does not wrap around. */
  lemma AcceptedWindow(bulkSize: U64, offset: Option<U64>, size: Option<U64>)
    requires Window(bulkSize, offset, size).Some?
    ensures var (o, s) := Window(bulkSize, offset, size).value; o + s <= bulkSize <==> o + s < TWO64
  {
    var (o, s) := Window(bulkSize, offset, size).value;
    assert o + s >= TWO64 ==> Wrap(o + s) == o + s - TWO64;
  }

  /** Every window inside the bulk is accepted; with no size given, that is only the whole bulk. */
  lemma InsideIsAccepted(bulkSize: U64, offset: U64, size: Option<U64>)
    ensures size.Some? && offset + size.value <= bulkSize ==> Window(bulkSize, Some(offset), size) == Some((offset, size.value))
    ensures Window(bulkSize, Some(offset), None).Some? <==> offset == 0 || offset + bulkSize >= TWO64
  {
    assert offset + bulkSize >= TWO64 ==> Wrap(offset + bulkSize) == offset + bulkSize - TWO64;
  }

  /** A window that starts far outside a 16-byte bulk is accepted. */
  lemma WrappingWindowIsAccepted()
    ensures Window(16, Some(NO_SUBTYPE), Some(1)) == Some((NO_SUBTYPE, 1))
  {
    assert Wrap(NO_SUBTYPE + 1) == 0;
  }

  // ---------- The JSON constructor ----------

  /** NotAView and BadWindow are exceptions; OutOfBounds stands for reading past the bytes. */
  datatype Built = Built(view: View) | NotAView | OutOfBounds | BadWindow

  /** The constructor from JSON; bulkSize gives the size of the memory behind a serialised bulk. */
  function FromJson(j: Json, bulkSize: Text -> U64): Built {
    if !IsMemoryView(j) then NotAView
    else match Decode(Payload(j))
      case None => OutOfBounds
      case Some(v) =>
        if Window(bulkSize(v.bulk), Some(v.offset), Some(v.size)).None? then BadWindow else Built(v)
  }

  /** What is recognised: a binary of subtype 2388, or an object with its bytes as numbers below 256 under "bytes" and, under
      "subtype", an unsigned number that is 2388 modulo 2^32. */
  lemma WhatIsAView(j: Json)
    ensures IsMemoryView(j) <==>
      || (j.Binary? && j.subtype == Some(2388))
      || (j.Object?
          && var bytes, subtype := Find(j.fields, Ascii("bytes")), Find(j.fields, Ascii("subtype"));
             && bytes.Some? && bytes.value.Array? && (forall b <- bytes.value.elems :: b.Unsigned? && b.u < 256)
             && subtype.Some? && subtype.value.Unsigned? && subtype.value.u % 0x1_0000_0000 == 2388)
  {
    hide Find;
    AsciiKeys();
    if j.Object? {
      var bytes := Find(j.fields, BYTES_KEY);
      assert bytes.Some? && bytes.value.Array? ==>
        ((forall b <- bytes.value.elems :: IsByte(b)) <==> (forall b <- bytes.value.elems :: b.Unsigned? && b.u < 256));
    }
  }

  function Ascii(s: string): (r: Text)
    requires |s| < TWO63 && forall i :: 0 <= i < |s| ==> s[i] as int < 128
    ensures |r| == |s|
  {
    seq(|s|, i requires 0 <= i < |s| => s[i] as int)
  }

  lemma AsciiKeys()
    ensures Ascii("bytes") == BYTES_KEY && Ascii("subtype") == SUBTYPE_KEY
  {
  }

  /** What the constructor makes of any JSON: an exception for what is no view, a view when its bytes hold one and its window
      is accepted, an exception when the window is not. */
  lemma FromJsonIs(j: Json, bulkSize: Text -> U64)
    ensures FromJson(j, bulkSize) == NotAView <==> !IsMemoryView(j)
    ensures IsMemoryView(j) ==> (FromJson(j, bulkSize) == OutOfBounds <==> Decode(Payload(j)).None?)
    ensures forall v :: FromJson(j, bulkSize) == Built(v) ==>
      IsMemoryView(j) && Decode(Payload(j)) == Some(v) && (v.offset + v.size) % 0x1_0000_0000_0000_0000 <= bulkSize(v.bulk)
    ensures FromJson(j, bulkSize) == BadWindow ==>
      && IsMemoryView(j) && Decode(Payload(j)).Some?
      && var v := Decode(Payload(j)).value; (v.offset + v.size) % 0x1_0000_0000_0000_0000 > bulkSize(v.bulk)
  {
    hide IsMemoryView, Decode, Payload;
  }

  /** A view whose window was accepted comes back whole from its JSON, and from the dump of it. */
  lemma ViewRoundTrip(v: View, bulkSize: Text -> U64)
    requires Fits(v) && Window(bulkSize(v.bulk), Some(v.offset), Some(v.size)).Some?
    ensures FromJson(ToJson(Some(v)), bulkSize) == Built(v)
    ensures ToJson(None) == Null && FromJson(Null, bulkSize) == NotAView
    ensures FromJson(Dumped(Encode(v), Some(SUBTYPE)), bulkSize) == Built(v)
  {
    hide Decode, Encode;
    DecodeEncode(v, []);
    assert Encode(v) + [] == Encode(v);
    DumpIsRecognised(Encode(v), Some(SUBTYPE));
  }

  // ---------- The C++ routines ----------

  /** memcpy of s to binary[off..], where done was written before; gives the cursor after it. */
  method CopyIn(binary: array<byte>, off: nat, s: seq<byte>, ghost done: seq<byte>) returns (next: nat)
    requires off + |s| <= binary.Length && binary[..off] == done
    modifies binary
    ensures next == off + |s| && binary[..next] == done + s
  {
    forall k | 0 <= k < |s| {
      binary[off + k] := s[k];
    }
    next := off + |s|;
  }

  /** The body of toJson: the buffer is sized first, then filled by a cursor, which ends at its end. */
  method Serialize(v: View) returns (binary: array<byte>, off: nat)
    requires Fits(v)
    ensures binary[..] == Encode(v) && off == binary.Length
  {
    hide Word;
    var binSize := 1 + |v.bulk| + 8 + |v.owner| + 8 + 8 + 8;
    binary := new byte[binSize](_ => 0);
    ghost var done := [v.intent];
    off := CopyIn(binary, 0, [v.intent], []);
    off := CopyIn(binary, off, Word(|v.owner|), done);
    done := done + Word(|v.owner|);
    off := CopyIn(binary, off, v.owner, done);
    done := done + v.owner;
    off := CopyIn(binary, off, Word(|v.bulk|), done);
    done := done + Word(|v.bulk|);
    off := CopyIn(binary, off, v.bulk, done);
    done := done + v.bulk;
    off := CopyIn(binary, off, Word(v.offset), done);
    done := done + Word(v.offset);
    off := CopyIn(binary, off, Word(v.size), done);
    assert binary[..] == binary[..off];
  }

  /** A size_t read at the cursor; None past the end. */
  method ReadSize(binary: seq<byte>, off: nat) returns (n: Option<U64>)
    requires off <= |binary|
    ensures match ReadWord(binary[off..])
      case None => n.None?
      case Some((m, rest)) => n == Some(m) && off + 8 <= |binary| && rest == binary[off + 8..]
  {
    if off + 8 > |binary| {
      return None;
    }
    assert binary[off..][..8] == binary[off..off + 8];
    assert binary[off..][8..] == binary[off + 8..];
    WordBound(binary[off..off + 8]);
    return Some(Value(binary[off..off + 8]));
  }

  /** A length-prefixed string read at the cursor. */
  method ReadString(binary: seq<byte>, off: nat) returns (r: Option<Text>, next: nat)
    requires off <= |binary|
    ensures match ReadText(binary[off..])
      case None => r.None?
      case Some((t, rest)) => r == Some(t) && next <= |binary| && rest == binary[next..]
  {
    hide ReadWord;
    var n := ReadSize(binary, off);
    next := off;
    if n.None? || off + 8 + n.value > |binary| {
      return None, next;
    }
    next := off + 8 + n.value;
    assert binary[off + 8..][..n.value] == binary[off + 8..next];
    assert binary[off + 8..][n.value..] == binary[next..];
    r := Some(binary[off + 8..next]);
  }

  /** The reads of the constructor from JSON, by a cursor over the bytes. */
  method Deserialize(binary: seq<byte>) returns (v: Option<View>)
    ensures v == Decode(binary)
  {
    hide ReadWord, ReadText;
    if |binary| < 1 {
      return None;
    }
    var off := 1;
    var owner, bulk;
    owner, off := ReadString(binary, off);
    if owner.None? {
      return None;
    }
    bulk, off := ReadString(binary, off);
    if bulk.None? {
      return None;
    }
    var offset := ReadSize(binary, off);
    if offset.None? {
      return None;
    }
    off := off + 8;
    var size := ReadSize(binary, off);
    if size.None? {
      return None;
    }
    return Some(View(binary[0], owner.value, bulk.value, offset.value, size.value));
  }
}
