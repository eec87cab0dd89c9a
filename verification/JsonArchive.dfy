/** saveJSON and loadJSON as they run: recursive routines over an archive that is appended to, or consumed. */
module JsonArchive {
  import opened Machine
  import opened IntCodec
  import opened JsonWire

  class OutputArchive {
    var bytes: seq<byte>

    constructor ()
      ensures bytes == []
    {
      bytes := [];
    }

    method Write(s: seq<byte>)
      modifies this
      ensures bytes == old(bytes) + s
    {
      bytes := bytes + s;
    }
  }

  class InputArchive {
    var rest: seq<byte>

    constructor (bytes: seq<byte>)
      ensures rest == bytes
    {
      rest := bytes;
    }

    method Read(n: nat) returns (r: Option<seq<byte>>)
      modifies this
      ensures if n <= |old(rest)| then r == Some(old(rest)[..n]) && rest == old(rest)[n..] else r.None? && rest == old(rest)
    {
      if n > |rest| {
        return None;
      }
      r := Some(rest[..n]);
      rest := rest[n..];
    }

    method GetWord() returns (r: Option<U64>)
      modifies this
      ensures match ReadWord(old(rest))
        case None => r.None? && rest == old(rest)
        case Some((n, after)) => r == Some(n) && rest == after
    {
      var w := Read(8);
      if w.None? {
        return None;
      }
      WordBound(w.value);
      return Some(Value(w.value));
    }

    method GetText() returns (r: Option<Text>)
      modifies this
      ensures match ReadText(old(rest))
        case None => r.None?
        case Some((t, after)) => r == Some(t) && rest == after
    {
      var n := GetWord();
      if n.None? {
        return None;
      }
      var t := Read(n.value);
      return if t.None? then None else Some(t.value);
    }
  }

  /** saveJSON; false stands for the exception. */
  method SaveJSON(ar: OutputArchive, val: Json) returns (ok: bool)
    modifies ar
    ensures ok == Save(val).ok && ar.bytes == old(ar.bytes) + Save(val).bytes
    decreases val, 1
  {
    hide Word, Digits;
    ghost var was := ar.bytes;
    ar.Write([Tag(val)]);
    ok := true;
    match val {
      case Null =>
      case Integer(n) => ar.Write(Word(n));
      case Unsigned(u) => ar.Write(Word(u));
      case Float(image) => ar.Write(image);
      case Str(s) => ar.Write(Word(|s|)); ar.Write(s);
      case Boolean(b) => ar.Write([if b then 1 else 0]);
      case Array(elems) =>
        ar.Write(Word(|elems|));
        ok := SaveArray(ar, elems);
      case Object(fields) =>
        ar.Write(Word(|fields|));
        ok := SaveObject(ar, fields);
      case Binary(bytes, subtype) =>
        ar.Write(Word(|bytes|));
        ar.Write(Word(SubtypeWord(subtype)));
        ar.Write(bytes);
      case Discarded => ok := false;
    }
    assert ar.bytes == was + Save(val).bytes;
  }

  method SaveArray(ar: OutputArchive, elems: seq<Json>) returns (ok: bool)
    modifies ar
    ensures ok == SaveElems(elems).ok && ar.bytes == old(ar.bytes) + SaveElems(elems).bytes
    decreases elems, 0
  {
    hide Save;
    ghost var was, written := ar.bytes, [];
    for i := 0 to |elems|
      invariant ar.bytes == was + written
      invariant SaveElems(elems) == Then(Put(written), SaveElems(elems[i..]))
    {
      ghost var now, later := Save(elems[i]), SaveElems(elems[i + 1..]);
      assert elems[i..][1..] == elems[i + 1..];
      ThenThen(written, now, later);
      ok := SaveJSON(ar, elems[i]);
      assert ar.bytes == was + (written + now.bytes);
      written := written + now.bytes;
      if !ok {
        return;
      }
    }
    assert SaveElems(elems[|elems|..]) == Put([]);
    assert written + [] == written;
    ok := true;
  }

  lemma ThenThen(written: seq<byte>, now: Emission, later: Emission)
    ensures Then(Put(written), Then(now, later))
         == if now.ok then Then(Put(written + now.bytes), later) else Emission(written + now.bytes, false)
  {
    assert written + (now.bytes + later.bytes) == written + now.bytes + later.bytes;
  }

  lemma Regroup(was: seq<byte>, written: seq<byte>, a: seq<byte>, b: seq<byte>, c: seq<byte>)
    ensures was + written + a + b + c == was + (written + ((a + b) + c))
  {
  }

  method SaveObject(ar: OutputArchive, fields: seq<Field>) returns (ok: bool)
    modifies ar
    ensures ok == SaveFields(fields).ok && ar.bytes == old(ar.bytes) + SaveFields(fields).bytes
    decreases fields, 0
  {
    hide Save, Word;
    ghost var was, written := ar.bytes, [];
    for i := 0 to |fields|
      invariant ar.bytes == was + written
      invariant SaveFields(fields) == Then(Put(written), SaveFields(fields[i..]))
    {
      ghost var key := Word(|fields[i].key|) + fields[i].key;
      ghost var now, later := Then(Put(key), Save(fields[i].value)), SaveFields(fields[i + 1..]);
      assert fields[i..][1..] == fields[i + 1..];
      ThenThen(written, now, later);
      ar.Write(Word(|fields[i].key|));
      ar.Write(fields[i].key);
      ok := SaveJSON(ar, fields[i].value);
      Regroup(was, written, Word(|fields[i].key|), fields[i].key, Save(fields[i].value).bytes);
      written := written + now.bytes;
      if !ok {
        return;
      }
    }
    assert SaveFields(fields[|fields|..]) == Put([]);
    assert written + [] == written;
    ok := true;
  }

  /** loadJSON into a target; None stands for the exception. */
  method LoadJSON(ar: InputArchive, target: Json) returns (val: Option<Json>)
    modifies ar
    ensures match Load(target, old(ar.rest))
      case None => val.None?
      case Some((v, after)) => val == Some(v) && ar.rest == after
    decreases |ar.rest|, 1
  {
    hide ReadWord, ReadText, LoadElems, LoadFields;
    var t := ar.Read(1);
    if t.None? {
      return None;
    }
    if t.value[0] == 0 {
      return Some(target);
    } else if t.value[0] == 1 {
      var s := ar.GetWord();
      if s.None? {
        return None;
      }
      val := LoadObject(ar, s.value);
    } else if t.value[0] == 2 {
      var s := ar.GetWord();
      if s.None? {
        return None;
      }
      val := LoadArray(ar, s.value);
    } else {
      val := LoadSimple(ar, t.value[0]);
    }
  }

  method LoadSimple(ar: InputArchive, t: byte) returns (val: Option<Json>)
    requires t > 2
    modifies ar
    ensures match LoadScalar(t, old(ar.rest))
      case None => val.None?
      case Some((v, after)) => val == Some(v) && ar.rest == after
  {
    hide ReadWord, ReadText;
    if t == 3 {
      var s := ar.GetText();
      val := if s.None? then None else Some(Str(s.value));
    } else if t == 4 {
      var b := ar.Read(1);
      val := if b.None? then None else Some(Boolean(b.value[0] != 0));
    } else if t == 5 {
      var n := ar.GetWord();
      val := if n.None? then None else Some(Integer(ToSigned(n.value)));
    } else if t == 6 {
      var n := ar.GetWord();
      val := if n.None? then None else Some(Unsigned(n.value));
    } else if t == 7 {
      var x := ar.Read(8);
      val := if x.None? then None else Some(Float(x.value));
    } else if t == 8 {
      var s := ar.GetWord();
      if s.None? {
        return None;
      }
      var st := ar.GetWord();
      if st.None? {
        return None;
      }
      var v := ar.Read(s.value);
      val := if v.None? then None else Some(Binary(v.value, Some(st.value)));
    } else {
      val := None;
    }
  }

  method LoadArray(ar: InputArchive, s: U64) returns (val: Option<Json>)
    modifies ar
    ensures match LoadElems(old(ar.rest), s)
      case None => val.None?
      case Some((vs, after)) => val == Some(Array(vs)) && ar.rest == after
    decreases |ar.rest|, 2
  {
    hide Load;
    var elems: seq<Json> := [];
    ghost var start := ar.rest;
    PrependNothing(LoadElems(start, s));
    for i := 0 to s
      invariant |ar.rest| <= |start|
      invariant LoadElems(start, s) == Prepend(elems, LoadElems(ar.rest, s - i))
    {
      ghost var before := ar.rest;
      var w := LoadJSON(ar, Null);
      if w.None? {
        return None;
      }
      PrependOne(elems, w.value, LoadElems(ar.rest, s - i - 1));
      elems := elems + [w.value];
    }
    assert elems + [] == elems;
    return Some(Array(elems));
  }

  ghost function Prepend(elems: seq<Json>, r: Parsed<seq<Json>>): Parsed<seq<Json>> {
    match r
    case None => None
    case Some((vs, rest)) => Some((elems + vs, rest))
  }

  lemma PrependNothing(r: Parsed<seq<Json>>)
    ensures Prepend([], r) == r
  {
    assert r.Some? ==> [] + r.value.0 == r.value.0;
  }

  lemma PrependOne(elems: seq<Json>, v: Json, r: Parsed<seq<Json>>)
    ensures Prepend(elems, Prepend([v], r)) == Prepend(elems + [v], r)
  {
    assert r.Some? ==> elems + ([v] + r.value.0) == elems + [v] + r.value.0;
  }

  method LoadObject(ar: InputArchive, s: U64) returns (val: Option<Json>)
    modifies ar
    ensures match LoadFields([], old(ar.rest), s)
      case None => val.None?
      case Some((fields, after)) => val == Some(Object(fields)) && ar.rest == after
    decreases |ar.rest|, 2
  {
    hide Load, ReadText, Emplace;
    var fields: seq<Field> := [];
    ghost var start := ar.rest;
    for i := 0 to s
      invariant |ar.rest| <= |start|
      invariant LoadFields([], start, s) == LoadFields(fields, ar.rest, s - i)
    {
      var key := ar.GetText();
      if key.None? {
        return None;
      }
      var w := LoadJSON(ar, Null);
      if w.None? {
        return None;
      }
      fields := Emplace(fields, Field(key.value, w.value));
    }
    return Some(Object(fields));
  }
}
