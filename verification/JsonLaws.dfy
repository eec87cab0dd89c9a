/** Reading undoes writing, for every JSON value and whatever follows it on the wire. */
module JsonLaws {
  import opened Machine
  import opened IntCodec
  import opened JsonWire
  import Compare

  // ---------- What comes back ----------

  /** The value a reader ends up with: a binary without a subtype comes back with the all-ones one. */
  function Normal(v: Json): Json
    decreases v, 0
  {
    match v
    case Object(fields) => Object(NormalFields(fields))
    case Array(elems) => Array(NormalElems(elems))
    case Binary(bytes, subtype) => Binary(bytes, Some(SubtypeWord(subtype)))
    case _ => v
  }

  function NormalElems(elems: seq<Json>): (r: seq<Json>)
    ensures |r| == |elems|
    ensures forall i :: 0 <= i < |elems| ==> r[i] == Normal(elems[i])
    decreases elems, 1
  {
    if elems == [] then [] else [Normal(elems[0])] + NormalElems(elems[1..])
  }

  function NormalFields(fields: seq<Field>): (r: seq<Field>)
    ensures |r| == |fields|
    ensures forall i :: 0 <= i < |fields| ==> r[i] == Field(fields[i].key, Normal(fields[i].value))
    decreases fields, 1
  {
    if fields == [] then [] else [Field(fields[0].key, Normal(fields[0].value))] + NormalFields(fields[1..])
  }

  /** Nothing is lost exactly when every binary carries a subtype. */
  lemma {:induction false} NormalIffTagged(v: Json)
    ensures Normal(v) == v <==> Tagged(v)
    decreases v
  {
    match v {
      case Object(fields) =>
        forall i | 0 <= i < |fields| ensures Normal(fields[i].value) == fields[i].value <==> Tagged(fields[i].value) {
          NormalIffTagged(fields[i].value);
        }
        var r := NormalFields(fields);
        assert (forall f <- fields :: Tagged(f.value)) <==> (forall i :: 0 <= i < |fields| ==> Tagged(fields[i].value));
        assert r == fields <==> forall i :: 0 <= i < |fields| ==> r[i] == fields[i];
      case Array(elems) =>
        forall i | 0 <= i < |elems| ensures Normal(elems[i]) == elems[i] <==> Tagged(elems[i]) {
          NormalIffTagged(elems[i]);
        }
        var r := NormalElems(elems);
        assert (forall e <- elems :: Tagged(e)) <==> (forall i :: 0 <= i < |elems| ==> Tagged(elems[i]));
        assert r == elems <==> forall i :: 0 <= i < |elems| ==> r[i] == elems[i];
      case _ =>
    }
  }

  // ---------- Writing throws exactly on a discarded value ----------

  lemma {:induction false} SaveThrows(v: Json)
    ensures Save(v).ok <==> Complete(v)
    decreases v, 0
  {
    match v {
      case Object(fields) => SaveFieldsThrows(fields);
      case Array(elems) => SaveElemsThrows(elems);
      case _ =>
    }
  }

  lemma {:induction false} SaveElemsThrows(elems: seq<Json>)
    ensures SaveElems(elems).ok <==> forall e <- elems :: Complete(e)
    decreases elems, 1
  {
    if elems != [] {
      SaveThrows(elems[0]);
      SaveElemsThrows(elems[1..]);
      assert elems == [elems[0]] + elems[1..];
    }
  }

  lemma {:induction false} SaveFieldsThrows(fields: seq<Field>)
    ensures SaveFields(fields).ok <==> forall f <- fields :: Complete(f.value)
    decreases fields, 1
  {
    if fields != [] {
      SaveThrows(fields[0].value);
      SaveFieldsThrows(fields[1..]);
      assert fields == [fields[0]] + fields[1..];
    }
  }

  // ---------- Scalars ----------

  lemma ReadOfWord(n: int, rest: seq<byte>)
    requires -TWO63 <= n < TWO64
    ensures ReadWord(Word(n) + rest) == Some((Wrap(n), rest))
  {
    var s := Word(n) + rest;
    assert s[..8] == Word(n) && s[8..] == rest;
    ValueOfDigits(n, 8);
    Pow256Word();
  }

  lemma ReadOfText(t: Text, rest: seq<byte>)
    ensures ReadText(Word(|t|) + t + rest) == Some((t, rest))
  {
    hide Word, ReadWord;
    assert Word(|t|) + t + rest == Word(|t|) + (t + rest);
    ReadOfWord(|t|, t + rest);
    assert (t + rest)[..|t|] == t && (t + rest)[|t|..] == rest;
  }

  lemma ReadOfBinary(bytes: Text, subtype: Option<U64>, rest: seq<byte>)
    ensures LoadScalar(8, Word(|bytes|) + Word(SubtypeWord(subtype)) + bytes + rest)
         == Some((Binary(bytes, Some(SubtypeWord(subtype))), rest))
  {
    hide Word, ReadWord, ReadText;
    var st := SubtypeWord(subtype);
    var tail := bytes + rest;
    assert Word(|bytes|) + Word(st) + bytes + rest == Word(|bytes|) + (Word(st) + tail);
    ReadOfWord(|bytes|, Word(st) + tail);
    ReadOfWord(st, tail);
    assert tail[..|bytes|] == bytes && tail[|bytes|..] == rest;
  }

  // ---------- The bytes on the wire ----------

  lemma WordHolds(n: int)
    ensures HoldsInt(Word(n), n, true)
  {
    DigitsHold(n, 8, true);
  }

  /** The bytes s begin with eight bytes that hold n, the least significant first, and then comes rest. */
  ghost predicate Counts(s: seq<byte>, n: int, rest: seq<byte>) {
    |s| == 8 + |rest| && HoldsInt(s[..8], n, true) && s[8..] == rest
  }

  lemma WordCounts(n: int, rest: seq<byte>)
    ensures Counts(Word(n) + rest, n, rest)
  {
    WordHolds(n);
    assert (Word(n) + rest)[..8] == Word(n) && (Word(n) + rest)[8..] == rest;
  }

  /** One tag byte, then what the kind asks for: counts and integers in eight bytes, a boolean in one, texts and binaries
      after their length, a binary after its subtype too (2^64 - 1 for none). */
  lemma WireFormat(v: Json)
    ensures var s := Save(v).bytes;
      |s| > 0 && var p := s[1..];
      match v
      case Null => s == [0]
      case Object(fields) => s[0] == 1 && Counts(p, |fields|, SaveFields(fields).bytes)
      case Array(elems) => s[0] == 2 && Counts(p, |elems|, SaveElems(elems).bytes)
      case Str(t) => s[0] == 3 && Counts(p, |t|, t)
      case Boolean(b) => s == [4, if b then 1 else 0]
      case Integer(n) => s[0] == 5 && Counts(p, n, [])
      case Unsigned(u) => s[0] == 6 && Counts(p, u, [])
      case Float(image) => s[0] == 7 && p == image
      case Binary(bytes, subtype) =>
        && s[0] == 8 && |p| >= 8
        && Counts(p, |bytes|, p[8..])
        && Counts(p[8..], if subtype.Some? then subtype.value else 0xFFFF_FFFF_FFFF_FFFF, bytes)
      case Discarded => s == [9]
  {
    hide Word, Counts, HoldsInt;
    var s := Save(v).bytes;
    assert s == [Tag(v)] + SavePayload(v).bytes;
    assert s[1..] == SavePayload(v).bytes;
    match v {
      case Object(fields) => WordCounts(|fields|, SaveFields(fields).bytes);
      case Array(elems) => WordCounts(|elems|, SaveElems(elems).bytes);
      case Str(t) => WordCounts(|t|, t);
      case Integer(n) => WordCounts(n, []); assert Word(n) + [] == Word(n);
      case Unsigned(u) => WordCounts(u, []); assert Word(u) + [] == Word(u);
      case Binary(bytes, subtype) =>
        var q := Word(SubtypeWord(subtype)) + bytes;
        WordCounts(SubtypeWord(subtype), bytes);
        WordCounts(|bytes|, q);
        assert s[1..] == Word(|bytes|) + q;
        assert s[1..][8..] == q;
      case _ =>
    }
  }

  /** Elements follow one another. */
  lemma WireElems(elems: seq<Json>)
    requires Complete(Array(elems))
    ensures SaveElems(elems).bytes
         == if elems == [] then [] else Save(elems[0]).bytes + SaveElems(elems[1..]).bytes
  {
    if elems != [] {
      SaveThrows(elems[0]);
    }
  }

  /** So do fields, each as its key, a text with its length before it, and its value. */
  lemma WireFields(fields: seq<Field>)
    requires Complete(Object(fields))
    ensures var s := SaveFields(fields).bytes;
      if fields == [] then s == []
      else
        var f := fields[0];
        |s| >= 8 && Counts(s, |f.key|, s[8..]) && s[8..] == f.key + Save(f.value).bytes + SaveFields(fields[1..]).bytes
  {
    if fields != [] {
      var f := fields[0];
      SaveThrows(f.value);
      FieldsBytes(fields, []);
      hide SaveFields, Save, Word, Counts, Complete;
      var v, later := Save(f.value).bytes, SaveFields(fields[1..]).bytes;
      FieldParts(Word(|f.key|), f.key, v, later, SaveFields(fields).bytes);
      WordCounts(|f.key|, f.key + v + later);
    }
  }

  lemma FieldParts(w: seq<byte>, k: seq<byte>, v: seq<byte>, later: seq<byte>, s: seq<byte>)
    requires |w| == 8 && s + [] == w + k + (v + (later + []))
    ensures s == w + (k + v + later) && |s| >= 8 && s[8..] == k + v + later
  {
    assert s + [] == s && later + [] == later;
    assert w + k + (v + later) == w + (k + v + later);
  }

  // ---------- Object keys ----------

  lemma KeysAreOrdered(a: Text, b: Text)
    ensures Before(a, b) ==> a != b && !Before(b, a)
  {
    Compare.LessIsTrichotomous(a, b, false);
  }

  /** Keys are compared byte by byte as numbers from 0 to 255; a key comes before its extensions. */
  lemma KeysCompareAsBytes(a: Text, b: Text, i: nat)
    requires Compare.CommonPrefix(a, b, i)
    ensures Before(a, b) <==> i < |b| && (i == |a| || a[i] < b[i])
  {
    Compare.LessIs(a, b, i, false);
  }

  /** Emplacing adds the field exactly when its key is new, and takes nothing away. */
  lemma {:induction false} EmplaceAdds(fields: seq<Field>, f: Field, g: Field)
    requires Sorted(fields)
    ensures g in Emplace(fields, f) <==> g in fields || (g == f && forall h <- fields :: h.key != f.key)
  {
    if fields != [] {
      assert fields == [fields[0]] + fields[1..];
      if fields[0].key != f.key {
        hide Sorted, Before, Emplace;
        EmplaceUnfolds(fields, f);
        SortedTail(fields);
        if Before(f.key, fields[0].key) {
          NewKey(fields, f);
        } else {
          EmplaceAdds(fields[1..], f, g);
        }
      }
    }
  }

  lemma EmplaceUnfolds(fields: seq<Field>, f: Field)
    requires fields != [] && fields[0].key != f.key
    ensures Emplace(fields, f) == if Before(f.key, fields[0].key) then [f] + fields else [fields[0]] + Emplace(fields[1..], f)
  {
  }

  /** A key before the first is none of a sorted object's. */
  lemma NewKey(fields: seq<Field>, f: Field)
    requires fields != [] && Sorted(fields) && Before(f.key, fields[0].key)
    ensures forall h <- fields :: h.key != f.key
  {
    SortedTail(fields);
    hide Before;
    forall h | h in fields
      ensures h.key != f.key
    {
      assert h == fields[0] || h in fields[1..];
      if h in fields[1..] {
        BeforeIsTransitive(f.key, fields[0].key, h.key);
      }
      KeysAreOrdered(f.key, h.key);
    }
  }

  /** Keys that arrive in order are appended. */
  lemma {:induction false} EmplaceLast(fields: seq<Field>, f: Field)
    requires forall g <- fields :: Before(g.key, f.key)
    ensures Emplace(fields, f) == fields + [f]
  {
    if fields != [] {
      KeysAreOrdered(fields[0].key, f.key);
      EmplaceLast(fields[1..], f);
    }
  }

  // ---------- Whole values ----------

  /** Whatever follows a saved value, loading it gives the value and leaves exactly what follows; a null leaves the
      target as it was. */
  lemma {:induction false} LoadAfterSave(v: Json, target: Json, rest: seq<byte>)
    requires Valid(v) && Complete(v)
    ensures Load(target, Save(v).bytes + rest) == Some((if v.Null? then target else Normal(v), rest))
    decreases v, 0
  {
    hide Word, ReadWord, ReadText, LoadScalar, SaveElems, SaveFields, LoadElems, LoadFields, NormalElems, NormalFields;
    SaveThrows(v);
    var p := SavePayload(v).bytes + rest;
    var s := Save(v).bytes + rest;
    assert Save(v).bytes == [Tag(v)] + SavePayload(v).bytes;
    assert s[0] == Tag(v) && s[1..] == p;
    match v {
      case Null => assert [] + rest == rest;
      case Object(fields) =>
        SaveFieldsThrows(fields);
        var q := SaveFields(fields).bytes + rest;
        assert p == Word(|fields|) + q;
        ReadOfWord(|fields|, q);
        LoadFieldsAfterSave([], fields, rest);
        assert [] + NormalFields(fields) == NormalFields(fields);
      case Array(elems) =>
        SaveElemsThrows(elems);
        var q := SaveElems(elems).bytes + rest;
        assert p == Word(|elems|) + q;
        ReadOfWord(|elems|, q);
        LoadElemsAfterSave(elems, rest);
      case _ => ScalarAfterSave(v, rest);
    }
  }

  lemma ScalarAfterSave(v: Json, rest: seq<byte>)
    requires Complete(v) && !v.Null? && !v.Object? && !v.Array?
    ensures LoadScalar(Tag(v), SavePayload(v).bytes + rest) == Some((Normal(v), rest))
  {
    hide Word, ReadWord, ReadText;
    var p := SavePayload(v).bytes + rest;
    match v {
      case Str(t) => ReadOfText(t, rest);
      case Boolean(_) => assert p[1..] == rest;
      case Integer(n) => ReadOfWord(n, rest);
      case Unsigned(u) => ReadOfWord(u, rest);
      case Float(image) => assert p[..8] == image && p[8..] == rest;
      case Binary(bytes, subtype) => ReadOfBinary(bytes, subtype, rest);
    }
  }

  lemma {:induction false} LoadElemsAfterSave(elems: seq<Json>, rest: seq<byte>)
    requires forall e <- elems :: Valid(e) && Complete(e)
    ensures LoadElems(SaveElems(elems).bytes + rest, |elems|) == Some((NormalElems(elems), rest))
    decreases elems, 1
  {
    if elems == [] {
      assert [] + rest == rest;
    } else {
      SaveThrows(elems[0]);
      NormalNull();
      LoadAfterSave(elems[0], Null, SaveElems(elems[1..]).bytes + rest);
      LoadElemsAfterSave(elems[1..], rest);
      hide Save, Load, Normal, Valid, Complete, SaveElems, LoadElems, NormalElems;
      NextElem(elems, rest);
    }
  }

  /** Reading one element of a saved array puts it before the elements read later. */
  lemma NextElem(elems: seq<Json>, rest: seq<byte>)
    requires elems != [] && Save(elems[0]).ok
    requires var later := SaveElems(elems[1..]).bytes + rest;
      && Load(Null, Save(elems[0]).bytes + later) == Some((Normal(elems[0]), later))
      && LoadElems(later, |elems| - 1) == Some((NormalElems(elems[1..]), rest))
    ensures LoadElems(SaveElems(elems).bytes + rest, |elems|) == Some((NormalElems(elems), rest))
  {
    hide Save, Load, Normal;
    var later := SaveElems(elems[1..]).bytes + rest;
    assert SaveElems(elems).bytes + rest == Save(elems[0]).bytes + later;
    assert NormalElems(elems) == [Normal(elems[0])] + NormalElems(elems[1..]);
  }

  lemma {:induction false} LoadFieldsAfterSave(done: seq<Field>, fields: seq<Field>, rest: seq<byte>)
    requires Sorted(done + fields) && forall f <- fields :: Valid(f.value) && Complete(f.value)
    ensures LoadFields(done, SaveFields(fields).bytes + rest, |fields|) == Some((done + NormalFields(fields), rest))
    decreases fields, 1
  {
    if fields == [] {
      assert [] + rest == rest && done + [] == done;
    } else {
      hide Sorted, SaveFields, LoadFields;
      var g := Field(fields[0].key, Normal(fields[0].value));
      var later := SaveFields(fields[1..]).bytes + rest;
      LoadAfterSave(fields[0].value, Null, later);
      SaveThrows(fields[0].value);
      NextField(done, fields, rest, g);
      LoadFieldsAfterSave(done + [g], fields[1..], rest);
      NormalAppend(done, fields, g);
    }
  }

  /** Reading one field of a saved object appends it to the fields read so far. */
  lemma NextField(done: seq<Field>, fields: seq<Field>, rest: seq<byte>, g: Field)
    requires fields != [] && Sorted(done + fields) && Save(fields[0].value).ok
    requires g == Field(fields[0].key, Normal(fields[0].value))
    requires var later := SaveFields(fields[1..]).bytes + rest;
      Load(Null, Save(fields[0].value).bytes + later) == Some((if fields[0].value.Null? then Null else g.value, later))
    ensures LoadFields(done, SaveFields(fields).bytes + rest, |fields|)
         == LoadFields(done + [g], SaveFields(fields[1..]).bytes + rest, |fields| - 1)
    ensures Sorted(done + [g] + fields[1..])
  {
    var later := SaveFields(fields[1..]).bytes + rest;
    var q := Save(fields[0].value).bytes + later;
    NormalNull();
    FieldsBytes(fields, rest);
    hide Word, ReadText, Load, Save, Emplace, Sorted, Normal, Before, SaveFields, LoadFields;
    ReadOfText(g.key, q);
    FirstField(done, SaveFields(fields).bytes + rest, |fields|, g, q, later);
    KeysBefore(done, fields);
    EmplaceLast(done, g);
    SortedAgain(done, fields, g);
  }

  lemma NormalAppend(done: seq<Field>, fields: seq<Field>, g: Field)
    requires fields != [] && g == Field(fields[0].key, Normal(fields[0].value))
    ensures done + [g] + NormalFields(fields[1..]) == done + NormalFields(fields)
  {
  }

  lemma NormalNull()
    ensures Normal(Null) == Null
  {
  }

  lemma FieldsBytes(fields: seq<Field>, rest: seq<byte>)
    requires fields != [] && Save(fields[0].value).ok
    ensures var f := fields[0];
      SaveFields(fields).bytes + rest
      == Word(|f.key|) + f.key + (Save(f.value).bytes + (SaveFields(fields[1..]).bytes + rest))
  {
    hide Word, Save;
    var a, b, c := Word(|fields[0].key|) + fields[0].key, Save(fields[0].value).bytes, SaveFields(fields[1..]).bytes;
    assert SaveFields(fields).bytes == a + b + c;
    assert a + b + c + rest == a + (b + (c + rest));
  }

  lemma FirstField(done: seq<Field>, s: seq<byte>, n: nat, g: Field, q: seq<byte>, later: seq<byte>)
    requires n > 0 && ReadText(s) == Some((g.key, q)) && Load(Null, q) == Some((g.value, later))
    ensures LoadFields(done, s, n) == LoadFields(Emplace(done, g), later, n - 1)
  {
    hide ReadText, Load, Emplace;
  }

  lemma KeysBefore(done: seq<Field>, fields: seq<Field>)
    requires fields != [] && Sorted(done + fields)
    ensures forall g <- done :: Before(g.key, fields[0].key)
  {
    var all := done + fields;
    forall g | g in done
      ensures Before(g.key, fields[0].key)
    {
      var i :| 0 <= i < |done| && done[i] == g;
      assert all[i] == g && all[|done|] == fields[0];
    }
  }

  lemma SortedAgain(done: seq<Field>, fields: seq<Field>, g: Field)
    requires fields != [] && Sorted(done + fields) && g.key == fields[0].key
    ensures Sorted(done + [g] + fields[1..])
  {
    var a, b := done + fields, done + [g] + fields[1..];
    assert forall i :: 0 <= i < |a| ==> b[i].key == a[i].key;
  }

  /** A tagged value comes back as it was. */
  lemma RoundTrip(v: Json, rest: seq<byte>)
    requires Valid(v) && Complete(v)
    ensures Load(Null, Save(v).bytes + rest) == Some((v, rest)) <==> Tagged(v)
  {
    LoadAfterSave(v, Null, rest);
    NormalIffTagged(v);
  }

  /** No encoding is a prefix of another, and different (tagged) values have different encodings. */
  lemma PrefixFree(v: Json, w: Json, r1: seq<byte>, r2: seq<byte>)
    requires Valid(v) && Complete(v) && Valid(w) && Complete(w)
    requires Save(v).bytes + r1 == Save(w).bytes + r2
    ensures Normal(v) == Normal(w) && r1 == r2
    ensures Tagged(v) && Tagged(w) ==> v == w
  {
    LoadAfterSave(v, Null, r1);
    LoadAfterSave(w, Null, r2);
    NormalIffTagged(v);
    NormalIffTagged(w);
  }

  // ---------- Whatever is read is well formed ----------

  lemma SortedCons(f: Field, fields: seq<Field>)
    requires Sorted(fields) && forall g <- fields :: Before(f.key, g.key)
    ensures Sorted([f] + fields)
  {
    var all := [f] + fields;
    forall i, j | 0 <= i < j < |all|
      ensures Before(all[i].key, all[j].key)
    {
      assert all[j] == fields[j - 1] && fields[j - 1] in fields;
      if i > 0 {
        assert all[i] == fields[i - 1];
      }
    }
  }

  lemma SortedTail(fields: seq<Field>)
    requires fields != [] && Sorted(fields)
    ensures Sorted(fields[1..]) && forall g <- fields[1..] :: Before(fields[0].key, g.key)
  {
    forall g | g in fields[1..]
      ensures Before(fields[0].key, g.key)
    {
      var i :| 1 <= i < |fields| && fields[i] == g;
    }
  }

  /** Emplacing keeps the keys sorted and adds nothing but the new field. */
  lemma {:induction false} EmplaceSorted(fields: seq<Field>, f: Field)
    requires Sorted(fields)
    ensures Sorted(Emplace(fields, f)) && |Emplace(fields, f)| <= |fields| + 1
    ensures forall g <- Emplace(fields, f) :: g in fields || g == f
  {
    if fields == [] || fields[0].key == f.key {
    } else {
      hide Before, Sorted;
      SortedTail(fields);
      if Before(f.key, fields[0].key) {
        forall g | g in fields
          ensures Before(f.key, g.key)
        {
          assert g == fields[0] || g in fields[1..];
          if g != fields[0] {
            BeforeIsTransitive(f.key, fields[0].key, g.key);
          }
        }
        SortedCons(f, fields);
      } else {
        BeforeIsTotal(f.key, fields[0].key);
        EmplaceSorted(fields[1..], f);
        SortedCons(fields[0], Emplace(fields[1..], f));
      }
    }
  }

  lemma BeforeIsTransitive(a: Text, b: Text, c: Text)
    requires Before(a, b) && Before(b, c)
    ensures Before(a, c)
  {
    Compare.LessIsTransitive(a, b, c, false);
  }

  lemma BeforeIsTotal(a: Text, b: Text)
    ensures a == b || Before(a, b) || Before(b, a)
  {
    Compare.LessIsTrichotomous(a, b, false);
  }

  predicate Good(v: Json) {
    Valid(v) && Complete(v) && Tagged(v)
  }

  /** Any bytes that load at all load to a well-formed value whose binaries are all tagged. */
  lemma {:induction false} LoadIsGood(s: seq<byte>)
    requires Load(Null, s).Some?
    ensures Good(Load(Null, s).value.0)
    decreases |s|, 0
  {
    if s[0] == 1 {
      var (n, q) := ReadWord(s[1..]).value;
      LoadFieldsIsGood([], q, n);
    } else if s[0] == 2 {
      var (n, q) := ReadWord(s[1..]).value;
      LoadElemsIsGood(q, n);
    }
  }

  lemma {:induction false} LoadElemsIsGood(s: seq<byte>, n: nat)
    requires LoadElems(s, n).Some?
    ensures |LoadElems(s, n).value.0| == n && forall e <- LoadElems(s, n).value.0 :: Good(e)
    decreases |s|, 1, n
  {
    hide Good, Load;
    if n > 0 {
      LoadIsGood(s);
      LoadElemsIsGood(Load(Null, s).value.1, n - 1);
    }
  }

  lemma {:induction false} LoadFieldsIsGood(fields: seq<Field>, s: seq<byte>, n: nat)
    requires LoadFields(fields, s, n).Some? && Sorted(fields) && forall f <- fields :: Good(f.value)
    ensures var r := LoadFields(fields, s, n).value.0;
      Sorted(r) && |r| <= |fields| + n && forall f <- r :: Good(f.value)
    decreases |s|, 1, n
  {
    hide Good, Load, Sorted, Emplace, ReadText;
    if n > 0 {
      var (key, q) := ReadText(s).value;
      LoadIsGood(q);
      var (v, rest) := Load(Null, q).value;
      EmplaceSorted(fields, Field(key, v));
      LoadFieldsIsGood(Emplace(fields, Field(key, v)), rest, n - 1);
    }
  }

  /** Whatever was read can be written again, and reads back as the same value. */
  lemma LoadThenSave(s: seq<byte>, rest: seq<byte>)
    requires Load(Null, s).Some?
    ensures var v := Load(Null, s).value.0;
      Save(v).ok && Load(Null, Save(v).bytes + rest) == Some((v, rest))
  {
    hide Load, Save;
    var v := Load(Null, s).value.0;
    LoadIsGood(s);
    SaveThrows(v);
    RoundTrip(v, rest);
  }

  // ---------- Reading throws ----------

  lemma WordExtends(s: seq<byte>, extra: seq<byte>)
    requires ReadWord(s).Some?
    ensures ReadWord(s + extra) == Some((ReadWord(s).value.0, ReadWord(s).value.1 + extra))
  {
    assert (s + extra)[..8] == s[..8] && (s + extra)[8..] == s[8..] + extra;
  }

  lemma TextExtends(s: seq<byte>, extra: seq<byte>)
    requires ReadText(s).Some?
    ensures ReadText(s + extra) == Some((ReadText(s).value.0, ReadText(s).value.1 + extra))
  {
    hide ReadWord;
    WordExtends(s, extra);
    var (n, rest) := ReadWord(s).value;
    assert (rest + extra)[..n] == rest[..n] && (rest + extra)[n..] == rest[n..] + extra;
  }

  lemma ScalarExtends(t: byte, p: seq<byte>, extra: seq<byte>)
    requires LoadScalar(t, p).Some?
    ensures LoadScalar(t, p + extra) == Some((LoadScalar(t, p).value.0, LoadScalar(t, p).value.1 + extra))
  {
    hide ReadWord, ReadText;
    if t == 3 {
      TextExtends(p, extra);
    } else if t == 4 {
      assert (p + extra)[1..] == p[1..] + extra;
    } else if t == 5 || t == 6 {
      WordExtends(p, extra);
    } else if t == 7 {
      assert (p + extra)[..8] == p[..8] && (p + extra)[8..] == p[8..] + extra;
    } else if t == 8 {
      WordExtends(p, extra);
      var (n, q) := ReadWord(p).value;
      WordExtends(q, extra);
      var rest := ReadWord(q).value.1;
      assert (rest + extra)[..n] == rest[..n] && (rest + extra)[n..] == rest[n..] + extra;
    }
  }

  /** What loads also loads when more bytes follow, to the same value, and leaves those too. */
  lemma {:induction false} LoadExtends(target: Json, s: seq<byte>, extra: seq<byte>)
    requires Load(target, s).Some?
    ensures Load(target, s + extra) == Some((Load(target, s).value.0, Load(target, s).value.1 + extra))
    decreases |s|, 0
  {
    hide ReadWord, LoadScalar, LoadElems, LoadFields;
    var p := s[1..];
    assert (s + extra)[0] == s[0] && (s + extra)[1..] == p + extra;
    if s[0] == 0 {
    } else if s[0] == 1 {
      WordExtends(p, extra);
      FieldsExtend([], ReadWord(p).value.1, ReadWord(p).value.0, extra);
    } else if s[0] == 2 {
      WordExtends(p, extra);
      ElemsExtend(ReadWord(p).value.1, ReadWord(p).value.0, extra);
    } else {
      ScalarExtends(s[0], p, extra);
    }
  }

  lemma {:induction false} ElemsExtend(s: seq<byte>, n: nat, extra: seq<byte>)
    requires LoadElems(s, n).Some?
    ensures LoadElems(s + extra, n) == Some((LoadElems(s, n).value.0, LoadElems(s, n).value.1 + extra))
    decreases |s|, 1, n
  {
    hide Load;
    if n > 0 {
      LoadExtends(Null, s, extra);
      ElemsExtend(Load(Null, s).value.1, n - 1, extra);
    }
  }

  lemma {:induction false} FieldsExtend(fields: seq<Field>, s: seq<byte>, n: nat, extra: seq<byte>)
    requires LoadFields(fields, s, n).Some?
    ensures LoadFields(fields, s + extra, n) == Some((LoadFields(fields, s, n).value.0, LoadFields(fields, s, n).value.1 + extra))
    decreases |s|, 1, n
  {
    hide Load, ReadText, Emplace;
    if n > 0 {
      TextExtends(s, extra);
      var (key, q) := ReadText(s).value;
      LoadExtends(Null, q, extra);
      var (v, rest) := Load(Null, q).value;
      FieldsExtend(Emplace(fields, Field(key, v)), rest, n - 1, extra);
    }
  }

  /** A saved value that is cut short anywhere does not load, and no value begins with a tag from 9 on. */
  lemma Truncated(v: Json, target: Json, k: nat, s: seq<byte>)
    requires Valid(v) && Complete(v) && k < |Save(v).bytes|
    ensures Load(target, Save(v).bytes[..k]).None?
    ensures s != [] && s[0] >= 9 ==> Load(target, s).None?
  {
    var all := Save(v).bytes;
    var part, extra := all[..k], all[k..];
    LoadAfterSave(v, target, []);
    assert all + [] == all && part + extra == all;
    if Load(target, part).Some? {
      LoadExtends(target, part, extra);
    }
  }
}
