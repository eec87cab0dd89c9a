/** MemoryViews inside RPC arguments: what saveJSON and loadJSON do to them, at any depth. */
module ArgumentTrip {
  import opened Machine
  import opened JsonWire
  import opened JsonLaws
  import opened ViewCodec

  /** A path into a JSON value, outermost step first. */
  datatype Step = Key(key: Text) | Index(i: nat)

  function At(j: Json, path: seq<Step>): Option<Json>
    decreases path
  {
    if path == [] then Some(j)
    else match Child(j, path[0])
      case None => None
      case Some(c) => At(c, path[1..])
  }

  function Child(j: Json, s: Step): Option<Json> {
    match s
    case Key(key) => if j.Object? then Find(j.fields, key) else None
    case Index(i) => if j.Array? && i < |j.elems| then Some(j.elems[i]) else None
  }

  /** Paths lead where one expects: to the value itself, to elements by number and to fields by key. */
  lemma PathsLead(j: Json, i: nat, path: seq<Step>)
    requires Valid(j)
    ensures At(j, []) == Some(j)
    ensures j.Array? && i < |j.elems| ==> At(j, [Index(i)] + path) == At(j.elems[i], path)
    ensures j.Object? && i < |j.fields| ==> At(j, [Key(j.fields[i].key)] + path) == At(j.fields[i].value, path)
  {
    if j.Object? && i < |j.fields| {
      FindFinds(j.fields, i);
    }
    if j.Array? && i < |j.elems| {
      assert ([Index(i)] + path)[1..] == path;
    } else if j.Object? && i < |j.fields| {
      assert ([Key(j.fields[i].key)] + path)[1..] == path;
    }
  }

  lemma {:induction false} FindFinds(fields: seq<Field>, i: nat)
    requires Sorted(fields) && i < |fields|
    ensures Find(fields, fields[i].key) == Some(fields[i].value)
  {
    if i > 0 {
      hide Before;
      SortedTail(fields);
      KeysAreOrdered(fields[0].key, fields[i].key);
      FindFinds(fields[1..], i - 1);
    }
  }

  function NormalOption(o: Option<Json>): Option<Json> {
    if o.None? then None else Some(Normal(o.value))
  }

  lemma {:induction false} FindNormal(fields: seq<Field>, key: Text)
    ensures Find(NormalFields(fields), key) == NormalOption(Find(fields, key))
  {
    if fields != [] {
      hide Normal;
      FindNormal(fields[1..], key);
      assert NormalFields(fields)[1..] == NormalFields(fields[1..]);
    }
  }

  lemma {:induction false} AtNormal(j: Json, path: seq<Step>)
    ensures At(Normal(j), path) == NormalOption(At(j, path))
    decreases path
  {
    if path != [] {
      hide NormalFields, NormalElems, Find;
      if path[0].Key? && j.Object? {
        FindNormal(j.fields, path[0].key);
      }
      assert Child(Normal(j), path[0]) == NormalOption(Child(j, path[0]));
      if Child(j, path[0]).Some? {
        AtNormal(Child(j, path[0]).value, path[1..]);
      }
    }
  }

  lemma UnsignedIsNormal(j: Json)
    ensures Normal(j).Unsigned? <==> j.Unsigned?
    ensures j.Unsigned? ==> Normal(j) == j
    ensures Normal(j).Array? <==> j.Array?
  {
  }

  lemma BytesAreNormal(elems: seq<Json>)
    ensures (forall b <- NormalElems(elems) :: IsByte(b)) <==> (forall b <- elems :: IsByte(b))
    ensures (forall b <- elems :: IsByte(b)) ==> NormalElems(elems) == elems
  {
    hide Normal;
    var r := NormalElems(elems);
    forall i | 0 <= i < |elems|
      ensures IsByte(r[i]) <==> IsByte(elems[i])
      ensures IsByte(elems[i]) ==> r[i] == elems[i]
    {
      UnsignedIsNormal(elems[i]);
    }
    assert (forall b <- elems :: IsByte(b)) <==> forall i :: 0 <= i < |elems| ==> IsByte(elems[i]);
    assert (forall b <- r :: IsByte(b)) <==> forall i :: 0 <= i < |r| ==> IsByte(r[i]);
  }

  /** Normalising changes neither whether a value is a view nor which bytes it carries. */
  lemma ViewIsNormal(j: Json)
    ensures IsMemoryView(Normal(j)) <==> IsMemoryView(j)
    ensures IsMemoryView(j) ==> Payload(Normal(j)) == Payload(j)
  {
    if j.Object? {
      hide NormalFields, NormalElems, Find;
      FindNormal(j.fields, BYTES_KEY);
      FindNormal(j.fields, SUBTYPE_KEY);
      var bytes, subtype := Find(j.fields, BYTES_KEY), Find(j.fields, SUBTYPE_KEY);
      if bytes.Some? && subtype.Some? {
        UnsignedIsNormal(subtype.value);
        UnsignedIsNormal(bytes.value);
        if bytes.value.Array? {
          BytesAreNormal(bytes.value.elems);
        }
      }
    }
  }

  /** What a consumer finds at a path: nothing, a value that is no view, or a view (or what its constructor throws). */
  datatype Found = Nothing | Plain | AView(built: Built)

  function Look(j: Json, path: seq<Step>, bulkSize: Text -> U64): Found {
    match At(j, path)
    case None => Nothing
    case Some(x) => if IsMemoryView(x) then AView(FromJson(x, bulkSize)) else Plain
  }

  /** On the other side of the wire every path leads to what it led to before: views to the same views, whatever bytes
      surround the argument, and nothing else to a view. */
  lemma TripKeepsViews(v: Json, rest: seq<byte>, path: seq<Step>, bulkSize: Text -> U64)
    requires Valid(v) && Complete(v)
    ensures Load(Null, Save(v).bytes + rest).Some?
    ensures Look(Load(Null, Save(v).bytes + rest).value.0, path, bulkSize) == Look(v, path, bulkSize)
  {
    hide Load, Save, Normal, At, IsMemoryView, Decode;
    LoadAfterSave(v, Null, rest);
    assert Normal(Null) == Null by { NormalNull(); }
    AtNormal(v, path);
    if At(v, path).Some? {
      ViewIsNormal(At(v, path).value);
    }
  }

  /** In particular a view put into an argument arrives: its JSON at a path decodes to its own fields after the trip. */
  lemma ViewArrives(v: Json, rest: seq<byte>, path: seq<Step>, view: View, bulkSize: Text -> U64)
    requires Valid(v) && Complete(v)
    requires Fits(view) && Window(bulkSize(view.bulk), Some(view.offset), Some(view.size)).Some?
    requires At(v, path) == Some(ToJson(Some(view)))
    ensures Load(Null, Save(v).bytes + rest).Some?
    ensures Look(Load(Null, Save(v).bytes + rest).value.0, path, bulkSize) == AView(Built(view))
  {
    hide Load, Save, At, Decode, Encode;
    TripKeepsViews(v, rest, path, bulkSize);
    ViewRoundTrip(view, bulkSize);
  }
}
