/** The life of a view's local data (MemoryViewImpl.hpp): untouched, aliased or copied in on first use, copied out at the end. */
module LazyView {
  import opened Machine

  datatype Intent = IN | OUT | INOUT

  predicate Fetches(i: Intent) {
    i == IN || i == INOUT
  }

  predicate WritesBack(i: Intent) {
    i == OUT || i == INOUT
  }

  /** A window of a bulk, and whether this process owns the bulk. */
  datatype Target = Target(intent: Intent, mine: bool, offset: nat, size: nat)

  /** What HG_Bulk_access reports for the window: an error, or the segments it falls into. */
  datatype Access = AccessFailed | Segments(count: nat, size: nat)

  datatype Phase = Untouched | Aliased | Owned(buffer: seq<byte>)

  /** The local side, and the bytes of the bulk. */
  datatype State = State(phase: Phase, bulk: seq<byte>)

  predicate Valid(t: Target, s: State) {
    && t.offset + t.size <= |s.bulk|
    && (s.phase.Owned? ==> |s.phase.buffer| == t.size)
  }

  /** A use of the view: data(), which may find the given garbage in a new buffer, or a write through the pointer. */
  datatype Use = Data(access: Access, garbage: seq<byte>) | Poke(k: nat, b: byte)

  predicate Allowed(t: Target, s: State, u: Use) {
    match u
    case Data(_, garbage) => |garbage| == t.size
    case Poke(k, _) => k < t.size && s.phase != Untouched
  }

  function WindowOf(t: Target, bulk: seq<byte>): (r: seq<byte>)
    requires t.offset + t.size <= |bulk|
    ensures |r| == t.size
  {
    bulk[t.offset..t.offset + t.size]
  }

  predicate TakesAlias(t: Target, access: Access) {
    t.mine && access == Segments(1, t.size)
  }

  predicate AccessThrows(t: Target, s: State, u: Use) {
    u.Data? && s.phase == Untouched && t.mine && u.access.AccessFailed?
  }

  function Step(t: Target, s: State, u: Use): (r: State)
    requires Valid(t, s) && Allowed(t, s, u)
    ensures Valid(t, r) && |r.bulk| == |s.bulk|
  {
    match u
    case Data(access, garbage) =>
      if s.phase != Untouched || AccessThrows(t, s, u) then s
      else if TakesAlias(t, access) then s.(phase := Aliased)
      else s.(phase := Owned(if Fetches(t.intent) then WindowOf(t, s.bulk) else garbage))
    case Poke(k, b) =>
      if s.phase.Owned? then s.(phase := Owned(s.phase.buffer[k := b]))
      else s.(bulk := s.bulk[t.offset + k := b])
  }

  /** The destructor. The local bulk is named without a segment, so its first size bytes are sent; the local bulk of an
      aliased view is the remote bulk itself. */
  function Destroy(t: Target, s: State): (r: seq<byte>)
    requires Valid(t, s)
    ensures |r| == |s.bulk|
  {
    if s.phase == Untouched || !WritesBack(t.intent) then s.bulk
    else Splice(s.bulk, t.offset, if s.phase.Owned? then s.phase.buffer else s.bulk[..t.size])
  }

  predicate AllAllowed(t: Target, s: State, uses: seq<Use>)
    requires Valid(t, s)
    decreases |uses|
  {
    uses == [] || (Allowed(t, s, uses[0]) && AllAllowed(t, Step(t, s, uses[0]), uses[1..]))
  }

  function Run(t: Target, s: State, uses: seq<Use>): (r: State)
    requires Valid(t, s) && AllAllowed(t, s, uses)
    ensures Valid(t, r) && |r.bulk| == |s.bulk|
    decreases |uses|
  {
    if uses == [] then s else Run(t, Step(t, s, uses[0]), uses[1..])
  }

  // ---------- Laws over every run ----------

  /** Every write among the uses stays in a window of the given size. */
  predicate Within(uses: seq<Use>, size: nat) {
    forall u <- uses :: u.Poke? ==> u.k < size
  }

  /** The bytes m after the writes among the uses, made at an offset. */
  function Written(m: seq<byte>, offset: nat, uses: seq<Use>, size: nat): (r: seq<byte>)
    requires Within(uses, size) && offset + size <= |m|
    ensures |r| == |m|
    decreases |uses|
  {
    if uses == [] then m
    else Written(if uses[0].Poke? then m[offset + uses[0].k := uses[0].b] else m, offset, uses[1..], size)
  }

  lemma {:induction false} UsesFit(t: Target, s: State, uses: seq<Use>)
    requires Valid(t, s) && AllAllowed(t, s, uses)
    ensures Within(uses, t.size)
    decreases |uses|
  {
    if uses != [] {
      UsesFit(t, Step(t, s, uses[0]), uses[1..]);
      assert uses == [uses[0]] + uses[1..];
    }
  }

  /** Once the data pointer is set it never changes: a copy stays a copy and collects the writes without touching the
      bulk, an alias stays an alias and passes them on. */
  lemma {:induction false} PointerIsFixed(t: Target, s: State, uses: seq<Use>)
    requires Valid(t, s) && AllAllowed(t, s, uses) && Within(uses, t.size) && s.phase != Untouched
    ensures Run(t, s, uses)
         == if s.phase.Owned? then State(Owned(Written(s.phase.buffer, 0, uses, t.size)), s.bulk)
            else State(Aliased, Written(s.bulk, t.offset, uses, t.size))
    decreases |uses|
  {
    if uses != [] {
      PointerIsFixed(t, Step(t, s, uses[0]), uses[1..]);
    }
  }

  /** Writing to a window in place, or to a copy of it that is put back afterwards. */
  lemma {:induction false} WrittenWindow(t: Target, m: seq<byte>, uses: seq<Use>)
    requires Within(uses, t.size) && t.offset + t.size <= |m|
    ensures Splice(m, t.offset, Written(WindowOf(t, m), 0, uses, t.size)) == Written(m, t.offset, uses, t.size)
    decreases |uses|
  {
    if uses == [] {
      assert Splice(m, t.offset, WindowOf(t, m)) == m;
    } else {
      hide Splice, Within;
      var m' := if uses[0].Poke? then m[t.offset + uses[0].k := uses[0].b] else m;
      var w := WindowOf(t, m);
      assert WindowOf(t, m') == if uses[0].Poke? then w[uses[0].k := uses[0].b] else w;
      WrittenWindow(t, m', uses[1..]);
      var v := Written(WindowOf(t, m'), 0, uses[1..], t.size);
      assert Splice(m', t.offset, v) == Splice(m, t.offset, v);
    }
  }

  /** What a finished run of a fresh view did, by the phase it ended in. */
  ghost predicate Did(t: Target, bulk: seq<byte>, uses: seq<Use>, r: State)
    requires Valid(t, r) && Within(uses, t.size) && |r.bulk| == |bulk|
  {
    match r.phase
    case Untouched => r.bulk == bulk && Destroy(t, r) == bulk && Written(bulk, t.offset, uses, t.size) == bulk
    case Owned(buffer) =>
      && r.bulk == bulk
      && Destroy(t, r) == (if t.intent == IN then bulk else Splice(bulk, t.offset, buffer))
      && (t.intent != OUT ==> Splice(bulk, t.offset, buffer) == Written(bulk, t.offset, uses, t.size))
    case Aliased =>
      && r.bulk == Written(bulk, t.offset, uses, t.size)
      && (Destroy(t, r) == r.bulk <==> t.intent == IN || r.bulk[..t.size] == WindowOf(t, r.bulk))
  }

  lemma SpliceSame(m: seq<byte>, t: Target, w: seq<byte>)
    requires t.offset + t.size <= |m| && |w| == t.size
    ensures Splice(m, t.offset, w) == m <==> w == WindowOf(t, m)
  {
    var r := Splice(m, t.offset, w);
    var v := WindowOf(t, m);
    assert forall k :: 0 <= k < t.size ==> r[t.offset + k] == w[k] && m[t.offset + k] == v[k];
    assert w == v ==> r == m;
    assert r == m ==> w == v;
  }

  /** Every run of a fresh view: an unused view transfers nothing; a copy leaves the bulk alone until the end, then puts
      its buffer back if the intent says so; an alias writes through, and its last transfer is harmless exactly when the
      start of the bulk equals the window. */
  lemma {:induction false} Outcome(t: Target, bulk: seq<byte>, uses: seq<Use>)
    requires t.offset + t.size <= |bulk| && AllAllowed(t, State(Untouched, bulk), uses)
    ensures Within(uses, t.size) && Did(t, bulk, uses, Run(t, State(Untouched, bulk), uses))
    decreases |uses|
  {
    var s := State(Untouched, bulk);
    UsesFit(t, s, uses);
    if uses != [] {
      var next := Step(t, s, uses[0]);
      if next.phase == Untouched {
        Outcome(t, bulk, uses[1..]);
      } else {
        PointerIsFixed(t, next, uses[1..]);
        var r := Run(t, next, uses[1..]);
        if r.phase.Owned? {
          WrittenWindow(t, bulk, uses[1..]);
        } else {
          SpliceSame(r.bulk, t, r.bulk[..t.size]);
        }
      }
    }
  }

  // ---------- What data() shows ----------

  /** The bytes behind the pointer. */
  function Shown(t: Target, s: State): (r: seq<byte>)
    requires Valid(t, s) && s.phase != Untouched
    ensures |r| == t.size
  {
    if s.phase.Owned? then s.phase.buffer else WindowOf(t, s.bulk)
  }

  /** The first call of data(): it throws and changes nothing exactly when a local bulk cannot be looked up; it aliases a
      local window that is one segment; otherwise it makes a buffer, which holds the window unless the intent is OUT. */
  lemma FirstData(t: Target, bulk: seq<byte>, access: Access, garbage: seq<byte>)
    requires t.offset + t.size <= |bulk| && |garbage| == t.size
    ensures var r := Step(t, State(Untouched, bulk), Data(access, garbage));
      r == if t.mine && access == AccessFailed then State(Untouched, bulk)
           else if t.mine && access == Segments(1, t.size) then State(Aliased, bulk)
           else State(Owned(if t.intent == OUT then garbage else bulk[t.offset..t.offset + t.size]), bulk)
  {
  }

  /** What the first call of data() that does not throw found in its new buffer. */
  function FirstGarbage(t: Target, uses: seq<Use>): seq<byte> {
    if uses == [] then []
    else if uses[0].Data? && !(t.mine && uses[0].access == AccessFailed) then uses[0].garbage
    else FirstGarbage(t, uses[1..])
  }

  lemma WrittenThere(t: Target, m: seq<byte>, uses: seq<Use>)
    requires Within(uses, t.size) && t.offset + t.size <= |m|
    ensures WindowOf(t, Written(m, t.offset, uses, t.size)) == Written(WindowOf(t, m), 0, uses, t.size)
  {
    WrittenWindow(t, m, uses);
    var w := Written(WindowOf(t, m), 0, uses, t.size);
    hide Written;
    var r := Splice(m, t.offset, w);
    assert forall k :: 0 <= k < t.size ==> r[t.offset + k] == w[k];
    assert WindowOf(t, r) == w;
  }

  /** After any run that has called data(), the pointer shows the window of the bulk as it was at first, with the writes made
      so far; an OUT view with a buffer of its own shows what was in the buffer instead, with the writes. */
  lemma {:induction false} DataShows(t: Target, bulk: seq<byte>, uses: seq<Use>)
    requires t.offset + t.size <= |bulk| && AllAllowed(t, State(Untouched, bulk), uses)
    requires Run(t, State(Untouched, bulk), uses).phase != Untouched
    ensures var r := Run(t, State(Untouched, bulk), uses);
      && Within(uses, t.size)
      && (r.phase.Owned? && t.intent == OUT ==>
            |FirstGarbage(t, uses)| == t.size && Shown(t, r) == Written(FirstGarbage(t, uses), 0, uses, t.size))
      && (r.phase.Aliased? || t.intent != OUT ==>
            Shown(t, r) == Written(bulk[t.offset..t.offset + t.size], 0, uses, t.size))
    decreases |uses|
  {
    var s := State(Untouched, bulk);
    UsesFit(t, s, uses);
    var next := Step(t, s, uses[0]);
    FirstData(t, bulk, uses[0].access, uses[0].garbage);
    if next.phase == Untouched {
      DataShows(t, bulk, uses[1..]);
    } else {
      PointerIsFixed(t, next, uses[1..]);
      WrittenThere(t, bulk, uses[1..]);
    }
  }

  /** Whatever an n-byte bulk holds and however its aliased view is used, the last transfer changes nothing. */
  ghost predicate AliasIsSafe(t: Target, n: nat)
    requires t.offset + t.size <= n
  {
    forall bulk: seq<byte>, uses: seq<Use> ::
      |bulk| == n && AllAllowed(t, State(Untouched, bulk), uses) && Run(t, State(Untouched, bulk), uses).phase == Aliased ==>
        Destroy(t, Run(t, State(Untouched, bulk), uses)) == Run(t, State(Untouched, bulk), uses).bulk
  }

  /** That holds of a local view that writes back exactly when it starts at offset 0 or is empty. */
  lemma AliasIsSafeIff(t: Target, n: nat)
    requires t.mine && t.intent != IN && t.offset + t.size <= n
    ensures AliasIsSafe(t, n) <==> t.offset == 0 || t.size == 0
  {
    if t.offset == 0 || t.size == 0 {
      forall bulk: seq<byte>, uses: seq<Use> |
        |bulk| == n && AllAllowed(t, State(Untouched, bulk), uses) && Run(t, State(Untouched, bulk), uses).phase == Aliased
        ensures Destroy(t, Run(t, State(Untouched, bulk), uses)) == Run(t, State(Untouched, bulk), uses).bulk
      {
        Outcome(t, bulk, uses);
      }
    } else {
      var bulk: seq<byte> := [1] + seq(n - 1, _ => 0);
      UnusedAlias(t, bulk);
      var uses := [AliasUse(t)];
      assert bulk[..t.size][0] == 1 && WindowOf(t, bulk)[0] == 0;
      SpliceSame(bulk, t, bulk[..t.size]);
    }
  }

  /** A call of data() that takes the alias. */
  function AliasUse(t: Target): Use {
    Data(Segments(1, t.size), seq(t.size, _ => 0))
  }

  lemma UnusedAlias(t: Target, bulk: seq<byte>)
    requires t.mine && t.intent != IN && t.offset + t.size <= |bulk|
    ensures var uses := [AliasUse(t)];
      && AllAllowed(t, State(Untouched, bulk), uses)
      && Run(t, State(Untouched, bulk), uses) == State(Aliased, bulk)
      && Destroy(t, State(Aliased, bulk)) == Splice(bulk, t.offset, bulk[..t.size])
  {
    var uses := [AliasUse(t)];
    assert uses[1..] == [] && Step(t, State(Untouched, bulk), uses[0]) == State(Aliased, bulk);
    assert Run(t, State(Aliased, bulk), []) == State(Aliased, bulk);
  }

  /** An INOUT view has the same effect whether its data was copied or aliased, provided an alias starts at offset 0
      or is empty: the bulk ends up with the writes made in its window, and nothing else changed. */
  lemma InOutIsTransparent(t: Target, bulk: seq<byte>, uses: seq<Use>)
    requires t.intent == INOUT && t.offset + t.size <= |bulk| && AllAllowed(t, State(Untouched, bulk), uses)
    requires Run(t, State(Untouched, bulk), uses).phase == Aliased ==> t.offset == 0 || t.size == 0
    ensures Within(uses, t.size)
    ensures Destroy(t, Run(t, State(Untouched, bulk), uses)) == Written(bulk, t.offset, uses, t.size)
  {
    hide Run, Written, Destroy;
    Outcome(t, bulk, uses);
  }

  predicate Pokes(uses: seq<Use>, k: nat) {
    exists u <- uses :: u.Poke? && u.k == k
  }

  /** A byte that is written does not depend on what was there before. */
  lemma {:induction false} WrittenByte(a: seq<byte>, b: seq<byte>, uses: seq<Use>, size: nat, k: nat)
    requires Within(uses, size) && |a| == |b| == size && k < size
    requires a[k] == b[k] || Pokes(uses, k)
    ensures Written(a, 0, uses, size)[k] == Written(b, 0, uses, size)[k]
    decreases |uses|
  {
    if uses != [] {
      var u := uses[0];
      var a' := if u.Poke? then a[u.k := u.b] else a;
      var b' := if u.Poke? then b[u.k := u.b] else b;
      assert uses == [u] + uses[1..];
      WrittenByte(a', b', uses[1..], size, k);
    }
  }

  /** An OUT copy that is written everywhere ends like an INOUT one: nothing of the fresh buffer's garbage is sent. */
  lemma OutIsComplete(t: Target, bulk: seq<byte>, access: Access, garbage: seq<byte>, uses: seq<Use>)
    requires t.intent == OUT && t.offset + t.size <= |bulk| && |garbage| == t.size
    requires AllAllowed(t, State(Untouched, bulk), [Data(access, garbage)] + uses)
    requires Step(t, State(Untouched, bulk), Data(access, garbage)).phase.Owned?
    requires forall k :: 0 <= k < t.size ==> Pokes(uses, k)
    ensures Within(uses, t.size)
    ensures Destroy(t, Run(t, State(Untouched, bulk), [Data(access, garbage)] + uses)) == Written(bulk, t.offset, uses, t.size)
  {
    var all := [Data(access, garbage)] + uses;
    assert all[0] == Data(access, garbage) && all[1..] == uses;
    var s := Step(t, State(Untouched, bulk), all[0]);
    UsesFit(t, s, uses);
    PointerIsFixed(t, s, uses);
    var w := WindowOf(t, bulk);
    forall k | 0 <= k < t.size
      ensures Written(garbage, 0, uses, t.size)[k] == Written(w, 0, uses, t.size)[k]
    {
      WrittenByte(garbage, w, uses, t.size, k);
    }
    assert Written(garbage, 0, uses, t.size) == Written(w, 0, uses, t.size);
    WrittenWindow(t, bulk, uses);
  }

  /** An aliased view that does not start at offset 0 can change bytes nobody wrote. */
  lemma AliasAtOffsetOverwrites()
    ensures var t := Target(INOUT, true, 1, 1);
      var uses := [Data(Segments(1, 1), [0])];
      && AllAllowed(t, State(Untouched, [5, 6]), uses)
      && Destroy(t, Run(t, State(Untouched, [5, 6]), uses)) == [5, 5]
  {
    var t := Target(INOUT, true, 1, 1);
    var uses := [Data(Segments(1, 1), [0])];
    var s := State(Aliased, [5, 6]);
    assert uses[1..] == [] && Step(t, State(Untouched, [5, 6]), uses[0]) == s;
    assert Run(t, s, []) == s;
    assert Splice([5, 6], 1, [5, 6][..1]) == [5, 5];
  }

  // ---------- The C++ object ----------

  class MemoryViewImpl {
    const target: Target
    const remote: array<byte>
    /** m_local_data: null, the remote bytes themselves, or a buffer of our own */
    var localData: array?<byte>
    /** whether m_local_bulk is set */
    var hasLocalBulk: bool
    var ownsLocalData: bool
    /** how often an owned buffer was deleted, and whether the destructor ran */
    ghost var released: nat
    ghost var destroyed: bool

    ghost predicate Valid()
      reads this, remote, localData
    {
      && target.offset + target.size <= remote.Length
      && (hasLocalBulk <==> localData != null)
      && (ownsLocalData ==> localData != null && localData != remote && localData.Length == target.size)
      && (localData != null && !ownsLocalData ==> localData == remote)
      && (!destroyed ==> released == 0)
    }

    /** The state of the specification that the fields stand for. */
    ghost function Abstract(): State
      requires Valid()
      reads this, remote, localData
    {
      State(if localData == null then Untouched else if ownsLocalData then Owned(localData[..]) else Aliased, remote[..])
    }

    /** What a caller of data() sees through the pointer. */
    ghost function Shows(): seq<byte>
      requires Valid() && localData != null
      reads this, remote, localData
    {
      Shown(target, Abstract())
    }

    constructor (target: Target, remote: array<byte>)
      requires target.offset + target.size <= remote.Length
      ensures Valid() && Abstract() == State(Untouched, remote[..]) && !destroyed
      ensures this.target == target && this.remote == remote
    {
      this.target := target;
      this.remote := remote;
      localData := null;
      hasLocalBulk, ownsLocalData := false, false;
      released, destroyed := 0, false;
    }

    /** prepareLocalData; false stands for the exception. */
    method PrepareLocalData(access: Access, garbage: seq<byte>) returns (ok: bool)
      requires Valid() && !destroyed && |garbage| == target.size
      modifies this
      ensures Valid() && !destroyed && (localData == null || localData == old(localData) || localData == remote || fresh(localData))
      ensures Abstract() == Step(target, old(Abstract()), Data(access, garbage))
      ensures ok <==> old(localData) != null || !target.mine || access != AccessFailed
      ensures ok ==> localData != null && (old(localData) != null ==> localData == old(localData))
      ensures ok && old(localData) == null ==>
                Shows() == if target.intent == OUT && !(target.mine && access == Segments(1, target.size)) then garbage
                           else old(remote[target.offset..target.offset + target.size])
    {
      if localData != null {
        return true;
      }
      ghost var was := remote[..];
      if target.mine {
        if access.AccessFailed? {
          return false;
        }
        if !(access.count != 1 || access.size != target.size) {
          localData := remote;
          hasLocalBulk := true;
          return true;
        }
      }
      var buffer := new byte[target.size](k requires 0 <= k < |garbage| => garbage[k]);
      if target.intent == IN || target.intent == INOUT {
        forall k | 0 <= k < target.size {
          buffer[k] := remote[target.offset + k];
        }
        assert buffer[..] == WindowOf(target, remote[..]);
      } else {
        assert buffer[..] == garbage;
      }
      ghost var filled := buffer[..];
      localData := buffer;
      hasLocalBulk := true;
      ownsLocalData := true;
      assert localData[..] == filled && remote[..] == was;
      return true;
    }

    /** A write through the pointer that data() returned. */
    method WriteLocal(k: nat, b: byte)
      requires Valid() && !destroyed && k < target.size && localData != null
      modifies localData
      ensures Valid() && Abstract() == Step(target, old(Abstract()), Poke(k, b))
    {
      var data: array<byte> := localData;
      if ownsLocalData {
        data[k] := b;
      } else {
        data[target.offset + k] := b;
      }
    }

    /** The destructor. */
    method Delete()
      requires Valid() && !destroyed
      modifies this, remote
      ensures remote[..] == Destroy(target, old(Abstract())) && destroyed
      ensures released == (if old(ownsLocalData) then 1 else 0)
    {
      destroyed := true;
      if !hasLocalBulk {
        return;
      }
      if target.intent == INOUT || target.intent == OUT {
        var sent := localData[..target.size];
        ghost var was := remote[..];
        forall k | 0 <= k < target.size {
          remote[target.offset + k] := sent[k];
        }
        assert remote[..] == Splice(was, target.offset, sent);
      }
      if ownsLocalData {
        released := released + 1;
      }
    }
  }
}
