/** Ownership over whole runs: nothing is freed twice, nothing leaks, sizes are always true. */
module RefRuns {
  import opened Machine
  import opened RefCells
  import Fill
  import Slices

  const START: World := World(map[], [], {}, [])

  lemma StartHolds()
    ensures Inv(START)
  {
  }

  ghost predicate AllAllowed(w: World, steps: seq<Step>)
    requires Inv(w)
    decreases |steps|
  {
    steps == [] ||
    (Allowed(w, steps[0]) && (StepKeeps(w, steps[0]); AllAllowed(Do(w, steps[0]), steps[1..])))
  }

  ghost function Run(w: World, steps: seq<Step>): World
    requires Inv(w) && AllAllowed(w, steps)
    decreases |steps|
  {
    if steps == [] then w
    else
      StepKeeps(w, steps[0]);
      Run(Do(w, steps[0]), steps[1..])
  }

  /** After any run, each live block has exactly one owner, which knows its size. */
  lemma {:induction false} RunKeeps(w: World, steps: seq<Step>)
    requires Inv(w) && AllAllowed(w, steps)
    ensures Inv(Run(w, steps))
    decreases |steps|
  {
    if steps != [] {
      StepKeeps(w, steps[0]);
      RunKeeps(Do(w, steps[0]), steps[1..]);
    }
  }

  // ---------- Conservation ----------

  /** Whether handing the cell's memory to its callback frees a block. */
  predicate FreesBlock(c: Cell) {
    c.unref == Free && c.mem != 0
  }

  function Only(p: Ptr, b: bool): set<Ptr> {
    if b then {p} else {}
  }

  /** The block obtained from the allocator in a step, if any. */
  function Obtained(w: World, t: Step): set<Ptr>
    requires Allowed(w, t)
  {
    match t
    case Resize(i, size, _, s) => Only(s.at, w.cells[i].unref == Free && w.cells[i].len != size && size > 0 && s.enough)
    case Alloc(size, s) => Only(s.at, size > 0 && s.enough)
    case _ => {}
  }

  /** The block given back to the allocator in a step, if any. */
  function GivenBack(w: World, t: Step): set<Ptr>
    requires Allowed(w, t)
  {
    match t
    case Resize(i, size, _, s) =>
      Only(w.cells[i].mem, FreesBlock(w.cells[i]) && w.cells[i].len != size && (size == 0 || s.enough))
    case SetLoose(i, p) => Only(w.cells[i].mem, FreesBlock(w.cells[i]) && p != w.cells[i].mem)
    case SetRef(i, p, _, _) => Only(w.cells[i].mem, FreesBlock(w.cells[i]) && p != w.cells[i].mem)
    case Release(i) => Only(w.cells[i].mem, FreesBlock(w.cells[i]) && w.cells[i].len != 0)
    case _ => {}
  }

  /** Only live blocks are given back, only dead addresses are handed out, and nothing else comes or goes. */
  ghost predicate Balanced(w: World, t: Step)
    requires Inv(w) && Allowed(w, t)
  {
    && GivenBack(w, t) <= w.blocks.Keys
    && Obtained(w, t) !! w.blocks.Keys - GivenBack(w, t)
    && Do(w, t).blocks.Keys == w.blocks.Keys - GivenBack(w, t) + Obtained(w, t)
  }

  lemma StepBalance(w: World, t: Step)
    requires Inv(w) && Allowed(w, t)
    ensures Balanced(w, t)
  {
    match t {
      case NewRef =>
      case Create =>
      case Release(i) => FreeBalance(w, i);
      case SetRef(i, p, len, unref) => FreeBalance(w, i);
      case SetLoose(i, p) => FreeBalance(w, i);
      case Alloc(size, s) => assert w.blocks - {0} == w.blocks;
      case Resize(i, size, filling, s) => ResizeBalance(w, i, size, filling, s);
    }
  }

  /** A cell that frees has a live block exactly when its address and its length say so. */
  lemma FreeBalance(w: World, i: nat)
    requires Inv(w) && i < |w.cells|
    ensures w.cells[i].unref == Free ==>
      (w.cells[i].mem in w.blocks <==> w.cells[i].mem != 0) && (w.cells[i].mem != 0 <==> w.cells[i].len != 0)
  {
    assert HoldsLive(w, w.cells[i]);
  }

  lemma ResizeBalance(w: World, i: nat, size: nat, filling: seq<byte>, s: Supply)
    requires Inv(w) && Allowed(w, Resize(i, size, filling, s))
    ensures Balanced(w, Resize(i, size, filling, s))
  {
    assert HoldsLive(w, w.cells[i]);
    hide HoldsLive, HasOwner, Resized;
    assert MayRealloc(w, w.cells[i].mem, w.cells[i].len) || w.cells[i].unref != Free;
  }

  function One(b: bool): nat {
    if b then 1 else 0
  }

  /** How often address p is handed out in a run. */
  ghost function TimesObtained(w: World, steps: seq<Step>, p: Ptr): nat
    requires Inv(w) && AllAllowed(w, steps)
    decreases |steps|
  {
    if steps == [] then 0
    else StepKeeps(w, steps[0]); One(p in Obtained(w, steps[0])) + TimesObtained(Do(w, steps[0]), steps[1..], p)
  }

  ghost function TimesGivenBack(w: World, steps: seq<Step>, p: Ptr): nat
    requires Inv(w) && AllAllowed(w, steps)
    decreases |steps|
  {
    if steps == [] then 0
    else StepKeeps(w, steps[0]); One(p in GivenBack(w, steps[0])) + TimesGivenBack(Do(w, steps[0]), steps[1..], p)
  }

  /** Over any run and at any address, what was handed out and not given back is what is live there. */
  lemma {:induction false} RunBalance(w: World, steps: seq<Step>, p: Ptr)
    requires Inv(w) && AllAllowed(w, steps)
    ensures One(p in Run(w, steps).blocks)
         == One(p in w.blocks) + TimesObtained(w, steps, p) - TimesGivenBack(w, steps, p)
    decreases |steps|
  {
    if steps != [] {
      StepKeeps(w, steps[0]);
      StepBalance(w, steps[0]);
      hide Inv, Do, Obtained, GivenBack;
      RunBalance(Do(w, steps[0]), steps[1..], p);
    }
  }

  // ---------- Release ----------

  /** Closing and then collecting is the same as closing: nothing is freed or called back twice. */
  lemma CloseThenGc(w: World, i: nat)
    requires Inv(w) && i < |w.cells|
    ensures Inv(RefGc(w, i)) && RefGc(RefGc(w, i), i) == RefGc(w, i)
  {
    RefGcKeeps(w, i);
  }

  /** Releasing cells n-1, ..., 0. */
  function ReleaseSteps(n: nat): seq<Step> {
    if n == 0 then [] else [Release(n - 1)] + ReleaseSteps(n - 1)
  }

  lemma ReleaseUnfolds(w: World, n: nat, p: Ptr)
    requires Inv(w) && 0 < n <= |w.cells|
    ensures var v, now, later := RefGc(w, n - 1), ReleaseSteps(n), ReleaseSteps(n - 1);
      && Inv(v) && |v.cells| == |w.cells| && v.loose == w.loose
      && (AllAllowed(w, now) <==> AllAllowed(v, later))
      && (AllAllowed(v, later) ==> Run(w, now) == Run(v, later) && TimesObtained(w, now, p) == TimesObtained(v, later, p))
  {
    RefGcKeeps(w, n - 1);
    var now := ReleaseSteps(n);
    assert now[0] == Release(n - 1) && now[1..] == ReleaseSteps(n - 1);
    assert Do(w, now[0]) == RefGc(w, n - 1) && Obtained(w, now[0]) == {};
    hide Inv, RefGc, Do, Obtained, ReleaseSteps;
  }

  lemma GcEmpties(w: World, i: nat)
    requires Inv(w) && i < |w.cells|
    ensures var r := RefGc(w, i);
      |r.cells| == |w.cells| && OwnsNothing(r.cells[i]) && forall j :: 0 <= j < |w.cells| && j != i ==> r.cells[j] == w.cells[j]
  {
    assert HoldsLive(w, w.cells[i]);
  }

  predicate EmptyUpTo(cells: seq<Cell>, n: nat) {
    n <= |cells| && forall i :: 0 <= i < n ==> OwnsNothing(cells[i])
  }

  /** These releases are always possible, obtain nothing, and leave the first n cells owning nothing. */
  lemma {:induction false} ReleasedOwnNothing(w: World, n: nat, p: Ptr)
    requires Inv(w) && n <= |w.cells|
    ensures AllAllowed(w, ReleaseSteps(n)) && TimesObtained(w, ReleaseSteps(n), p) == 0
    ensures var r := Run(w, ReleaseSteps(n));
      |r.cells| == |w.cells| && r.loose == w.loose && EmptyUpTo(r.cells, n) && r.cells[n..] == w.cells[n..]
    decreases n
  {
    if n > 0 {
      hide Inv, RefGc, OwnsNothing, ReleaseSteps, Run, AllAllowed, TimesObtained;
      ReleaseUnfolds(w, n, p);
      GcEmpties(w, n - 1);
      var v := RefGc(w, n - 1);
      ReleasedOwnNothing(v, n - 1, p);
      var r := Run(v, ReleaseSteps(n - 1));
      assert r.cells[n - 1] == r.cells[n - 1..][0] == v.cells[n - 1];
      assert r.cells[n..] == r.cells[n - 1..][1..] == v.cells[n - 1..][1..] == w.cells[n..];
    }
  }

  /** When every reference has been released, no block is left but those in the hands of C code. */
  lemma NothingLeaks(w: World)
    requires Inv(w)
    ensures AllAllowed(w, ReleaseSteps(|w.cells|)) && Run(w, ReleaseSteps(|w.cells|)).blocks.Keys == w.loose
  {
    var steps := ReleaseSteps(|w.cells|);
    ReleasedOwnNothing(w, |w.cells|, 0);
    RunKeeps(w, steps);
    var r := Run(w, steps);
    hide Run, OwnsNothing, AllAllowed;
    forall p | p in r.blocks
      ensures p in r.loose
    {
      NoOwner(r.cells, p);
    }
  }

  lemma NoOwner(cells: seq<Cell>, p: Ptr)
    requires EmptyUpTo(cells, |cells|)
    ensures !HasOwner(cells, p)
  {
    forall i | 0 <= i < |cells| ensures !Owns(cells[i], p) {
      assert OwnsNothing(cells[i]);
    }
  }

  /** Blocks that C code never asked for are never in its hands. */
  lemma {:induction false} NoLoose(w: World, steps: seq<Step>)
    requires Inv(w) && AllAllowed(w, steps) && w.loose == {} && forall t <- steps :: !t.Alloc?
    ensures Run(w, steps).loose == {}
    decreases |steps|
  {
    if steps != [] {
      StepKeeps(w, steps[0]);
      assert !steps[0].Alloc? && forall t <- steps[1..] :: t in steps;
      NoLoose(Do(w, steps[0]), steps[1..]);
    }
  }

  /** From the start of a Lua state: whatever ran, releasing every reference leaves the blocks in the hands of C code and
      nothing else, each address was given back as often as it was handed out, once less if it is such a block, and there
      are none if C code allocated nothing. */
  lemma AllGivenBack(steps: seq<Step>, p: Ptr)
    requires (StartHolds(); AllAllowed(START, steps))
    ensures Inv(START)
    ensures var w := Run(START, steps);
      var end := ReleaseSteps(|w.cells|);
      && Inv(w) && AllAllowed(w, end) && Run(w, end).blocks.Keys == w.loose
      && TimesObtained(START, steps, p)
         == TimesGivenBack(START, steps, p) + TimesGivenBack(w, end, p) + One(p in w.loose)
      && ((forall t <- steps :: !t.Alloc?) ==> w.loose == {})
  {
    RunKeeps(START, steps);
    var w := Run(START, steps);
    var end := ReleaseSteps(|w.cells|);
    ReleasedOwnNothing(w, |w.cells|, p);
    NothingLeaks(w);
    RunBalance(START, steps, p);
    RunBalance(w, end, p);
    if forall t <- steps :: !t.Alloc? {
      NoLoose(START, steps);
    }
  }

  // ---------- Resize ----------

  /** mem_resize succeeds exactly on a resizable memory for which nothing larger is wanted than the allocator can give. It
      changes one memory only; a failed one changes nothing. */
  lemma ResizeContents(w: World, i: nat, size: nat, filling: seq<byte>, s: Supply)
    requires Inv(w) && i < |w.cells| && CanSupply(w, w.cells[i].mem, size, s)
    ensures var (w', ok) := MemResize(w, i, size, filling, s);
      && (ok <==> w.cells[i].unref == Free && (size == w.cells[i].len || size == 0 || s.enough))
      && (!ok ==> w' == w)
      && (ok ==> w'.cells[i].len == size && Bytes(w', w'.cells[i].mem) == Resized(Bytes(w, w.cells[i].mem), size, filling))
      && (forall p <- w.blocks :: p != w.cells[i].mem ==> p in w'.blocks && w'.blocks[p] == w.blocks[p])
      && (forall j :: 0 <= j < |w.cells| && j != i ==> w'.cells[j] == w.cells[j])
      && w'.cleanups == w.cleanups && w'.loose == w.loose
  {
    var c := w.cells[i];
    assert HoldsLive(w, c);
    assert c.unref == Free && c.len == size ==> Resized(Bytes(w, c.mem), size, filling) == Bytes(w, c.mem);
    assert c.unref == Free && size == 0 ==> Bytes(w, 0) == [];
  }

  /** The new contents byte by byte: the old bytes up to the smaller size, then the filling over and over, or zeros. */
  lemma ResizedBytes(was: seq<byte>, size: nat, filling: seq<byte>)
    ensures |Resized(was, size, filling)| == size
    ensures forall k :: 0 <= k < size ==>
      Resized(was, size, filling)[k]
      == if k < |was| then was[k] else if filling == [] then 0 else filling[(k - |was|) % |filling|]
  {
  }

  // ---------- References and callbacks ----------

  /** What a reference holds after a step, and which callback of a client the step makes, in the order of the C code. */
  lemma StepCells(w: World, t: Step)
    requires Inv(w) && Allowed(w, t)
    ensures var w' := Do(w, t);
      match t
      case NewRef => w'.cells == w.cells + [Cell(0, 0, NoUnref)] && w'.cleanups == w.cleanups
      case Create => w'.cells == w.cells + [Cell(0, 0, Free)] && w'.cleanups == w.cleanups
      case Resize(i, size, filling, s) => w'.cleanups == w.cleanups
      case Alloc(_, _) => w'.cells == w.cells && w'.cleanups == w.cleanups
      case SetLoose(i, p) => w'.cells == w.cells[i := Cell(p, |w.blocks[p]|, Free)] && Hears(w, i, w', p != w.cells[i].mem)
      case SetRef(i, p, len, unref) => w'.cells == w.cells[i := Cell(p, len, unref)] && Hears(w, i, w', p != w.cells[i].mem)
      case Release(i) =>
        && w'.cells == (if w.cells[i].len == 0 then w.cells else w.cells[i := Cell(0, 0, NoUnref)])
        && Hears(w, i, w', w.cells[i].len != 0)
  {
    match t {
      case Release(i) => GcIs(w, i);
      case Resize(i, size, filling, s) => ResizeContents(w, i, size, filling, s);
      case _ =>
    }
  }

  /** If the memory of cell i is let go, the client whose it is hears of it once, with address and length; no one else does. */
  ghost predicate Hears(w: World, i: nat, w': World, letGo: bool)
    requires i < |w.cells|
  {
    var c := w.cells[i];
    w'.cleanups == w.cleanups + if letGo && c.unref == Foreign then [(c.mem, c.len)] else []
  }

  // ---------- The C routines ----------

  /** mem_resize case by case. */
  lemma ResizeCases(w: World, i: nat, size: nat, filling: seq<byte>, s: Supply)
    requires Inv(w) && i < |w.cells| && CanSupply(w, w.cells[i].mem, size, s)
    ensures var c := w.cells[i];
      && (c.unref != Free ==> MemResize(w, i, size, filling, s) == (w, false))
      && (c.unref == Free && c.len == size ==> MemResize(w, i, size, filling, s) == (w, true))
      && (c.unref == Free && c.len != size ==>
            MayRealloc(w, c.mem, c.len) &&
            var (blocks, mem) := Realloc(w, c.mem, c.len, size, s);
            if size != 0 && mem == 0 then blocks == w.blocks && MemResize(w, i, size, filling, s) == (w, false)
            else
              && (c.len < size ==> mem in blocks && |blocks[mem]| == size)
              && MemResize(w, i, size, filling, s)
                 == (World(if c.len < size then blocks[mem := Resized(blocks[mem][..c.len], size, filling)] else blocks,
                           w.cells[i := Cell(mem, size, Free)], w.loose, w.cleanups), true))
  {
    var c := w.cells[i];
    assert HoldsLive(w, c);
    hide Inv, Fill.Cycle;
    if c.unref == Free && c.len != size && size != 0 && s.enough {
      var (blocks, mem) := Realloc(w, c.mem, c.len, size, s);
      var was := Bytes(w, c.mem);
      assert |was| == c.len;
      if c.len < size {
        assert blocks[mem][..c.len] == was;
      } else {
        assert blocks[mem] == was[..size] == Resized(was, size, filling);
        assert blocks[mem := Resized(was, size, filling)] == blocks;
      }
    }
  }

  lemma GcIs(w: World, i: nat)
    requires Inv(w) && i < |w.cells|
    ensures w.cells[i].unref == Free ==> MayRealloc(w, w.cells[i].mem, w.cells[i].len)
    ensures RefGc(w, i) == if w.cells[i].len == 0 then w else CallUnref(w, w.cells[i]).(cells := w.cells[i := EMPTY])
    ensures w.cells[i].len != 0 ==> CallUnref(w, w.cells[i]).cells == w.cells
  {
    assert HoldsLive(w, w.cells[i]);
  }

  lemma ResetIs(w: World, i: nat, mem: Ptr, size: nat)
    requires i < |w.cells|
    ensures ResetRef(w, i, mem, size, Free, false) == w.(cells := w.cells[i := Cell(mem, size, Free)])
  {
  }

  class RefCell {
    var mem: Ptr
    var len: nat
    var unref: Unref

    constructor ()
      ensures View() == EMPTY
    {
      mem, len, unref := 0, 0, NoUnref;
    }

    function View(): Cell
      reads this
    {
      Cell(mem, len, unref)
    }
  }

  ghost function Views(refs: seq<RefCell>): (r: seq<Cell>)
    reads refs
    ensures |r| == |refs| && forall i :: 0 <= i < |refs| ==> r[i] == refs[i].View()
  {
    if refs == [] then [] else Views(refs[..|refs| - 1]) + [refs[|refs| - 1].View()]
  }

  class LuaState {
    var blocks: map<Ptr, seq<byte>>
    var refs: seq<RefCell>
    var cleanups: seq<(Ptr, nat)>
    ghost var loose: set<Ptr>

    ghost predicate Distinct()
      reads this
    {
      forall i, j :: 0 <= i < j < |refs| ==> refs[i] != refs[j]
    }

    ghost function Abstract(): World
      reads this, refs
    {
      World(blocks, Views(refs), loose, cleanups)
    }

    ghost predicate Valid()
      reads this, refs
    {
      Distinct() && Inv(Abstract())
    }

    /** luamem_realloc */
    method ReallocBlock(p: Ptr, osize: nat, nsize: nat, s: Supply) returns (r: Ptr)
      requires MayRealloc(Abstract(), p, osize) && CanSupply(Abstract(), p, nsize, s)
      modifies this`blocks
      ensures (blocks, r) == Realloc(old(Abstract()), p, osize, nsize, s)
    {
      if nsize == 0 {
        blocks := blocks - {p};
        return 0;
      } else if !s.enough {
        return 0;
      }
      var was := if p in blocks then blocks[p] else [];
      blocks := (blocks - {p})[s.at := if |was| >= nsize then was[..nsize] else was + s.garbage[|was|..]];
      return s.at;
    }

    /** The macro unrefmem. */
    method UnrefMem(ref: RefCell)
      requires ref.unref == Free ==> MayRealloc(Abstract(), ref.mem, ref.len)
      modifies this`blocks, this`cleanups
      ensures Abstract() == CallUnref(old(Abstract()), ref.View())
    {
      match ref.unref {
        case NoUnref =>
        case Free => blocks := blocks - {ref.mem};
        case Foreign => cleanups := cleanups + [(ref.mem, ref.len)];
      }
    }

    /** luamem_newref */
    method NewRefCell() returns (i: nat)
      requires Valid()
      modifies this`refs
      ensures Valid() && i == |old(refs)| && Abstract() == Do(old(Abstract()), NewRef)
      ensures fresh(refs[i]) && refs[..i] == old(refs)
    {
      ghost var w := Abstract();
      var ref := new RefCell();
      i := |refs|;
      refs := refs + [ref];
      assert Abstract().cells == w.cells + [EMPTY];
      AddCell(w, Abstract());
    }

    /** refgc */
    method CollectRef(i: nat)
      requires Valid() && i < |refs|
      modifies this`blocks, this`cleanups, refs[i]
      ensures Valid() && Abstract() == RefGc(old(Abstract()), i)
    {
      ghost var w := Abstract();
      RefGcKeeps(w, i);
      GcIs(w, i);
      hide Inv, HoldsLive, RefGc;
      var ref := refs[i];
      if ref.len != 0 {
        UnrefMem(ref);
        hide CallUnref;
        ghost var v := Abstract();
        assert v.cells == w.cells;
        ref.mem, ref.len, ref.unref := 0, 0, NoUnref;
        assert Abstract() == v.(cells := w.cells[i := EMPTY]);
      }
    }

    /** luamem_resetref */
    method ResetRefCell(i: nat, mem: Ptr, len: nat, unref: Unref, cleanup: bool)
      requires Distinct() && i < |refs|
      requires cleanup && mem != refs[i].mem && refs[i].unref == Free ==> MayRealloc(Abstract(), refs[i].mem, refs[i].len)
      modifies this`blocks, this`cleanups, refs[i]
      ensures Abstract() == ResetRef(old(Abstract()), i, mem, len, unref, cleanup)
    {
      ghost var w := Abstract();
      var ref := refs[i];
      if mem != ref.mem {
        if cleanup {
          UnrefMem(ref);
        }
        ref.mem := mem;
      }
      ref.len := len;
      ref.unref := unref;
      assert Abstract().cells == w.cells[i := Cell(mem, len, unref)];
    }

    /** The fill loop of mem_resize on the block at an address; an absent filling zeroes. */
    method FillBlock(p: Ptr, from: nat, n: nat, filling: seq<byte>)
      requires p in blocks && from + n == |blocks[p]| && 0 < n
      modifies this`blocks
      ensures blocks == old(blocks)[p := Resized(old(blocks)[p][..from], from + n, filling)]
    {
      ghost var kept := blocks[p][..from];
      var bytes := blocks[p];
      var block := new byte[from + n](k requires 0 <= k < |bytes| => bytes[k]);
      assert block[..] == bytes;
      if |filling| > 0 {
        Fill.MemFill(block, from, n, filling, 0);
        assert filling[0..] == filling;
      } else {
        forall k | from <= k < from + n {
          block[k] := 0;
        }
      }
      assert block[..] == Resized(kept, from + n, filling);
      blocks := blocks[p := block[..]];
    }

    /** mem_resize on the reference numbered i; false stands for a raised error. */
    method ResizeRef(i: nat, size: nat, filling: seq<byte>, s: Supply) returns (ok: bool)
      requires Valid() && i < |refs| && CanSupply(Abstract(), refs[i].mem, size, s)
      modifies this`blocks, this`cleanups, refs[i]
      ensures Valid() && (Abstract(), ok) == MemResize(old(Abstract()), i, size, filling, s)
    {
      ghost var w := Abstract();
      ResizeKeeps(w, i, size, filling, s);
      assert HoldsLive(w, w.cells[i]);
      ResizeCases(w, i, size, filling, s);
      hide Inv, HoldsLive, Realloc, Resized, MemResize, ResetRef;
      if refs[i].unref != Free {
        return false;
      }
      if refs[i].len != size {
        ok := Reallocate(i, size, filling, s);
      } else {
        ok := true;
      }
    }

    /** The call memory.resize: the length is checked first. */
    method ResizeCall(i: nat, size: S64, filling: seq<byte>, s: Supply) returns (ok: bool)
      requires Valid() && i < |refs| && (0 <= size < 0x7FFF_FFFF ==> CanSupply(Abstract(), refs[i].mem, size, s))
      modifies this`blocks, this`cleanups, refs[i]
      ensures Valid()
      ensures if 0 <= size < 0x7FFF_FFFF then (Abstract(), ok) == MemResize(old(Abstract()), i, size, filling, s)
              else !ok && Abstract() == old(Abstract())
    {
      hide Inv, MemResize;
      if !Slices.ValidLength(size) {
        return false;
      }
      ok := ResizeRef(i, size, filling, s);
    }

    /** The part of mem_resize that is run when the length changes. */
    method Reallocate(i: nat, size: nat, filling: seq<byte>, s: Supply) returns (ok: bool)
      requires Distinct() && i < |refs| && refs[i].len != size
      requires MayRealloc(Abstract(), refs[i].mem, refs[i].len) && CanSupply(Abstract(), refs[i].mem, size, s)
      requires var (b, mem) := Realloc(Abstract(), refs[i].mem, refs[i].len, size, s);
        mem != 0 && refs[i].len < size ==> mem in b && |b[mem]| == size
      modifies this`blocks, this`cleanups, refs[i]
      ensures var w := old(Abstract());
        var c := w.cells[i];
        var (b, mem) := Realloc(w, c.mem, c.len, size, s);
        && ok == !(size != 0 && mem == 0)
        && Abstract() ==
           if !ok then w.(blocks := b)
           else World(if c.len < size then b[mem := Resized(b[mem][..c.len], size, filling)] else b,
                      w.cells[i := Cell(mem, size, Free)], w.loose, w.cleanups)
    {
      ghost var w := Abstract();
      hide Realloc, Resized, ResetRef, MayRealloc, CanSupply, Bytes;
      var ref := refs[i];
      var len := ref.len;
      var n := if len < size then size - len else 0;
      var resized := ReallocBlock(ref.mem, len, size, s);
      ghost var b := blocks;
      assert Abstract() == w.(blocks := b);
      if size != 0 && resized == 0 {
        return false;
      }
      ResetIs(w.(blocks := b), i, resized, size);
      ResetRefCell(i, resized, size, Free, false);
      ghost var v := World(b, w.cells[i := Cell(resized, size, Free)], w.loose, w.cleanups);
      assert Abstract() == v;
      if n > 0 {
        FillBlock(resized, len, n, filling);
        assert Abstract() == v.(blocks := b[resized := Resized(b[resized][..len], size, filling)]);
      }
      return true;
    }
  }
}
