/** References that own allocator blocks (luamem_Ref in luamem.c) and mem_resize. */
module RefCells {
  import opened Machine
  import Fill

  /** An address; 0 is NULL. */
  type Ptr = nat

  /** The unref callback: none, luamem_free, or one of a client for memory that is not the allocator's. */
  datatype Unref = NoUnref | Free | Foreign

  datatype Cell = Cell(mem: Ptr, len: nat, unref: Unref)

  /** Live allocator blocks with their bytes, the reference cells, blocks in the hands of C code, and the calls made to
      client callbacks. */
  datatype World = World(blocks: map<Ptr, seq<byte>>, cells: seq<Cell>, loose: set<Ptr>, cleanups: seq<(Ptr, nat)>)

  const EMPTY: Cell := Cell(0, 0, NoUnref)

  predicate Owns(c: Cell, p: Ptr) {
    c.unref == Free && c.mem == p && p != 0
  }

  /** Every cell that frees its memory holds a live block and knows its size. */
  predicate HoldsLive(w: World, c: Cell) {
    c.unref == Free ==>
      if c.mem == 0 then c.len == 0
      else c.mem in w.blocks && |w.blocks[c.mem]| == c.len && c.mem !in w.loose
  }

  /** Each live block has exactly one owner: one cell, or the C code that asked for it. */
  ghost predicate Inv(w: World) {
    && 0 !in w.blocks && (forall p <- w.blocks :: |w.blocks[p]| > 0) && w.loose <= w.blocks.Keys
    && (forall i :: 0 <= i < |w.cells| ==> HoldsLive(w, w.cells[i]))
    && (forall i, j :: 0 <= i < j < |w.cells| && w.cells[i].unref == Free && w.cells[j].unref == Free ==>
          w.cells[i].mem == 0 || w.cells[i].mem != w.cells[j].mem)
    && (forall p <- w.blocks :: p in w.loose || HasOwner(w.cells, p))
  }

  ghost predicate HasOwner(cells: seq<Cell>, p: Ptr) {
    exists i :: 0 <= i < |cells| && Owns(cells[i], p)
  }

  // ---------- The allocator ----------

  /** What a lua_Alloc function may be given: NULL, or a live block with its true size. */
  predicate MayRealloc(w: World, p: Ptr, osize: nat) {
    p != 0 ==> p in w.blocks && |w.blocks[p]| == osize
  }

  /** Where a new block goes, what its new bytes hold, and whether there is memory for it. */
  datatype Supply = Supply(at: Ptr, garbage: seq<byte>, enough: bool)

  predicate CanSupply(w: World, p: Ptr, nsize: nat, s: Supply) {
    s.at != 0 && (s.at == p || s.at !in w.blocks) && |s.garbage| == nsize
  }

  function Bytes(w: World, p: Ptr): seq<byte> {
    if p in w.blocks then w.blocks[p] else []
  }

  /** alloc(ud, p, osize, nsize), as luamem_realloc calls it: the new address, and the blocks after the call. */
  function Realloc(w: World, p: Ptr, osize: nat, nsize: nat, s: Supply): (r: (map<Ptr, seq<byte>>, Ptr))
    requires MayRealloc(w, p, osize) && CanSupply(w, p, nsize, s)
  {
    if nsize == 0 then (w.blocks - {p}, 0)
    else if !s.enough then (w.blocks, 0)
    else
      var was := Bytes(w, p);
      ((w.blocks - {p})[s.at := if |was| >= nsize then was[..nsize] else was + s.garbage[|was|..]], s.at)
  }

  // ---------- The operations ----------

  /** The macro unrefmem: luamem_free frees the block, a client's callback is called with memory and length. */
  function CallUnref(w: World, c: Cell): World
    requires c.unref == Free ==> MayRealloc(w, c.mem, c.len)
  {
    match c.unref
    case NoUnref => w
    case Free => w.(blocks := w.blocks - {c.mem})
    case Foreign => w.(cleanups := w.cleanups + [(c.mem, c.len)])
  }

  /** refgc, run by __gc and by __close. A reference of length 0 is left alone, so a client's callback never hears of it. */
  function RefGc(w: World, i: nat): World
    requires Inv(w) && i < |w.cells|
  {
    if w.cells[i].len == 0 then w
    else CallUnref(w, w.cells[i]).(cells := w.cells[i := EMPTY])
  }

  /** luamem_resetref */
  function ResetRef(w: World, i: nat, mem: Ptr, len: nat, unref: Unref, cleanup: bool): World
    requires i < |w.cells|
    requires cleanup && mem != w.cells[i].mem && w.cells[i].unref == Free ==> MayRealloc(w, w.cells[i].mem, w.cells[i].len)
  {
    var after := if mem != w.cells[i].mem && cleanup then CallUnref(w, w.cells[i]) else w;
    after.(cells := w.cells[i := Cell(mem, len, unref)])
  }

  /** The bytes of a memory after mem_resize: the common prefix, then the filling over and over (zeros without one). */
  function Resized(was: seq<byte>, size: nat, filling: seq<byte>): (r: seq<byte>)
    ensures |r| == size
  {
    if size <= |was| then was[..size]
    else was + if filling == [] then seq(size - |was|, _ => 0) else Fill.Cycle(filling, size - |was|)
  }

  /** mem_resize; false stands for a raised error. */
  function MemResize(w: World, i: nat, size: nat, filling: seq<byte>, s: Supply): (r: (World, bool))
    requires Inv(w) && i < |w.cells| && CanSupply(w, w.cells[i].mem, size, s)
  {
    var c := w.cells[i];
    if c.unref != Free then (w, false)
    else if c.len == size then (w, true)
    else
      var (blocks, mem) := Realloc(w, c.mem, c.len, size, s);
      if size != 0 && mem == 0 then (w, false)
      else (World(if mem == 0 then blocks else blocks[mem := Resized(Bytes(w, c.mem), size, filling)],
                  w.cells[i := Cell(mem, size, Free)], w.loose, w.cleanups), true)
  }

  /** One thing that can happen to the references of a Lua state. */
  datatype Step =
    | NewRef                                                   // luamem_newref
    | Create                                                   // memory.create()
    | Resize(i: nat, size: nat, filling: seq<byte>, s: Supply) // memory.resize(m, size, filling)
    | Alloc(size: nat, s: Supply)                              // C code allocates with luamem_realloc
    | SetLoose(i: nat, p: Ptr)                                 // luamem_setref hands such a block to a reference
    | SetRef(i: nat, p: Ptr, len: nat, unref: Unref)           // luamem_setref with a client's callback, or with NULL
    | Release(i: nat)                                          // __close or __gc

  /** Memory that a reference may point to without owning it: a client's, or with no callback also that of C code. */
  predicate MayBorrow(w: World, p: Ptr, unref: Unref) {
    unref != Free && (p !in w.blocks || (unref == NoUnref && p in w.loose))
  }

  predicate Allowed(w: World, t: Step) {
    match t
    case NewRef => true
    case Create => true
    case Resize(i, size, _, s) => i < |w.cells| && CanSupply(w, w.cells[i].mem, size, s)
    case Alloc(size, s) => CanSupply(w, 0, size, s)
    case SetLoose(i, p) => i < |w.cells| && p in w.loose && p in w.blocks
    case SetRef(i, p, _, unref) => i < |w.cells| && MayBorrow(w, p, unref)
    case Release(i) => i < |w.cells|
  }

  function Do(w: World, t: Step): World
    requires Inv(w) && Allowed(w, t)
  {
    match t
    case NewRef => w.(cells := w.cells + [EMPTY])
    case Create => ResetRef(w.(cells := w.cells + [EMPTY]), |w.cells|, 0, 0, Free, false)
    case Resize(i, size, filling, s) => MemResize(w, i, size, filling, s).0
    case Alloc(size, s) =>
      var (blocks, p) := Realloc(w, 0, 0, size, s);
      w.(blocks := blocks, loose := if p == 0 then w.loose else w.loose + {p})
    case SetLoose(i, p) => ResetRef(w, i, p, |w.blocks[p]|, Free, true).(loose := w.loose - {p})
    case SetRef(i, p, len, unref) => ResetRef(w, i, p, len, unref, true)
    case Release(i) => RefGc(w, i)
  }

  // ---------- The invariant ----------

  /** A cell that owns no live block of its own. */
  predicate OwnsNothing(c: Cell) {
    c.unref == Free ==> c.mem == 0
  }

  /** Replacing a cell and the block it owns (if any) by a cell that owns nothing. */
  lemma Drop(w: World, i: nat, c: Cell, w': World)
    requires Inv(w) && i < |w.cells| && OwnsNothing(c) && (c.unref == Free ==> c.len == 0)
    requires w'.cells == w.cells[i := c] && w'.loose == w.loose
    requires w'.blocks == if w.cells[i].unref == Free then w.blocks - {w.cells[i].mem} else w.blocks
    ensures Inv(w')
  {
    forall p | p in w'.blocks
      ensures p in w'.loose || HasOwner(w'.cells, p)
    {
      if p !in w.loose {
        var j :| 0 <= j < |w.cells| && Owns(w.cells[j], p);
        assert j != i;
        assert Owns(w'.cells[j], p);
      }
    }
  }

  /** Giving a cell that owns nothing a live block that no cell owns. */
  lemma Give(w: World, i: nat, p: Ptr, w': World)
    requires Inv(w) && i < |w.cells| && OwnsNothing(w.cells[i]) && p != 0
    requires forall j :: 0 <= j < |w.cells| ==> !Owns(w.cells[j], p)
    requires p in w'.blocks && |w'.blocks[p]| > 0
    requires w'.cells == w.cells[i := Cell(p, |w'.blocks[p]|, Free)] && w'.loose == w.loose - {p}
    requires w'.blocks == w.blocks[p := w'.blocks[p]]
    ensures Inv(w')
  {
    forall q | q in w'.blocks
      ensures q in w'.loose || HasOwner(w'.cells, q)
    {
      if q == p {
        assert Owns(w'.cells[i], p);
      } else if q !in w.loose {
        var j :| 0 <= j < |w.cells| && Owns(w.cells[j], q);
        assert Owns(w'.cells[j], q);
      }
    }
    forall j | 0 <= j < |w'.cells|
      ensures HoldsLive(w', w'.cells[j])
    {
      if j != i {
        assert HoldsLive(w, w.cells[j]) && !Owns(w.cells[j], p);
      }
    }
    forall j, k | 0 <= j < k < |w'.cells| && w'.cells[j].unref == Free && w'.cells[k].unref == Free
      ensures w'.cells[j].mem == 0 || w'.cells[j].mem != w'.cells[k].mem
    {
      assert !Owns(w.cells[j], p) && !Owns(w.cells[k], p);
    }
  }

  lemma AddCell(w: World, w': World)
    requires Inv(w) && w' == w.(cells := w.cells + [EMPTY])
    ensures Inv(w')
  {
    forall p | p in w'.blocks
      ensures p in w'.loose || HasOwner(w'.cells, p)
    {
      if p !in w.loose {
        var j :| 0 <= j < |w.cells| && Owns(w.cells[j], p);
        assert Owns(w'.cells[j], p);
      }
    }
  }

  /** When refgc frees, it hands the allocator a live block with its true size; the invariant survives. */
  lemma RefGcKeeps(w: World, i: nat)
    requires Inv(w) && i < |w.cells|
    ensures Inv(RefGc(w, i)) && |RefGc(w, i).cells| == |w.cells| && RefGc(w, i).loose == w.loose
  {
    var c := w.cells[i];
    assert HoldsLive(w, c);
    if c.len != 0 {
      Drop(w, i, EMPTY, RefGc(w, i));
    }
  }

  /** luamem_setref on memory that the reference is not to own. */
  lemma SetRefKeeps(w: World, i: nat, p: Ptr, len: nat, unref: Unref)
    requires Inv(w) && i < |w.cells| && MayBorrow(w, p, unref)
    ensures ResetRef.requires(w, i, p, len, unref, true) && Inv(ResetRef(w, i, p, len, unref, true))
  {
    var c := w.cells[i];
    assert HoldsLive(w, c);
    assert c.unref == Free && c.mem == p ==> p == 0 && w.blocks - {0} == w.blocks;
    Drop(w, i, Cell(p, len, unref), ResetRef(w, i, p, len, unref, true));
  }

  lemma NoOwnerOfLoose(w: World, p: Ptr)
    requires Inv(w) && p in w.loose
    ensures forall j :: 0 <= j < |w.cells| ==> !Owns(w.cells[j], p)
  {
    forall j | 0 <= j < |w.cells| ensures !Owns(w.cells[j], p) {
      assert HoldsLive(w, w.cells[j]);
    }
  }

  /** luamem_setref on a block of the allocator that no cell owns. */
  lemma SetLooseKeeps(w: World, i: nat, p: Ptr)
    requires Inv(w) && i < |w.cells| && p in w.loose && p in w.blocks
    ensures ResetRef.requires(w, i, p, |w.blocks[p]|, Free, true)
    ensures Inv(ResetRef(w, i, p, |w.blocks[p]|, Free, true).(loose := w.loose - {p}))
  {
    var c := w.cells[i];
    assert HoldsLive(w, c);
    NoOwnerOfLoose(w, p);
    assert !Owns(c, p);
    var dropped := CallUnref(w, c).(cells := w.cells[i := EMPTY], cleanups := w.cleanups);
    Drop(w, i, EMPTY, dropped);
    var w' := ResetRef(w, i, p, |w.blocks[p]|, Free, true).(loose := w.loose - {p});
    forall j | 0 <= j < |w.cells| ensures !Owns(dropped.cells[j], p) {}
    assert w'.blocks == dropped.blocks[p := w'.blocks[p]];
    Give(dropped, i, p, w');
  }

  /** mem_resize hands the allocator the true old size, and the invariant survives its success and its failure. */
  lemma ResizeKeeps(w: World, i: nat, size: nat, filling: seq<byte>, s: Supply)
    requires Inv(w) && i < |w.cells| && CanSupply(w, w.cells[i].mem, size, s)
    ensures Inv(MemResize(w, i, size, filling, s).0)
  {
    var c := w.cells[i];
    assert HoldsLive(w, c);
    var w' := MemResize(w, i, size, filling, s).0;
    if c.unref == Free && c.len != size && (size == 0 || s.enough) {
      var free := Cell(0, 0, Free);
      var dropped := w.(blocks := w.blocks - {c.mem}, cells := w.cells[i := free]);
      Drop(w, i, free, dropped);
      if size > 0 {
        forall j | 0 <= j < |w.cells| ensures !Owns(dropped.cells[j], s.at) {
          assert HoldsLive(w, w.cells[j]);
        }
        assert s.at !in w.loose;
        assert w'.loose == dropped.loose - {s.at};
        assert w'.blocks == dropped.blocks[s.at := w'.blocks[s.at]];
        Give(dropped, i, s.at, w');
      }
    }
  }

  lemma AllocKeeps(w: World, size: nat, s: Supply)
    requires Inv(w) && CanSupply(w, 0, size, s)
    ensures Inv(Do(w, Alloc(size, s)))
  {
    var w' := Do(w, Alloc(size, s));
    assert w.blocks - {0} == w.blocks;
    forall p | p in w'.blocks
      ensures p in w'.loose || HasOwner(w'.cells, p)
    {
      assert p == s.at || p in w.blocks;
    }
    forall j | 0 <= j < |w'.cells| ensures HoldsLive(w', w'.cells[j]) {
      assert HoldsLive(w, w.cells[j]);
    }
  }

  lemma CreateKeeps(w: World)
    requires Inv(w)
    ensures Inv(Do(w, Create))
  {
    var added := w.(cells := w.cells + [EMPTY]);
    AddCell(w, added);
    var w' := Do(w, Create);
    assert w'.cells == added.cells[|w.cells| := Cell(0, 0, Free)];
    Drop(added, |w.cells|, Cell(0, 0, Free), w');
  }

  lemma StepKeeps(w: World, t: Step)
    requires Inv(w) && Allowed(w, t)
    ensures Inv(Do(w, t))
  {
    match t {
      case NewRef => AddCell(w, Do(w, t));
      case Create => CreateKeeps(w);
      case Resize(i, size, filling, s) => ResizeKeeps(w, i, size, filling, s);
      case Alloc(size, s) => AllocKeeps(w, size, s);
      case SetLoose(i, p) => SetLooseKeeps(w, i, p);
      case SetRef(i, p, len, unref) => SetRefKeeps(w, i, p, len, unref);
      case Release(i) => RefGcKeeps(w, i);
    }
  }
}
