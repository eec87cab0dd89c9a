/** The growable buffer behind luamem_addvalue (luamem.c). */
module GrowBuffer {
  import opened Machine

  const MAX_SIZET: U64 := 0xFFFF_FFFF_FFFF_FFFF

  /** newbuffsize for a buffer of the given size that holds n bytes; None stands for the raised error. */
  function NewBuffSize(size: U64, n: U64, sz: U64): Option<U64> {
    var newsize := Wrap(size * 2);
    if MAX_SIZET - sz < n then None
    else if newsize < n + sz then Some(n + sz)
    else Some(newsize)
  }

  /** The error is raised exactly when the bytes cannot be counted; otherwise the new size suffices, and when the buffer
      had to grow it grew, whether or not doubling wrapped around. */
  lemma NewSizeSuffices(size: U64, n: U64, sz: U64)
    ensures NewBuffSize(size, n, sz).None? <==> n + sz > MAX_SIZET
    ensures NewBuffSize(size, n, sz).Some? ==> NewBuffSize(size, n, sz).value >= n + sz
    ensures NewBuffSize(size, n, sz).Some? && size < n + sz ==> NewBuffSize(size, n, sz).value > size
  {
  }

  /** A growing buffer at least doubles exactly when doubling does not wrap around; then it stays below twice the need. */
  lemma Doubles(size: U64, n: U64, sz: U64)
    requires n <= size < n + sz <= MAX_SIZET
    ensures NewBuffSize(size, n, sz).value >= 2 * size <==> size < TWO63
    ensures size < TWO63 ==> NewBuffSize(size, n, sz).value < 2 * (n + sz)
    ensures NewBuffSize(size, n, sz).value == if size < TWO63 && 2 * size > n + sz then 2 * size else n + sz
  {
    assert size >= TWO63 ==> Wrap(size * 2) == size * 2 - TWO64;
  }

  // ---------- The cost of growth ----------

  /** Capacity, bytes used, whether the bytes live in a box, and bytes copied by growth so far. */
  datatype Account = Account(size: U64, n: U64, boxed: bool, copied: nat)

  /** The account after adding len bytes, with or without memory for a larger box; None stands for a raised error. Moving
      out of the initial area copies the bytes used, resizing a box may copy all of it. */
  function Add(a: Account, len: U64, enough: bool): Option<Account>
    requires a.n <= a.size
  {
    if a.size - a.n >= len then Some(a.(n := a.n + len))
    else match NewBuffSize(a.size, a.n, len)
      case None => None
      case Some(newsize) =>
        if !enough then None
        else
          NewSizeSuffices(a.size, a.n, len);
          Some(Account(newsize, a.n + len, true, a.copied + if a.boxed then a.size else a.n))
  }

  /** Adding succeeds if there is room, and otherwise exactly if the sum can be counted and there is memory; it never copies
      unless it grows. */
  lemma AddSucceeds(a: Account, len: U64, enough: bool)
    requires a.n <= a.size
    ensures var r := Add(a, len, enough);
      && (r.Some? <==> a.n + len <= a.size || (a.n + len < 0x1_0000_0000_0000_0000 && enough))
      && (a.n + len <= a.size ==> r == Some(Account(a.size, a.n + len, a.boxed, a.copied)))
      && (r.Some? && a.n + len > a.size ==>
            r.value.boxed && r.value.size > a.size && r.value.copied == a.copied + if a.boxed then a.size else a.n)
  {
    NewSizeSuffices(a.size, a.n, len);
  }

  /** Adding one value after the other; an addition that fails leaves the buffer as it was. */
  function AddAll(a: Account, lens: seq<(U64, bool)>): (r: Account)
    requires a.n <= a.size
    ensures r.n <= r.size && r.size >= a.size
    decreases |lens|
  {
    if lens == [] then a
    else match Add(a, lens[0].0, lens[0].1)
      case None => AddAll(a, lens[1..])
      case Some(b) => AddFits(a, lens[0].0, lens[0].1); AddAll(b, lens[1..])
  }

  lemma AddFits(a: Account, len: U64, enough: bool)
    requires a.n <= a.size && Add(a, len, enough).Some?
    ensures var b := Add(a, len, enough).value; b.n == a.n + len <= b.size && b.size >= a.size
  {
    NewSizeSuffices(a.size, a.n, len);
  }

  /** No capacity that is outgrown on the way is so large that doubling it would wrap around. */
  predicate NeverWraps(a: Account, lens: seq<(U64, bool)>)
    requires a.n <= a.size
    decreases |lens|
  {
    lens == [] ||
    match Add(a, lens[0].0, lens[0].1)
    case None => NeverWraps(a, lens[1..])
    case Some(b) =>
      AddFits(a, lens[0].0, lens[0].1);
      (b.size > a.size ==> a.size < TWO63) && NeverWraps(b, lens[1..])
  }

  /** Over any sequence of additions in which doubling never wraps around, growth copies at most as many bytes as the
      capacity has grown by. */
  lemma {:induction false} CopiesArePaidFor(a: Account, lens: seq<(U64, bool)>)
    requires a.n <= a.size && NeverWraps(a, lens)
    ensures AddAll(a, lens).copied - a.copied <= AddAll(a, lens).size - a.size
    decreases |lens|
  {
    if lens != [] {
      var b := Add(a, lens[0].0, lens[0].1);
      if b.None? {
        CopiesArePaidFor(a, lens[1..]);
      } else {
        AddFits(a, lens[0].0, lens[0].1);
        CopiesArePaidFor(b.value, lens[1..]);
        if a.size - a.n < lens[0].0 {
          NewSizeSuffices(a.size, a.n, lens[0].0);
          Doubles(a.size, a.n, lens[0].0);
        }
      }
    }
  }

  // ---------- The C routines ----------

  class Buffer {
    /** the bytes, in the initial area or in the box; their number is the field size */
    var b: array<byte>
    var n: nat
    /** the box, and its size as recorded for the allocator */
    var box: array?<byte>
    var bsize: U64
    ghost var copied: nat
    /** areas that the allocator has taken back */
    ghost var freed: set<array<byte>>

    ghost predicate Valid()
      reads this, b, box
    {
      n <= b.Length < TWO64 && BoxValid() && (box != null ==> box == b)
    }

    /** The box holds nothing, or an area of the allocator whose true size it knows. */
    ghost predicate BoxValid()
      reads this, box
    {
      if box == null then bsize == 0 else bsize == box.Length && box !in freed
    }

    ghost function Abstract(): Account
      requires Valid()
      reads this, b, box
    {
      Account(b.Length, n, box != null, copied)
    }

    ghost function Contents(): seq<byte>
      requires Valid()
      reads this, b, box
    {
      b[..n]
    }

    constructor (init: array<byte>)
      requires init.Length < TWO64
      ensures Valid() && Contents() == [] && Abstract() == Account(init.Length, 0, false, 0) && b == init && freed == {}
    {
      b, n, box, bsize, copied, freed := init, 0, null, 0, 0, {};
    }

    /** The allocator: callers pass NULL, or an area it has not taken back with the true size. */
    method Realloc(p: array?<byte>, osize: nat, nsize: U64, enough: bool) returns (r: array?<byte>)
      requires if p == null then osize == 0 else osize == p.Length && p !in freed
      modifies this`freed
      ensures r != null <==> nsize > 0 && enough
      ensures freed == old(freed) + if p != null && (nsize == 0 || enough) then {p} else {}
      ensures r != null ==> fresh(r) && r.Length == nsize && r !in freed
      ensures r != null ==> forall k :: 0 <= k < osize && k < nsize ==> r[k] == p[k]
    {
      if nsize > 0 && !enough {
        return null;
      }
      r := null;
      if nsize > 0 {
        var area := new byte[nsize](_ => 0);
        if p != null {
          forall k | 0 <= k < osize && k < nsize {
            area[k] := p[k];
          }
        }
        r := area;
      }
      if p != null {
        freed := freed + {p};
      }
    }

    /** resizebox; false stands for the raised error. */
    method ResizeBox(newsize: U64, enough: bool) returns (ok: bool)
      requires BoxValid()
      modifies this`box, this`bsize, this`freed
      ensures BoxValid() && (ok <==> newsize == 0 || enough)
      ensures freed == old(freed) + if ok && old(box) != null then {old(box)} else {}
      ensures !ok ==> box == old(box) && bsize == old(bsize)
      ensures ok ==> bsize == newsize && (box != null <==> newsize > 0) && (box != null ==> fresh(box))
      ensures ok ==> forall k :: 0 <= k < old(bsize) && k < newsize ==> box[k] == old(box)[k]
    {
      var temp := Realloc(box, bsize, newsize, enough);
      if temp == null && newsize > 0 {
        return false;
      }
      box := temp;
      bsize := newsize;
      return true;
    }

    /** boxgc: what a first call frees a second one does not free again. */
    method BoxGc()
      requires BoxValid()
      modifies this`box, this`bsize, this`freed
      ensures BoxValid() && box == null
      ensures freed == old(freed) + if old(box) != null then {old(box)} else {}
    {
      var _ := ResizeBox(0, true);
    }

    /** prepbuffsize: makes room for sz more bytes and gives the offset of the free area; false stands for a raised error. */
    method PrepBuffSize(sz: U64, enough: bool) returns (ok: bool, at: nat)
      requires Valid()
      modifies this
      ensures Valid() && Contents() == old(Contents()) && n == old(n) && (b == old(b) || fresh(b))
      ensures ok == Add(old(Abstract()), sz, enough).Some?
      ensures if ok then at == n && b.Length - n >= sz
                         && Abstract().(n := n + sz) == Add(old(Abstract()), sz, enough).value
              else Abstract() == old(Abstract()) && b == old(b)
      ensures freed == old(freed) + if b != old(b) && old(box) != null then {old(box)} else {}
    {
      if b.Length - n >= sz {
        return true, n;
      }
      var newsize := NewBuffSize(b.Length, n, sz);
      NewSizeSuffices(b.Length, n, sz);
      if newsize.None? {
        return false, 0;
      }
      var boxed := box != null;
      ok := ResizeBox(newsize.value, enough);
      if !ok {
        return false, 0;
      }
      var newbuff: array<byte> := box;
      if !boxed {
        forall k | 0 <= k < n {
          newbuff[k] := b[k];
        }
      }
      assert newbuff[..n] == b[..n];
      copied := copied + if boxed then b.Length else n;
      b := newbuff;
      return true, n;
    }

    /** luamem_addvalue: appends s, or raises an error and leaves the buffer as it was. */
    method AddValue(s: seq<byte>, enough: bool) returns (ok: bool)
      requires Valid() && |s| < TWO64
      modifies this, b
      ensures Valid() && ok == Add(old(Abstract()), |s|, enough).Some?
      ensures if ok then Contents() == old(Contents()) + s && Abstract() == Add(old(Abstract()), |s|, enough).value
              else Contents() == old(Contents()) && Abstract() == old(Abstract())
    {
      var at;
      ok, at := PrepBuffSize(|s|, enough);
      if !ok {
        return;
      }
      ghost var was := b[..n];
      forall k | 0 <= k < |s| {
        b[at + k] := s[k];
      }
      n := n + |s|;
      assert b[..n] == was + s;
    }
  }
}
