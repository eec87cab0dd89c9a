/** Cyclic filling of memory (memfill and mem_fill in lmemlib.c). */
module Fill {
  import opened Machine
  import opened Bits
  import opened Slices

  /** The first size bytes of s repeated for ever. */
  function Cycle(s: seq<byte>, size: nat): (r: seq<byte>)
    requires s != []
    ensures |r| == size
    ensures forall k {:trigger r[k]} :: 0 <= k < size ==> r[k] == s[k % |s|]
  {
    seq(size, k requires 0 <= k < size => s[k % |s|])
  }

  function CycleAt(s: seq<byte>, k: nat): byte {
    if s == [] then 0 else s[k % |s|]
  }

  /** memmove of n bytes of a separate source into mem. */
  method MemMove(mem: array<byte>, at: nat, s: seq<byte>, from: nat, n: nat)
    requires at + n <= mem.Length && from + n <= |s|
    modifies mem
    ensures mem[..] == Splice(old(mem[..]), at, s[from..from + n])
  {
    forall k | 0 <= k < n {
      mem[at + k] := s[from + k];
    }
  }


  /** memfill: the size bytes of mem from offset at are set to the bytes of s from offset from, over and over. */
  method MemFill(mem: array<byte>, at: nat, size: nat, s: seq<byte>, from: nat)
    requires at + size <= mem.Length
    requires from < |s| || (from == |s| && size == 0)
    modifies mem
    ensures mem[..] == if size == 0 then old(mem[..])
                       else Splice(old(mem[..]), at, Cycle(s[from..], size))
  {
    hide CycleAt;
    var len := |s| - from;
    var todo := size;
    var p := at;
    ghost var src := s[from..];
    var first := true;
    while first || todo > 0
      invariant 0 <= todo <= size && p + todo == at + size && (first ==> todo == size)
      invariant todo > 0 ==> len > 0 && (p - at) % len == 0
      invariant forall j :: 0 <= j < mem.Length && !(at <= j < p) ==> mem[j] == old(mem[j])
      invariant forall j :: at <= j < p ==> mem[j] == CycleAt(src, j - at)
      decreases first, todo
    {
      var n := if todo < len then todo else len;
      MemMove(mem, p, s, from, n);
      if n > 0 {
        LapAt(src, p - at);
      }
      p := p + n;
      todo := todo - n;
      first := false;
    }
    if size > 0 {
      CycleIs(src, size);
    }
  }

  lemma CycleIs(s: seq<byte>, size: nat)
    requires s != []
    ensures forall k :: 0 <= k < size ==> Cycle(s, size)[k] == CycleAt(s, k)
  {
  }

  lemma LapAt(src: seq<byte>, done: nat)
    requires src != [] && done % |src| == 0
    ensures (done + |src|) % |src| == 0
    ensures forall k :: 0 <= k < |src| ==> CycleAt(src, done + k) == src[k]
  {
    NextLap(done, 0, |src|);
    forall k | 0 <= k < |src| ensures CycleAt(src, done + k) == src[k] {
      NextLap(done, k, |src|);
    }
  }

  /** After a whole number of laps the source starts over. */
  lemma NextLap(done: int, j: int, len: int)
    requires len > 0 && done % len == 0 && 0 <= j < len
    ensures (done + j) % len == j && (done + len) % len == 0
  {
    var q := done / len;
    assert done == q * len;
    DivModUnique(done + j, len, q, j);
    assert (q + 1) * len == done + len;
    DivModUnique(done + len, len, q + 1, 0);
  }

  datatype FillSource = Code(c: S64) | Bytes(s: seq<byte>, o: S64)

  /** The bytes the fill repeats; None for a number that is no byte. */
  function Pattern(src: FillSource): Option<seq<byte>> {
    match src
    case Code(c) => if IsCode(c) then Some([ToUnsigned(c)]) else None
    case Bytes(s, o) => Some(Slice(s, o, -1))
  }

  /** A number fills with itself if it is a byte; a source is taken from its position on, counted from 1 or back from its
      end, and all of it is taken from position 0 or one before its start, none of it from one past its end. */
  lemma PatternIs(c: S64, s: seq<byte>, o: S64)
    ensures Pattern(Code(c)) == if 0 <= c <= 255 then Some([c]) else None
    ensures 1 <= o <= |s| ==> Pattern(Bytes(s, o)) == Some(s[o - 1..])
    ensures -|s| <= o < 0 ==> Pattern(Bytes(s, o)) == Some(s[|s| + o..])
    ensures o > |s| ==> Pattern(Bytes(s, o)) == Some([])
    ensures o == 0 || o < -|s| ==> Pattern(Bytes(s, o)) == Some(s)
  {
    assert s[..|s|] == s;
    assert EndOf(-1, |s|) == |s|;
    assert s[0..] == s;
  }

  /** mem_fill between Lua positions i and j; false stands for a raised error. */
  method MemFillRange(mem: array<byte>, src: FillSource, i: S64, j: S64) returns (ok: bool)
    requires mem.Length < TWO63 && (src.Bytes? ==> |src.s| < TWO63)
    modifies mem
    ensures ok <==> Pattern(src).Some?
    ensures var a, b := StartOf(i, mem.Length), EndOf(j, mem.Length);
            mem[..] == if ok && a <= b && Pattern(src).value != []
                       then Splice(old(mem[..]), a - 1, Cycle(Pattern(src).value, b - a + 1))
                       else old(mem[..])
  {
    var a, b := PosRelatI(i, mem.Length), GetEndPos(j, mem.Length);
    var s: seq<byte>;
    var os: U64;
    match src {
      case Code(c) =>
        if !IsCode(c) {
          return false;
        }
        s, os := [ToUnsigned(c)], 1;
        assert s[0..] == s;
      case Bytes(t, o) =>
        s, os := t, PosRelatI(o, |t|);
        assert EndOf(-1, |t|) == |t|;
    }
    if a <= b && os <= |s| {
      os := os - 1;
      MemFill(mem, a - 1, b - a + 1, s, os);
      assert s[os..] == Pattern(src).value;
    }
    return true;
  }
}
