/** Substring search (lmemfind and mem_find in lmemlib.c). */
module Search {
  import opened Machine
  import opened Slices

  /** memchr: the first place of c among the n bytes of s from from on. */
  function MemChr(s: seq<byte>, from: nat, c: byte, n: nat): (r: Option<nat>)
    requires from + n <= |s|
    ensures r.None? ==> c !in s[from..from + n]
    ensures r.Some? ==> from <= r.value < from + n && s[r.value] == c && c !in s[from..r.value]
    decreases n
  {
    if n == 0 then None
    else if s[from] == c then Some(from)
    else
      var r := MemChr(s, from + 1, c, n - 1);
      assert s[from..from + n] == [s[from]] + s[from + 1..from + n];
      assert r.Some? ==> s[from..r.value] == [s[from]] + s[from + 1..r.value];
      r
  }

  lemma {:induction false} MemChrFinds(s: seq<byte>, from: nat, c: byte, n: nat, at: nat)
    requires from <= at < from + n <= |s| && s[at] == c && forall k :: from <= k < at ==> s[k] != c
    ensures MemChr(s, from, c, n) == Some(at)
    decreases n
  {
    if from < at {
      MemChrFinds(s, from + 1, c, n - 1, at);
    }
  }

  /** needle occurs in hay at offset at. */
  predicate OccursAt(hay: seq<byte>, needle: seq<byte>, at: nat) {
    at + |needle| <= |hay| && hay[at..at + |needle|] == needle
  }

  /** r is the least offset of needle in hay, or None because there is none. */
  ghost predicate IsFirst(hay: seq<byte>, needle: seq<byte>, r: Option<nat>) {
    match r
    case None => forall k: nat :: !OccursAt(hay, needle, k)
    case Some(at) => OccursAt(hay, needle, at) && forall k: nat :: k < at ==> !OccursAt(hay, needle, k)
  }

  lemma FirstIsUnique(hay: seq<byte>, needle: seq<byte>, a: Option<nat>, b: Option<nat>)
    requires IsFirst(hay, needle, a) && IsFirst(hay, needle, b)
    ensures a == b
  {
    if a.Some? && b.Some? {
      assert OccursAt(hay, needle, a.value) && OccursAt(hay, needle, b.value);
    }
  }

  /** lmemfind on the l1 bytes of p from offset o1 and the l2 bytes of s from offset o2; the result is an offset in p. */
  method LMemFind(p: seq<byte>, o1: nat, n1: nat, s: seq<byte>, o2: nat, n2: nat) returns (r: Option<nat>)
    requires o1 + n1 <= |p| && o2 + n2 <= |s|
    ensures r.Some? ==> o1 <= r.value && r.value + n2 <= o1 + n1
    ensures IsFirst(p[o1..o1 + n1], s[o2..o2 + n2], if r.Some? then Some(r.value - o1) else None)
  {
    hide OccursAt, MemChr;
    ghost var hay, needle := p[o1..o1 + n1], s[o2..o2 + n2];
    OutOfRoom(hay, needle);
    if n2 == 0 {
      return Some(o1);
    } else if n2 > n1 {
      return None;
    }
    var l2 := n2 - 1;       // the first byte is left to memchr
    var l1 := n1 - l2;      // candidates left to try
    var s1 := o1;
    while l1 > 0
      invariant o1 <= s1 && s1 + l1 + l2 == o1 + n1
      invariant forall k: nat :: k < s1 - o1 ==> !OccursAt(hay, needle, k)
      decreases l1
    {
      var found := MemChr(p, s1, s[o2], l1);
      ghost var stop := if found.None? then s1 + l1 else found.value;
      SliceOfSlice(p, o1, o1 + n1, s1 - o1, stop - o1);
      NoCandidate(hay, needle, s1 - o1, stop - o1, p[s1..stop]);
      if found.None? {
        break;
      }
      var init := found.value + 1;
      Candidate(p, o1, n1, s, o2, n2, found.value);
      if p[init..init + l2] == s[o2 + 1..o2 + 1 + l2] {
        return Some(init - 1);
      }
      l1 := l1 - (init - s1);
      s1 := init;
    }
    return None;
  }

  /** At a byte equal to the needle's first, memcmp decides. */
  lemma Candidate(p: seq<byte>, o1: nat, n1: nat, s: seq<byte>, o2: nat, n2: nat, at: nat)
    requires o1 + n1 <= |p| && o2 + n2 <= |s| && o1 <= at && 0 < n2 && at + n2 <= o1 + n1 && p[at] == s[o2]
    ensures OccursAt(p[o1..o1 + n1], s[o2..o2 + n2], at - o1) <==> p[at + 1..at + n2] == s[o2 + 1..o2 + n2]
  {
    hide OccursAt;
    var hay, needle := p[o1..o1 + n1], s[o2..o2 + n2];
    OccursSplit(hay, needle, at - o1);
    SliceOfSlice(p, o1, o1 + n1, at + 1 - o1, at + n2 - o1);
    SliceOfSlice(s, o2, o2 + n2, 1, n2);
    assert hay[at - o1] == needle[0];
    assert needle[1..] == needle[1..n2];
  }

  lemma OutOfRoom(hay: seq<byte>, needle: seq<byte>)
    ensures forall k: nat :: k + |needle| > |hay| ==> !OccursAt(hay, needle, k)
    ensures needle == [] ==> OccursAt(hay, needle, 0)
  {
  }

  /** A match is its first byte followed by the rest of the needle: memchr, then memcmp. */
  lemma OccursSplit(hay: seq<byte>, needle: seq<byte>, at: nat)
    requires needle != [] && at + |needle| <= |hay|
    ensures OccursAt(hay, needle, at) <==> hay[at] == needle[0] && hay[at + 1..at + |needle|] == needle[1..]
  {
    var w := hay[at..at + |needle|];
    assert w == [hay[at]] + hay[at + 1..at + |needle|];
    assert needle == [needle[0]] + needle[1..];
    assert w[1..] == hay[at + 1..at + |needle|];
  }

  /** Offsets whose byte is not the needle's first are skipped without losing a match. */
  lemma NoCandidate(hay: seq<byte>, needle: seq<byte>, from: nat, to: nat, skipped: seq<byte>)
    requires from <= to <= |hay| && skipped == hay[from..to] && needle != [] && needle[0] !in skipped
    ensures forall k: nat :: from <= k < to ==> !OccursAt(hay, needle, k)
  {
    forall k: nat | from <= k < to
      ensures !OccursAt(hay, needle, k)
    {
      assert skipped[k - from] == hay[k];
      if k + |needle| <= |hay| {
        OccursSplit(hay, needle, k);
      }
    }
  }

  // ---------- mem_find ----------

  /** The part of p that is searched, the part of s that is asked for, and the part that is compared. */
  function Window(p: seq<byte>, i: S64, j: S64): seq<byte> {
    Slice(p, i, j)
  }

  function Asked(s: seq<byte>, o: S64): seq<byte> {
    Slice(s, o, -1)
  }

  function Compared(p: seq<byte>, s: seq<byte>, i: S64, j: S64, o: S64): (r: seq<byte>)
    ensures |r| == Min(|Asked(s, o)|, |Window(p, i, j)|)
  {
    Asked(s, o)[..Min(|Asked(s, o)|, |Window(p, i, j)|)]
  }

  lemma SliceIs(s: seq<byte>, i: S64, j: S64)
    requires StartOf(i, |s|) <= EndOf(j, |s|)
    ensures Slice(s, i, j) == s[StartOf(i, |s|) - 1..EndOf(j, |s|)]
  {
  }

  /** mem_find: Lua positions of the first and last byte of the match. */
  method MemFind(p: seq<byte>, s: seq<byte>, i: S64, j: S64, o: S64) returns (r: Option<(U64, U64)>)
    requires |p| < TWO63 && |s| < TWO63
    ensures Window(p, i, j) == [] || Asked(s, o) == [] ==> r == None
    ensures Window(p, i, j) != [] && Asked(s, o) != [] ==>
              var first := StartOf(i, |p|);
              (r.Some? ==> r.value.0 >= first) &&
              IsFirst(Window(p, i, j), Compared(p, s, i, j, o), if r.Some? then Some(r.value.0 - first) else None)
    ensures r.Some? ==> r.value.0 >= StartOf(i, |p|) && r.value.1 == r.value.0 + |Asked(s, o)| - 1
  {
    hide IsFirst, Slice;
    var a, b := PosRelatI(i, |p|), GetEndPos(j, |p|);
    var os := PosRelatI(o, |s|);
    assert EndOf(-1, |s|) == |s|;
    if a <= b && os <= |s| {
      var n := b - a + 1;
      SliceNeverTooLong(i, j, |p|);
      if SliceTooLong(a, b) {
        return None;
      }
      os := os - 1;
      var sl := |s| - os;
      ghost var w, c := Window(p, i, j), Compared(p, s, i, j, o);
      SliceIs(p, i, j);
      SliceIs(s, o, -1);
      assert w == p[a - 1..a - 1 + n];
      assert c == s[os..os + (if sl < n then sl else n)];
      var found := LMemFind(p, a - 1, n, s, os, if sl < n then sl else n);
      if found.Some? {
        return Some((found.value + 1, found.value + sl));
      }
    }
    return None;
  }

  /** A match reported by mem_find, as its contract describes it. */
  ghost predicate Reports(p: seq<byte>, s: seq<byte>, i: S64, j: S64, o: S64, r: (U64, U64)) {
    var first := StartOf(i, |p|);
    && Window(p, i, j) != [] && Asked(s, o) != []
    && r.0 >= first && r.1 == r.0 + |Asked(s, o)| - 1
    && IsFirst(Window(p, i, j), Compared(p, s, i, j, o), Some(r.0 - first))
  }

  /**
   * The reported range lies inside the searched window, and holds the whole needle, exactly when the needle is no
   * longer than the window: a longer needle is clipped for the comparison but not for the reported end.
   */
  lemma ReportedRange(p: seq<byte>, s: seq<byte>, i: S64, j: S64, o: S64, r: (U64, U64))
    requires |p| < TWO63 && |s| < TWO63 && Reports(p, s, i, j, o, r)
    ensures r.1 <= EndOf(j, |p|) <==> |Asked(s, o)| <= |Window(p, i, j)|
    ensures r.1 <= EndOf(j, |p|) ==> Slice(p, r.0, r.1) == Asked(s, o)
  {
    var first, w, c := StartOf(i, |p|), Window(p, i, j), Compared(p, s, i, j, o);
    var at := r.0 - first;
    assert OccursAt(w, c, at);
    if |Asked(s, o)| <= |w| {
      assert c == Asked(s, o);
      assert w[at..at + |c|] == p[r.0 - 1..r.1];
    }
  }

  /** A longer needle that begins with the whole window is reported with an end past the window. */
  lemma ClippedNeedleIsReported(p: seq<byte>, s: seq<byte>, i: S64, j: S64, o: S64)
    requires |p| < TWO63 && |s| < TWO63
    requires [] < Window(p, i, j) < Asked(s, o)
    ensures var first := StartOf(i, |p|);
            var last := first + |Asked(s, o)| - 1;
            Reports(p, s, i, j, o, (first, last)) && last > EndOf(j, |p|)
  {
  }

  /** The needle 7, 8, 9 in the single byte 7 is such a case: it is reported at positions 1 to 3. */
  lemma PastTheEnd(p: seq<byte>, s: seq<byte>)
    requires p == [7] && s == [7, 8, 9]
    ensures [] < Window(p, 1, -1) < Asked(s, 1) && (StartOf(1, |p|), StartOf(1, |p|) + |Asked(s, 1)| - 1) == (1, 3)
  {
  }
}
