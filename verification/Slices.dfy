/** Lua positions and slices (posrelatI, getendpos) and the operations that only copy slices. */
module Slices {
  import opened Machine

  /** What a start position means: section 6.4 of the Lua 5.4 Reference Manual, string.sub. */
  function StartOf(pos: int, len: nat): int {
    if pos > 0 then pos else if pos == 0 || len + pos + 1 < 1 then 1 else len + pos + 1
  }

  /** What an end position means. */
  function EndOf(pos: int, len: nat): int {
    var p := if pos < 0 then len + pos + 1 else pos;
    if p > len then len else if p < 0 then 0 else p
  }

  /** The bytes from Lua position i to Lua position j, both counted from 1 or back from the end. */
  function Slice(s: seq<byte>, i: int, j: int): (r: seq<byte>)
    ensures r == [] <==> StartOf(i, |s|) > EndOf(j, |s|)
    ensures r != [] ==> 1 <= StartOf(i, |s|) && EndOf(j, |s|) <= |s| && |r| == EndOf(j, |s|) - StartOf(i, |s|) + 1
    ensures r <= s[Min(StartOf(i, |s|) - 1, |s|)..]
  {
    var a, b := StartOf(i, |s|), EndOf(j, |s|);
    if a > b then [] else s[a - 1..b]
  }

  /** Positions in an array of len bytes: k counted back from the end is len + 1 - k counted from the start; positions
      before the start begin at 1 and end at 0, positions past the end end at len. */
  lemma PositionsMean(len: nat, k: int)
    ensures StartOf(0, len) == 1 && EndOf(0, len) == 0
    ensures k > 0 ==> StartOf(k, len) == k
    ensures 0 < k <= len ==> StartOf(-k, len) == len + 1 - k && EndOf(k, len) == k && EndOf(-k, len) == len + 1 - k
    ensures k > len ==> StartOf(-k, len) == 1 && EndOf(k, len) == len && EndOf(-k, len) == 0
  {
  }

  /** Position arithmetic as the C code does it, in 64-bit unsigned words. */
  function PosRelatI(pos: S64, len: U64): (r: U64)
    requires len < TWO63
    ensures r == StartOf(pos, len) && r >= 1
  {
    if pos > 0 then pos
    else if pos == 0 then 1
    else if pos < -(len as int) then 1
    else Wrap(Wrap(len + ToUnsigned(pos)) + 1)
  }

  function GetEndPos(pos: S64, len: U64): (r: U64)
    requires len < TWO63
    ensures r == EndOf(pos, len) && r <= len
  {
    if pos > len then len
    else if pos >= 0 then pos
    else if pos < -(len as int) then 0
    else Wrap(Wrap(len + ToUnsigned(pos)) + 1)
  }

  /** The test the sources call "arithmetic overflow?". */
  predicate SliceTooLong(posi: U64, pose: U64) {
    var n := Wrap(Wrap(pose - posi) + 1);
    Wrap(posi + n) <= pose
  }

  /** No slice ever fails that test. */
  lemma SliceNeverTooLong(i: S64, j: S64, len: U64)
    requires len < TWO63 && PosRelatI(i, len) <= GetEndPos(j, len)
    ensures !SliceTooLong(PosRelatI(i, len), GetEndPos(j, len))
  {
    var posi, pose := PosRelatI(i, len), GetEndPos(j, len);
    assert Wrap(pose - posi) == pose - posi;
    assert Wrap(pose - posi + 1) == pose - posi + 1;
    assert Wrap(pose + 1) == pose + 1;
  }

  /** luamem_checklenarg */
  predicate ValidLength(sz: S64) {
    0 <= sz < INT_MAX
  }

  datatype CreateArg = Length(n: S64) | Source(s: seq<byte>, i: S64, j: S64)

  /** mem_create with arguments: a zeroed block, or a copy of a slice. None stands for a raised error. */
  method MemCreate(arg: CreateArg) returns (r: Option<array<byte>>)
    requires arg.Source? ==> |arg.s| < TWO63
    ensures r.None? <==> arg.Length? && !(0 <= arg.n < 0x7FFF_FFFF)
    ensures r.Some? ==> fresh(r.value)
    ensures r.Some? && arg.Length? ==> r.value[..] == seq(arg.n, _ => 0)
    ensures r.Some? && arg.Source? ==> r.value[..] == Slice(arg.s, arg.i, arg.j)
  {
    match arg {
      case Length(n) =>
        if !ValidLength(n) {
          return None;
        }
        var p := new byte[n](_ => 0);
        assert p[..] == seq(n, _ => 0);
        return Some(p);
      case Source(s, i, j) =>
        var posi, pose := PosRelatI(i, |s|), GetEndPos(j, |s|);
        if posi > pose {
          var p := new byte[0];
          return Some(p);
        }
        SliceNeverTooLong(i, j, |s|);
        if SliceTooLong(posi, pose) {
          return None;
        }
        var len := pose - posi + 1;
        var p := new byte[len](k requires 0 <= k < len => s[posi - 1 + k]);
        assert p[..] == s[posi - 1..pose];
        return Some(p);
    }
  }

  /** mem_tostring */
  method MemToString(s: seq<byte>, i: Option<S64>, j: Option<S64>) returns (r: seq<byte>)
    requires |s| < TWO63
    ensures r == Slice(s, if i.Some? then i.value else 1, if j.Some? then j.value else -1)
  {
    var start := PosRelatI(if i.Some? then i.value else 1, |s|);
    var end := GetEndPos(if j.Some? then j.value else -1, |s|);
    if start <= end {
      r := s[start - 1..start - 1 + (end - start + 1)];
    } else {
      r := [];
    }
  }

  /** str2byte, behind mem_get: the end position defaults to the start position as it was given. */
  method MemGet(s: seq<byte>, i: S64, j: Option<S64>) returns (r: Option<seq<byte>>)
    requires |s| < TWO63
    ensures var t := Slice(s, i, if j.Some? then j.value else i);
            r == if |t| > 0x7FFF_FFFF then None else Some(t)
  {
    var posi := PosRelatI(i, |s|);
    var pose := GetEndPos(if j.Some? then j.value else i, |s|);
    if posi > pose {
      return Some([]);
    }
    if pose - posi >= INT_MAX {
      return None;
    }
    var n := pose - posi + 1;
    var out: seq<byte> := [];
    var k := 0;
    while k < n
      invariant 0 <= k <= n && out == s[posi - 1..posi - 1 + k]
    {
      out := out + [s[posi + k - 1]];
      k := k + 1;
    }
    return Some(out);
  }

  /** Whether a Lua integer passes code2char's range check. */
  predicate IsCode(c: S64) {
    ToUnsigned(c) <= 255
  }

  /** How many of the codes are written before the first that is out of range. */
  function GoodCodes(codes: seq<S64>): (n: nat)
    ensures n <= |codes| && (forall k :: 0 <= k < n ==> 0 <= codes[k] <= 255)
    ensures n < |codes| ==> !(0 <= codes[n] <= 255)
  {
    if codes == [] || !IsCode(codes[0]) then 0 else 1 + GoodCodes(codes[1..])
  }

  method Code2Char(codes: seq<S64>, p: array<byte>, at: nat, n: nat) returns (ok: bool)
    requires n <= |codes| && at + n <= p.Length
    modifies p
    ensures ok <==> forall k :: 0 <= k < n ==> 0 <= codes[k] <= 255
    ensures p[..] == Splice(old(p[..]), at, codes[..GoodCodes(codes[..n])])
  {
    var i := 0;
    ghost var good := GoodCodes(codes[..n]);
    while i < n
      invariant 0 <= i <= n && i <= good
      invariant p[..] == Splice(old(p[..]), at, codes[..i])
    {
      if !IsCode(codes[i]) {
        assert good == i by { assert !(0 <= codes[..n][i] <= 255); }
        return false;
      }
      p[at + i] := codes[i];
      i := i + 1;
    }
    return true;
  }

  /** mem_set: writes the codes from position i on, as many as there is room for. */
  method MemSet(mem: array<byte>, i: S64, codes: seq<S64>) returns (ok: bool)
    requires mem.Length < TWO63
    modifies mem
    ensures var at := StartOf(i, mem.Length);
            if at > mem.Length then !ok && mem[..] == old(mem[..])
            else var fit := codes[..Min(|codes|, mem.Length - at + 1)];
                 ok == (GoodCodes(fit) == |fit|)
                 && mem[..] == Splice(old(mem[..]), at - 1, fit[..GoodCodes(fit)])
  {
    var at := PosRelatI(i, mem.Length);
    if !(1 <= at <= mem.Length) {
      return false;
    }
    var len := 1 + mem.Length - at;
    var n := if |codes| < len then |codes| else len;
    ok := Code2Char(codes, mem, at - 1, n);
    ghost var fit := codes[..n];
    assert codes[..GoodCodes(fit)] == fit[..GoodCodes(fit)];
    assert GoodCodes(fit) < n ==> !(0 <= codes[GoodCodes(fit)] <= 255);
  }
}
