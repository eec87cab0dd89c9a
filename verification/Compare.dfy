/** Lexicographic comparison of byte arrays (mem_diff in lmemlib.c). */
module Compare {
  import opened Machine

  /** The value of a byte as the platform's char. */
  function CharOf(b: byte, signedChar: bool): int {
    if signedChar && b >= 128 then b - 256 else b
  }

  /** a comes strictly before b. */
  predicate Less(a: seq<byte>, b: seq<byte>, signedChar: bool) {
    if b == [] then false
    else if a == [] then true
    else if a[0] == b[0] then Less(a[1..], b[1..], signedChar)
    else CharOf(a[0], signedChar) < CharOf(b[0], signedChar)
  }

  /** i is the length of the longest common prefix of a and b. */
  predicate CommonPrefix(a: seq<byte>, b: seq<byte>, i: nat) {
    && i <= |a| && i <= |b| && a[..i] == b[..i]
    && (i < |a| && i < |b| ==> a[i] != b[i])
  }

  /** Comparing continues after a common prefix. */
  lemma {:induction false} LessAfterPrefix(a: seq<byte>, b: seq<byte>, i: nat, signedChar: bool)
    requires i <= |a| && i <= |b| && a[..i] == b[..i]
    ensures Less(a, b, signedChar) == Less(a[i..], b[i..], signedChar)
  {
    if i == 0 {
      assert a[0..] == a && b[0..] == b;
    } else {
      assert a[0] == a[..i][0] == b[..i][0] == b[0];
      assert a[1..][..i - 1] == a[..i][1..] == b[..i][1..] == b[1..][..i - 1];
      LessAfterPrefix(a[1..], b[1..], i - 1, signedChar);
      assert a[1..][i - 1..] == a[i..] && b[1..][i - 1..] == b[i..];
    }
  }

  /** After the longest common prefix the array that ends there comes first, or else the one whose next byte is less, read as
      -128 to 127 where char is signed and as 0 to 255 where it is not. */
  lemma LessIs(a: seq<byte>, b: seq<byte>, i: nat, signedChar: bool)
    requires CommonPrefix(a, b, i)
    ensures Less(a, b, signedChar) <==>
      i < |b| && (i == |a| || if signedChar then (a[i] as int + 128) % 256 < (b[i] as int + 128) % 256 else a[i] < b[i])
  {
    LessAfterPrefix(a, b, i, signedChar);
  }

  /** mem_diff: the Lua position of the first difference, if any, and whether s1 comes first. */
  method MemDiff(s1: seq<byte>, s2: seq<byte>, signedChar: bool) returns (at: Option<nat>, less: bool)
    ensures at.None? <==> s1 == s2
    ensures at.Some? ==> at.value > 0 && CommonPrefix(s1, s2, at.value - 1)
    ensures less == Less(s1, s2, signedChar)
  {
    var n := if |s1| < |s2| then |s1| else |s2|;
    var i := 0;
    while i < n && s1[i] == s2[i]
      invariant 0 <= i <= n && s1[..i] == s2[..i]
    {
      i := i + 1;
    }
    LessAfterPrefix(s1, s2, i, signedChar);
    if i < n {
      return Some(i + 1), CharOf(s1[i], signedChar) < CharOf(s2[i], signedChar);
    } else if |s1| == |s2| {
      assert s1[..i] == s1 && s2[..i] == s2;
      return None, false;
    } else {
      return Some(i + 1), |s1| < |s2|;
    }
  }

  lemma {:induction false} LessIsTrichotomous(a: seq<byte>, b: seq<byte>, signedChar: bool)
    ensures a == b ==> !Less(a, b, signedChar)
    ensures a != b ==> Less(a, b, signedChar) != Less(b, a, signedChar)
  {
    if a != [] && b != [] {
      LessIsTrichotomous(a[1..], b[1..], signedChar);
      if a[0] == b[0] && a[1..] == b[1..] {
        assert a == [a[0]] + a[1..] && b == [b[0]] + b[1..];
      }
    }
  }

  lemma {:induction false} LessIsTransitive(a: seq<byte>, b: seq<byte>, c: seq<byte>, signedChar: bool)
    requires Less(a, b, signedChar) && Less(b, c, signedChar)
    ensures Less(a, c, signedChar)
  {
    if a != [] && a[0] == b[0] == c[0] {
      LessIsTransitive(a[1..], b[1..], c[1..], signedChar);
    }
  }
}
