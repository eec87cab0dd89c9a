/** Machine integers, bytes and flat memories, as the C sources see them on a 64-bit platform. */
module Machine {
  const TWO63: int := 0x8000_0000_0000_0000
  const TWO64: int := 0x1_0000_0000_0000_0000
  const INT_MAX: int := 0x7FFF_FFFF

  type byte = x: int | 0 <= x < 256
  /** size_t and lua_Unsigned */
  type U64 = x: int | 0 <= x < 0x1_0000_0000_0000_0000
  /** lua_Integer */
  type S64 = x: int | -0x8000_0000_0000_0000 <= x < 0x8000_0000_0000_0000

  datatype Option<+T> = None | Some(value: T)

  /** Unsigned arithmetic wraps around. */
  function Wrap(x: int): U64 {
    x % TWO64
  }

  /** The cast (lua_Unsigned) n. */
  function ToUnsigned(n: S64): U64 {
    if n < 0 then n + TWO64 else n
  }

  /** The cast (lua_Integer) u. */
  function ToSigned(u: U64): S64 {
    if u < TWO63 then u else u - TWO64
  }

  /** The memory m after writing s at offset at. */
  function Splice<T>(m: seq<T>, at: nat, s: seq<T>): (r: seq<T>)
    requires at + |s| <= |m|
    ensures |r| == |m|
    ensures forall k {:trigger r[k]} :: 0 <= k < |m| ==> r[k] == if at <= k < at + |s| then s[k - at] else m[k]
  {
    m[..at] + s + m[at + |s|..]
  }

  lemma SliceOfSlice<T>(s: seq<T>, a: nat, b: nat, c: nat, d: nat)
    requires a <= b <= |s| && c <= d <= b - a
    ensures s[a..b][c..d] == s[a + c..a + d]
  {
    var t, u := s[a..b][c..d], s[a + c..a + d];
    assert |t| == |u|;
    forall k | 0 <= k < |t| ensures t[k] == u[k] {
      assert t[k] == s[a..b][c + k] == s[a + c + k];
    }
  }

  function Min(a: int, b: int): int {
    if a < b then a else b
  }

  function Reverse<T>(s: seq<T>): (r: seq<T>)
    ensures |r| == |s|
    ensures forall k {:trigger r[k]} :: 0 <= k < |s| ==> r[k] == s[|s| - 1 - k]
  {
    if s == [] then [] else Reverse(s[1..]) + [s[0]]
  }

  /** s if keep, else s backwards: byte order of a multi-byte field. */
  function Order<T>(s: seq<T>, keep: bool): (r: seq<T>)
    ensures |r| == |s|
  {
    if keep then s else Reverse(s)
  }

  lemma OrderTwice<T>(s: seq<T>, keep: bool)
    ensures Order(Order(s, keep), keep) == s
  {
    assert Reverse(Reverse(s)) == s;
  }
}
