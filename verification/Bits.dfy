/** C's bitwise operators on unsigned values, defined bit by bit, and the arithmetic they amount to. */
module Bits {
  function Pow2(n: nat): (r: nat)
    ensures r >= 1
  {
    if n == 0 then 1 else 2 * Pow2(n - 1)
  }

  function Pow256(n: nat): (r: nat)
    ensures r >= 1
  {
    if n == 0 then 1 else 256 * Pow256(n - 1)
  }

  function And(x: nat, y: nat): nat {
    if x == 0 || y == 0 then 0
    else (if x % 2 == 1 && y % 2 == 1 then 1 else 0) + 2 * And(x / 2, y / 2)
  }

  function Or(x: nat, y: nat): nat {
    if x == 0 then y else if y == 0 then x
    else (if x % 2 == 1 || y % 2 == 1 then 1 else 0) + 2 * Or(x / 2, y / 2)
  }

  function Xor(x: nat, y: nat): nat {
    if x == 0 then y else if y == 0 then x
    else (if x % 2 != y % 2 then 1 else 0) + 2 * Xor(x / 2, y / 2)
  }

  /** Quotient and remainder are unique. */
  lemma DivModUnique(x: int, d: int, q: int, r: int)
    requires d > 0 && x == q * d + r && 0 <= r < d
    ensures x / d == q && x % d == r
  {
    var q', r' := x / d, x % d;
    assert (q - q') * d == r' - r;
    assert q - q' >= 1 ==> (q - q') * d >= d;
    assert q - q' <= -1 ==> (q - q') * d <= -d;
  }

  lemma MulMonotone(k: int, a: int, b: int)
    requires k >= 0 && a <= b
    ensures k * a <= k * b
  {
  }

  /** Of two ways to reach a multiple of d, one of them shorter than d, the shorter one is the least. */
  lemma LeastMultiple(total: nat, p: nat, other: nat, d: nat)
    requires p < d && (total + p) % d == 0 && (total + other) % d == 0
    ensures p <= other
  {
    var a, b := (total + other) / d, (total + p) / d;
    MultipleOf(total + other, d);
    MultipleOf(total + p, d);
    if a < b {
      MulMonotone(d, a, b - 1);
      assert false;
    }
    MulMonotone(d, b, a);
  }

  lemma MultipleOf(x: int, d: nat)
    requires d > 0 && x % d == 0
    ensures x == d * (x / d)
  {
  }

  lemma Pow2Bytes(k: nat)
    ensures Pow2(8 * k) == Pow256(k)
    ensures k > 0 ==> Pow2(8 * k - 1) == 128 * Pow256(k - 1)
  {
    if k > 0 {
      Pow2Bytes(k - 1);
      var n := 8 * (k - 1);
      assert Pow2(n + 1) == 2 * Pow2(n) && Pow2(n + 2) == 4 * Pow2(n);
      assert Pow2(n + 4) == 4 * Pow2(n + 2) by { assert Pow2(n + 3) == 2 * Pow2(n + 2); }
      assert Pow2(n + 6) == 4 * Pow2(n + 4) by { assert Pow2(n + 5) == 2 * Pow2(n + 4); }
      assert Pow2(n + 7) == 2 * Pow2(n + 6);
      assert Pow2(n + 8) == 2 * Pow2(n + 7);
    }
  }

  /** Dividing twice, and taking a remainder digit by digit. */
  lemma DivModSplit(x: int, b: nat, m: nat)
    requires b > 0 && m > 0
    ensures b * m > 0
    ensures x / (b * m) == (x / b) / m
    ensures x % (b * m) == x % b + b * ((x / b) % m)
  {
    var u, v := x / b, x % b;
    var q, r := u / m, u % m;
    SplitProduct(b, m, q, r);
    assert x == b * u + v && u == m * q + r;
    DivModUnique(x, b * m, q, b * r + v);
  }

  lemma SplitProduct(b: nat, m: nat, q: int, r: nat)
    requires b > 0 && r < m
    ensures b * m > 0 && 0 <= b * r <= b * m - b
    ensures b * (m * q + r) == q * (b * m) + b * r
  {
    MulMonotone(b, r, m - 1);
    assert b * (m - 1) == b * m - b;
    assert b * (m * q + r) == b * (m * q) + b * r;
    assert b * (m * q) == (b * m) * q;
  }

  /** x & (2^k - 1) is x mod 2^k. */
  lemma {:induction false} AndMask(x: nat, k: nat)
    ensures And(x, Pow2(k) - 1) == x % Pow2(k)
  {
    if k > 0 {
      var m := Pow2(k - 1);
      var y := 2 * m - 1;
      AndMask(x / 2, k - 1);
      assert y / 2 == m - 1 && y % 2 == 1;
      DivModSplit(x, 2, m);
    }
  }

  /** (x << k) | y is x * 2^k + y when y fits in the k low bits. */
  lemma {:induction false} OrLow(x: nat, y: nat, k: nat)
    requires y < Pow2(k)
    ensures Or(x * Pow2(k), y) == x * Pow2(k) + y
  {
    if k > 0 && x > 0 && y > 0 {
      OrLow(x, y / 2, k - 1);
      hide Or;
      ShiftHalf(x, k);
      OrEven(x * Pow2(k - 1), y);
    }
  }

  lemma ShiftHalf(x: nat, k: nat)
    requires k > 0 && x > 0
    ensures x * Pow2(k) == 2 * (x * Pow2(k - 1)) && x * Pow2(k - 1) > 0
  {
    var p := Pow2(k - 1);
    assert Pow2(k) == 2 * p;
    hide Pow2;
    MulMonotone(x, 1, p);
    assert x * (2 * p) == 2 * (x * p);
  }

  lemma OrEven(z: nat, y: nat)
    requires z > 0 && y > 0
    ensures Or(2 * z, y) == y % 2 + 2 * Or(z, y / 2)
  {
    assert (2 * z) / 2 == z;
  }

  lemma OrByte(x: nat, y: nat)
    requires y < 256
    ensures Or(x * 256, y) == x * 256 + y
  {
    Pow2Bytes(1);
    OrLow(x, y, 8);
  }

  /** Flipping the top bit of a (k+1)-bit value. */
  lemma {:induction false} XorTop(x: nat, k: nat)
    requires x < Pow2(k + 1)
    ensures Xor(x, Pow2(k)) == if x < Pow2(k) then x + Pow2(k) else x - Pow2(k)
  {
    if k > 0 && x > 0 {
      XorTop(x / 2, k - 1);
      assert Pow2(k) / 2 == Pow2(k - 1);
    }
  }
}
