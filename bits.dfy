/**
 Go's bitwise operators on non-negative int64 values, stated over `nat`.
 Bit i of x is (x / 2^i) % 2; `|` and `&` are defined bit by bit from the low end.
 Shifts are multiplication and division by powers of two (no bit is shifted out
 of an int64 in the uses below, which keep every value under 2^63).
 */
module Bits {

  function Pow2(n: nat): (r: nat)
    ensures r >= 1
  {
    if n == 0 then 1 else 2 * Pow2(n - 1)
  }

  lemma {:induction false} Pow2Add(a: nat, b: nat)
    ensures Pow2(a + b) == Pow2(a) * Pow2(b)
  {
    if b > 0 {
      Pow2Add(a, b - 1);
      assert Pow2(a + b) == 2 * Pow2(a + b - 1);
    }
  }

  /** Pow2Add with the sum named, so that callers need not rewrite `a + b`. */
  lemma Pow2Split(a: nat, b: nat, ab: nat)
    requires ab == a + b
    ensures Pow2(ab) == Pow2(a) * Pow2(b)
  {
    Pow2Add(a, b);
  }

  /** Go's `x << n` on an int64 when no bit leaves the word. */
  function Shl(x: int, n: nat): int {
    x * Pow2(n)
  }

  /** Go's `x << n` on a non-negative int64: the low n bits of the result are clear
      and `>> n` gives x back. */
  function ShlNat(x: nat, n: nat): (r: nat)
    ensures r % Pow2(n) == 0 && Shr(r, n) == x
  {
    ShiftBack(x, n);
    Shl(x, n)
  }

  lemma ShiftBack(x: nat, n: nat)
    ensures Shl(x, n) >= 0 && Shl(x, n) % Pow2(n) == 0 && Shl(x, n) / Pow2(n) == x
  {
    DivModUnique(x * Pow2(n), Pow2(n), x, 0);
  }

  /** Go's `x >> n` on a non-negative int64. */
  function Shr(x: nat, n: nat): int {
    x / Pow2(n)
  }

  /** Go's `-1 ^ y` on int64: XOR with all ones complements every bit, which in
      two's complement is `-y - 1`. */
  function XorAllOnes(y: int): int {
    -y - 1
  }

  /** Go's `-1 ^ (-1 << n)`: the value whose low n bits are set. */
  function LowMask(n: nat): (r: int)
    ensures r == Pow2(n) - 1
  {
    XorAllOnes(Shl(-1, n))
  }

  /** Go's `a | b` on non-negative values. */
  function Or(a: nat, b: nat): nat
    decreases a + b
  {
    if a == 0 then b
    else if b == 0 then a
    else 2 * Or(a / 2, b / 2) + (if a % 2 == 1 || b % 2 == 1 then 1 else 0)
  }

  /** Go's `a & b` on non-negative values. */
  function And(a: nat, b: nat): nat
    decreases a + b
  {
    if a == 0 || b == 0 then 0
    else 2 * And(a / 2, b / 2) + (if a % 2 == 1 && b % 2 == 1 then 1 else 0)
  }

  /** Ring facts, stated once so that proofs instantiate them instead of searching. */
  lemma MulRegroup(a: int, b: int, c: int)
    ensures a * (b * c) == (a * c) * b
  {
  }

  lemma Distrib(a: int, b: int, k: int)
    ensures a * k + b * k == (a + b) * k
  {
  }

  lemma MulMonotone(a: nat, b: nat, k: nat)
    requires a <= b
    ensures a * k <= b * k
  {
  }

  /** a < b gives a * k + k <= b * k: a field below b in units of k, plus anything
      below k, stays below b * k. */
  lemma BelowProduct(a: nat, b: nat, k: nat)
    requires a < b
    ensures a * k + k <= b * k
  {
    MulMonotone(a + 1, b, k);
    Distrib(a, 1, k);
  }

  lemma MulAtLeastDivisor(k: int, d: int)
    requires d > 0 && k > 0
    ensures k * d >= d
  {
  }

  /** Division and remainder are determined by any exact decomposition. */
  lemma DivModUnique(x: int, d: int, q: int, r: int)
    requires d > 0 && 0 <= r < d && x == q * d + r
    ensures x / d == q && x % d == r
  {
    var q' := x / d;
    assert (q - q') * d == x % d - r;
    if q > q' {
      MulAtLeastDivisor(q - q', d);
    } else if q < q' {
      MulAtLeastDivisor(q' - q, d);
    }
  }

  /** OR of a value whose low k bits are clear with a value below 2^k adds them:
      the two operands occupy disjoint bit fields. */
  lemma {:induction false} OrDisjoint(high: nat, low: nat, k: nat)
    requires low < Pow2(k) && high % Pow2(k) == 0
    ensures Or(high, low) == high + low
  {
    if k == 0 || high == 0 || low == 0 {
      return;
    }
    var p := Pow2(k - 1);
    var q := high / Pow2(k);
    DivModUnique(high, Pow2(k), q, 0);
    assert high == (q * p) * 2;
    DivModUnique(high, 2, q * p, 0);
    DivModUnique(high / 2, p, q, 0);
    assert low / 2 < p;
    OrDisjoint(high / 2, low / 2, k - 1);
  }

  /** Splitting off the lowest bit: x % 2p == 2 * ((x / 2) % p) + x % 2. */
  lemma ModDouble(x: nat, p: nat)
    requires p > 0
    ensures x % (2 * p) == 2 * ((x / 2) % p) + x % 2
  {
    var h := x / 2;
    assert x == 2 * h + x % 2;
    assert h == (h / p) * p + h % p;
    assert x == (h / p) * (2 * p) + (2 * (h % p) + x % 2);
    DivModUnique(x, 2 * p, h / p, 2 * (h % p) + x % 2);
  }

  /** AND with the low-n-bit mask keeps exactly the low n bits. */
  lemma {:induction false} AndLowMask(x: nat, n: nat)
    ensures And(x, LowMask(n)) == x % Pow2(n)
  {
    if n == 0 || x == 0 {
      return;
    }
    var p := Pow2(n - 1);
    assert LowMask(n) == 2 * p - 1;
    assert LowMask(n) / 2 == LowMask(n - 1) && LowMask(n) % 2 == 1;
    AndLowMask(x / 2, n - 1);
    ModDouble(x, p);
  }
}
