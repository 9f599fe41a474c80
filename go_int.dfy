/**
 Go's integer division and remainder. Go truncates the quotient toward zero, so the
 remainder takes the sign of the dividend; Dafny's `/` and `%` on `int` are Euclidean
 and differ from Go's as soon as an operand is negative.
 */
module GoInt {

  function Abs(x: int): nat {
    if x < 0 then -x else x
  }

  /** Go's `a / b`: |a| / |b|, negated when exactly one operand is negative. As the
      Go specification puts it, the quotient truncates toward zero: what is left,
      a - q * b, is smaller than b in magnitude and has the sign of a. */
  function Div(a: int, b: int): (q: int)
    requires b != 0
    ensures Abs(a - q * b) < Abs(b)
    ensures a >= 0 ==> a - q * b >= 0
    ensures a < 0 ==> a - q * b <= 0
  {
    TruncatedQuotient(a, b);
    var m := Abs(a) / Abs(b);
    if (a < 0) == (b < 0) then m else -m
  }

  /** The signed quotient of the magnitudes leaves a remainder smaller than b with
      the sign of a. */
  lemma TruncatedQuotient(a: int, b: int)
    requires b != 0
    ensures var m := Abs(a) / Abs(b);
      var q := if (a < 0) == (b < 0) then m else -m;
      && Abs(a - q * b) < Abs(b)
      && (a >= 0 ==> a - q * b >= 0)
      && (a < 0 ==> a - q * b <= 0)
  {
    var m, r := Abs(a) / Abs(b), Abs(a) % Abs(b);
    assert Abs(a) == m * Abs(b) + r && 0 <= r < Abs(b);
    if a >= 0 && b > 0 {
      assert a - m * b == r;
    } else if a >= 0 {
      assert a - (-m) * b == a - m * Abs(b);
    } else if b > 0 {
      assert a - (-m) * b == -(Abs(a) - m * Abs(b));
    } else {
      assert a - m * b == -(Abs(a) - m * Abs(b));
    }
  }

  /** Go's `a % b`, defined by Go as `a - (a / b) * b`. */
  function Rem(a: int, b: int): (r: int)
    requires b != 0
    ensures Abs(r) < Abs(b)
    ensures a >= 0 ==> r >= 0
    ensures a < 0 ==> r <= 0
  {
    RemIsSignedModulus(a, b);
    a - Div(a, b) * b
  }

  /** Go's remainder is the remainder of the magnitudes, carrying the dividend's sign. */
  lemma RemIsSignedModulus(a: int, b: int)
    requires b != 0
    ensures a - Div(a, b) * b == if a >= 0 then Abs(a) % Abs(b) else -(Abs(a) % Abs(b))
  {
    var q, m := Abs(a) / Abs(b), Abs(a) % Abs(b);
    assert Abs(a) == q * Abs(b) + m;
    if b > 0 {
      assert Abs(b) == b;
    } else {
      assert Abs(b) == -b;
      assert q * b == -(q * Abs(b));
    }
  }

  /** On a non-negative dividend and a positive divisor Go and Dafny agree. */
  lemma AgreeOnNonNegative(a: int, b: int)
    requires a >= 0 && b > 0
    ensures Div(a, b) == a / b && Rem(a, b) == a % b
  {
  }
}
