/**
 * The few pieces of Kotlin arithmetic the slider relies on, written out over
 * Dafny's unbounded `int` and exact `real`:
 *  - `Int.div`, which truncates toward zero (Dafny's `/` is Euclidean);
 *  - `kotlin.math.round(Float)`, which rounds half to even;
 *  - `kotlin.math.min` / `max` on `Int` and on `Float`.
 */
module KotlinMath {

  function Abs(a: int): (r: int)
    ensures r >= 0
    ensures r == a || r == -a
  {
    if a < 0 then -a else a
  }

  function MinInt(a: int, b: int): (r: int)
    ensures r <= a && r <= b
    ensures r == a || r == b
  {
    if a <= b then a else b
  }

  function MaxInt(a: int, b: int): (r: int)
    ensures r >= a && r >= b
    ensures r == a || r == b
  {
    if a >= b then a else b
  }

  function MinReal(a: real, b: real): (r: real)
    ensures r <= a && r <= b
    ensures r == a || r == b
  {
    if a <= b then a else b
  }

  function MaxReal(a: real, b: real): (r: real)
    ensures r >= a && r >= b
    ensures r == a || r == b
  {
    if a >= b then a else b
  }

  /** Kotlin's `a.div(b)` (and `a / b`) on `Int`: the quotient rounded toward zero.
      The remainder `a - q * b` takes the sign of the dividend and is smaller than
      the divisor in magnitude, which determines `q` uniquely (see TruncDivUnique). */
  function TruncDiv(a: int, b: int): (q: int)
    requires b != 0
    ensures a >= 0 ==> 0 <= a - q * b < Abs(b)
    ensures a < 0 ==> -Abs(b) < a - q * b <= 0
  {
    var m := Abs(a) / Abs(b);
    var q := if (a < 0) == (b < 0) then m else -m;
    TruncRemainder(a, b, m, q);
    q
  }

  /** The remainder rule for the truncated quotient, from Euclidean division of
      the magnitudes. */
  lemma TruncRemainder(a: int, b: int, m: int, q: int)
    requires b != 0
    requires m == Abs(a) / Abs(b)
    requires q == if (a < 0) == (b < 0) then m else -m
    ensures a >= 0 ==> 0 <= a - q * b < Abs(b)
    ensures a < 0 ==> -Abs(b) < a - q * b <= 0
  {
    var mb := m * Abs(b);
    assert 0 <= Abs(a) - mb < Abs(b);
    SignedProduct(m, Abs(b), q, b);
  }

  /** Flipping the signs of factors flips the sign of the product accordingly. */
  lemma SignedProduct(m: int, n: int, q: int, b: int)
    requires q == m || q == -m
    requires b == n || b == -n
    ensures q * b == (if (q == m) == (b == n) then m * n else -(m * n))
  {
    if q == m && b == -n {
      assert m * -n == -(m * n);
    } else if q == -m && b == n {
      assert -m * n == -(m * n);
    } else if q == -m && b == -n {
      assert -m * -n == m * n;
    }
  }

  /** Two quotients that both leave a remainder in [0, b) are equal. */
  lemma {:induction false} QuotientUnique(a: int, b: int, q1: int, q2: int)
    requires b > 0
    requires 0 <= a - q1 * b < b
    requires 0 <= a - q2 * b < b
    ensures q1 == q2
  {
    if q1 < q2 {
      MulSub(q2, q1, b);
      MulAtLeast(q2 - q1, b);
    } else if q2 < q1 {
      MulSub(q1, q2, b);
      MulAtLeast(q1 - q2, b);
    }
  }

  lemma MulSub(x: int, y: int, b: int)
    ensures x * b - y * b == (x - y) * b
  {
  }

  lemma MulAtLeast(k: int, b: int)
    requires k >= 1 && b >= 0
    ensures k * b >= b
  {
    assert k * b == (k - 1) * b + b;
    assert (k - 1) * b >= 0;
  }

  /** The truncated quotient is the only integer whose remainder obeys the
      sign-of-dividend rule. */
  lemma {:induction false} TruncDivUnique(a: int, b: int, q: int)
    requires b != 0
    requires a >= 0 ==> 0 <= a - q * b < Abs(b)
    requires a < 0 ==> -Abs(b) < a - q * b <= 0
    ensures q == TruncDiv(a, b)
  {
    var t := TruncDiv(a, b);
    // Reduce both cases to a non-negative dividend and a positive divisor.
    var a' := if a >= 0 then a else -a;
    var q' := if (a >= 0) == (b > 0) then q else -q;
    var t' := if (a >= 0) == (b > 0) then t else -t;
    SignedProduct(q', Abs(b), q, b);
    SignedProduct(t', Abs(b), t, b);
    if a >= 0 {
      QuotientUnique(a', Abs(b), q', t');
    } else {
      QuotientUnique(a', Abs(b), q', t');
    }
  }

  /** `kotlin.math.round` on a `Float`: nearest integer, ties to the even one.
      Idealised over `real`; the result is the rounded value as an integer. */
  function RoundHalfEven(t: real): (n: int)
    ensures -0.5 <= n as real - t <= 0.5
  {
    var f := t.Floor;
    var frac := t - f as real;
    if frac < 0.5 then f
    else if frac > 0.5 then f + 1
    else if f % 2 == 0 then f
    else f + 1
  }

  /** Rounding an integral value returns it. */
  lemma RoundOfInteger(k: int)
    ensures RoundHalfEven(k as real) == k
  {
    assert (k as real).Floor == k;
  }

  /** Rounding never decreases when its argument grows. */
  lemma {:induction false} RoundMonotone(a: real, b: real)
    requires a <= b
    ensures RoundHalfEven(a) <= RoundHalfEven(b)
  {
    var ra, rb := RoundHalfEven(a), RoundHalfEven(b);
    if ra > rb {
      // Both are within 1/2 of their arguments, so they differ by at most one.
      assert ra == rb + 1;
      // Then a and b both lie at a tie between rb and ra, so a == b.
      assert a == b;
    }
  }
}
