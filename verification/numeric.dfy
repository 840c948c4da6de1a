/** The few numeric conversions the traversals perform, with exact reals
    standing in for the source's `float`. */
module Numeric {

  function Min(a: int, b: int): (r: int)
    ensures r <= a && r <= b
    ensures r == a || r == b
  {
    if a <= b then a else b
  }

  function Max(a: int, b: int): (r: int)
    ensures r >= a && r >= b
    ensures r == a || r == b
  {
    if a >= b then a else b
  }

  lemma MinMonotone(a: int, b: int, c: int)
    requires a <= b
    ensures Min(a, c) <= Min(b, c)
  {
  }

  /** C's conversion of a floating value to an integer type: the fractional
      part is discarded, rounding toward zero. */
  function Trunc(x: real): (r: int)
    ensures x >= 0.0 ==> 0 <= r && r as real <= x < r as real + 1.0
    ensures x < 0.0 ==> r <= 0 && r as real - 1.0 < x <= r as real
  {
    if x >= 0.0 then x.Floor else -((-x).Floor)
  }

  /** `pow(2, e)` for an integer exponent of either sign. */
  function Pow2(e: int): (r: real)
    ensures r > 0.0
    ensures e >= 0 ==> r >= 1.0
    ensures e < 0 ==> r <= 1.0
    decreases if e < 0 then -e else e
  {
    if e == 0 then 1.0
    else if e > 0 then 2.0 * Pow2(e - 1)
    else Pow2(e + 1) / 2.0
  }

  /** Raising the exponent by one doubles the power, for every exponent. */
  lemma {:induction false} Pow2Step(e: int)
    ensures Pow2(e + 1) == 2.0 * Pow2(e)
  {
    if e < 0 {
      assert Pow2(e) == Pow2(e + 1) / 2.0;
    }
  }

  /** A larger exponent never gives a smaller power. */
  lemma {:induction false} Pow2Monotone(a: int, b: int)
    requires a <= b
    ensures Pow2(a) <= Pow2(b)
    decreases b - a
  {
    if a < b {
      Pow2Step(a);
      Pow2Monotone(a + 1, b);
    }
  }

  /** Truncation toward zero preserves order. */
  lemma TruncMonotone(x: real, y: real)
    requires x <= y
    ensures Trunc(x) <= Trunc(y)
  {
  }

  /** Multiplying by a non-negative factor preserves order. */
  lemma MulMonotone(k: int, x: int, y: int)
    requires k >= 0 && x <= y
    ensures k * x <= k * y
  {
    var d := y - x;
    assert k * y == k * x + k * d;
  }

  /** Scaling by a non-negative real factor preserves order. */
  lemma ScaleMonotone(x: real, y: real, d: real)
    requires x <= y && d >= 0.0
    ensures x * d <= y * d
  {
    assert y * d - x * d == (y - x) * d;
  }

  /** Truncating a product with a non-negative factor preserves order. */
  lemma TruncScaleMonotone(x: real, y: real, d: real)
    requires x <= y && d >= 0.0
    ensures Trunc(x * d) <= Trunc(y * d)
  {
    ScaleMonotone(x, y, d);
    assert x * d <= y * d;
    assert Trunc(x * d) <= Trunc(y * d) by { TruncMonotone(x * d, y * d); }
  }

  /** `k` shares of `a`, added up one at a time. */
  function Times(a: int, k: nat): int
  {
    if k == 0 then 0 else a + Times(a, k - 1)
  }

  /** Adding up `k` shares of `a` is multiplying. */
  lemma {:induction false} TimesIsMul(a: int, k: nat)
    ensures Times(a, k) == a * k
  {
    if k > 0 {
      TimesIsMul(a, k - 1);
      assert a * k == a + a * (k - 1);
    }
  }

  /** Euclidean division has one quotient: the `q` of any `a == k * q + r`
      with `0 <= r < k`. */
  lemma DivUnique(a: int, k: int, q: int, r: int)
    requires k > 0 && 0 <= r < k && a == k * q + r
    ensures a / k == q
  {
    var q', r' := a / k, a % k;
    assert a == k * q' + r';
    if q' > q {
      MulMonotone(k, q + 1, q');
    } else if q' < q {
      MulMonotone(k, q' + 1, q);
    }
  }

  /** Floor division by a positive divisor preserves order. */
  lemma DivMonotone(a: int, b: int, k: int)
    requires k > 0 && a <= b
    ensures a / k <= b / k
  {
    var qa, qb := a / k, b / k;
    assert a == k * qa + a % k && b == k * qb + b % k;
    if qa > qb {
      MulMonotone(k, qb + 1, qa);
    }
  }

  /** The quotient of `a + k` by `k` is one more than that of `a`. */
  lemma DivAddDivisor(a: int, k: int)
    requires k > 0
    ensures (a + k) / k == a / k + 1
  {
    var q := a / k;
    assert a == k * q + a % k;
    assert a + k == k * (q + 1) + a % k;
    DivUnique(a + k, k, q + 1, a % k);
  }

  /** `a / k` times `k` never exceeds a non-negative `a`. */
  lemma DivMulBound(a: int, k: int)
    requires k > 0 && a >= 0
    ensures (a / k) * k <= a
  {
  }

  /** If `a < m * k` then the quotient `a / k` is below `m`. */
  lemma QuotientBelow(a: int, k: int, m: int)
    requires k > 0 && 0 <= a < m * k
    ensures a / k < m
  {
    if a / k >= m {
      MulMonotone(k, m, a / k);
      DivMulBound(a, k);
    }
  }

  /** If `m * k <= a` then `m` is at most the quotient `a / k`. */
  lemma BelowQuotient(m: int, a: int, k: int)
    requires k > 0 && m * k <= a
    ensures m <= a / k
  {
    DivMonotone(m * k, a, k);
    DivUnique(m * k, k, m, 0);
  }

  /** Dividing a positive value by a larger divisor gives a smaller share. */
  lemma DivByLarger(x: real, p: real, q: real)
    requires x > 0.0 && 0.0 < p <= q
    ensures x / q <= x / p
  {
    var a, b := x / q, x / p;
    assert a * q == x && b * p == x;
    assert b > 0.0;
    assert b * q >= b * p by {
      assert b * q - b * p == b * (q - p);
    }
    if a > b {
      assert a * q - b * q == (a - b) * q;
    }
  }
}
