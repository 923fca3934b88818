/**
 * The two Python number conversions the scripts rely on, stated exactly:
 * `int(x)` on a float truncates toward zero, and Python 2's `round`
 * rounds half away from zero.
 */
module Numerics {

  /** `int(v)` for a float `v`: the integer part, truncated toward zero. */
  function Trunc(v: real): (r: int)
    ensures 0.0 <= v ==> 0 <= r && r as real <= v < r as real + 1.0
    ensures v < 0.0 ==> r <= 0 && r as real - 1.0 < v <= r as real
  {
    if v >= 0.0 then v.Floor else -((-v).Floor)
  }

  lemma TruncMonotone(a: real, b: real)
    requires a <= b
    ensures Trunc(a) <= Trunc(b)
  {
  }

  /**
   * `r` is `n / d` (for `d > 0`) rounded to the nearest integer, with ties
   * going away from zero: the error `n - r*d` is at most half of `d`, and
   * when it is exactly half, `r` lies farther from zero than `n / d`.
   */
  predicate RoundsTo(n: int, d: int, r: int)
    requires d > 0
  {
    var e := 2 * (n - r * d);
    if n >= 0 then -d <= e < d else -d < e <= d
  }

  /** `round(n / d)` for a positive divisor, as integer arithmetic. */
  function RoundByPositive(n: int, d: int): (r: int)
    requires d > 0
    ensures RoundsTo(n, d, r)
  {
    if n >= 0 then (2 * n + d) / (2 * d)
    else -((2 * -n + d) / (2 * d))
  }

  /** Python 2 `round(n / d)` on the true quotient of two integers. */
  function RoundHalfAway(n: int, d: int): (r: int)
    requires d != 0
    ensures d > 0 ==> RoundsTo(n, d, r)
    ensures d < 0 ==> RoundsTo(-n, -d, r)
  {
    if d > 0 then RoundByPositive(n, d) else RoundByPositive(-n, -d)
  }

  lemma MulGrows(d: int, k: int)
    requires d > 0 && k >= 1
    ensures d * k >= d
  {
    assert d * k == d + d * (k - 1);
  }

  /** At most one integer rounds `n / d`, so RoundsTo pins the result down. */
  lemma RoundsToUnique(n: int, d: int, r1: int, r2: int)
    requires d > 0 && RoundsTo(n, d, r1) && RoundsTo(n, d, r2)
    ensures r1 == r2
  {
    var e1, e2 := 2 * (n - r1 * d), 2 * (n - r2 * d);
    assert -2 * d < e1 - e2 < 2 * d;
    var k := r2 - r1;
    assert e1 - e2 == 2 * (d * k);
    if k >= 1 {
      MulGrows(d, k);
    } else if k <= -1 {
      MulGrows(d, -k);
    }
  }

  /** Multiplying by a positive number keeps the sign. */
  lemma SignOfProduct(a: real, b: real)
    requires b > 0.0
    ensures a > 0.0 <==> a * b > 0.0
    ensures a == 0.0 <==> a * b == 0.0
  {
    if a > 0.0 {
      assert a * b > 0.0;
    } else if a < 0.0 {
      assert (-a) * b > 0.0;
    }
  }

  /** Dividing `m` by `d > 0` in the reals: the quotient is within one half exactly when `2*m` is within `d`. */
  lemma HalfBound(m: int, d: int, x: real)
    requires d > 0 && x * d as real == m as real
    ensures (-0.5 <= x <= 0.5) <==> (-d <= 2 * m <= d)
    ensures x == -0.5 <==> 2 * m == -d
    ensures x == 0.5 <==> 2 * m == d
  {
    var dr := d as real;
    assert (x - 0.5) * dr == m as real - 0.5 * dr;
    assert (x + 0.5) * dr == m as real + 0.5 * dr;
    SignOfProduct(x - 0.5, dr);
    SignOfProduct(x + 0.5, dr);
  }

  /** RoundsTo read on the real quotient: `r` is within one half of `n / d`, ties away from zero. */
  lemma RoundsToNearest(n: int, d: int, r: int)
    requires d > 0 && RoundsTo(n, d, r)
    ensures var q := n as real / d as real;
      && r as real - 0.5 <= q <= r as real + 0.5
      && (q == r as real - 0.5 ==> r > 0)
      && (q == r as real + 0.5 ==> r < 0)
  {
    var q := n as real / d as real;
    var x := q - r as real;
    var m := n - r * d;
    assert x * d as real == m as real by {
      assert q * d as real == n as real;
      assert (r as real) * d as real == (r * d) as real;
    }
    HalfBound(m, d, x);
  }

  /** Dividing by `d >= 1` rounds to at most the numerator. */
  lemma RoundsToAtMost(n: int, d: int, r: int)
    requires d > 0 && n >= 0 && RoundsTo(n, d, r)
    ensures r <= n
  {
    if r >= 1 {
      // 2*r*d <= 2*n + d, so 2*r - 1 <= (2*r - 1)*d <= 2*n
      MulGrows(2 * r - 1, d);
      assert (2 * r - 1) * d == 2 * (r * d) - d;
    }
  }

  /** A numerator of at least one divisor rounds to a positive quotient. */
  lemma RoundsToPositive(n: int, d: int, r: int)
    requires 0 < d <= n && RoundsTo(n, d, r)
    ensures r >= 1
  {
  }
}
