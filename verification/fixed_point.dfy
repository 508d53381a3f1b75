/** Fixed-point arithmetic on signed integers, as the contract uses it:
 *  `x * y / d` rounded down or up, and Rust's truncating integer division.
 *  Rounding down is toward negative infinity, also for negative operands. */
module FixedPoint {

  const SCALAR_7: int := 10_000_000
  const SCALAR_12: int := 1_000_000_000_000
  const SECONDS_PER_YEAR: int := 31_536_000
  const U64_MAX: int := 18_446_744_073_709_551_615

  /** `fixed_mul_floor(x, y, d)`: the largest r with r * d <= x * y. */
  function MulFloor(x: int, y: int, d: int): (r: int)
    requires d > 0
    ensures r * d <= x * y < r * d + d
  {
    (x * y) / d
  }

  /** `fixed_mul_ceil(x, y, d)`: the smallest r with x * y <= r * d. */
  function MulCeil(x: int, y: int, d: int): (r: int)
    requires d > 0
    ensures r * d - d < x * y <= r * d
  {
    -((-(x * y)) / d)
  }

  /** `fixed_div_floor(x, y, d)`: the largest r with r * y <= x * d. */
  function DivFloor(x: int, y: int, d: int): (r: int)
    requires y > 0
    ensures r * y <= x * d < r * y + y
  {
    (x * d) / y
  }

  /** `fixed_div_ceil(x, y, d)`: the smallest r with x * d <= r * y. */
  function DivCeil(x: int, y: int, d: int): (r: int)
    requires y > 0
    ensures r * y - y < x * d <= r * y
  {
    -((-(x * d)) / y)
  }

  /** Rust's `/` on signed integers, which truncates toward zero. */
  function TruncDiv(a: int, b: int): (r: int)
    requires b > 0
    ensures a >= 0 ==> r * b <= a < r * b + b
    ensures a < 0 ==> r * b - b < a <= r * b
  {
    if a >= 0 then a / b else -((-a) / b)
  }

  function Min(a: int, b: int): int
  {
    if a <= b then a else b
  }

  /** Multiplying by a non-negative factor keeps order. */
  lemma MulLeft(k: int, a: int, b: int)
    requires k >= 0 && a <= b
    ensures k * a <= k * b
  {
    assert k * b - k * a == k * (b - a);
  }

  /** A positive factor can be cancelled from a strict inequality. */
  lemma CancelLess(a: int, b: int, k: int)
    requires k > 0 && a * k < b * k
    ensures a < b
  {
    if a >= b {
      MulLeft(k, b, a);
    }
  }

  /** A positive factor can be cancelled from a non-strict inequality. */
  lemma CancelLeq(a: int, b: int, k: int)
    requires k > 0 && a * k <= b * k
    ensures a <= b
  {
    if a > b {
      MulLeft(k, b + 1, a);
    }
  }

  /** A quotient `r` of `x` by `d` rounded down is positive exactly when `x`
   *  reaches `d`. */
  lemma FloorPositive(r: int, x: int, d: int)
    requires d > 0 && r * d <= x < r * d + d
    ensures r > 0 <==> x >= d
  {
    if r > 0 {
      MulLeft(d, 1, r);
    } else {
      MulLeft(d, r, 0);
    }
  }

  /** A quotient `r` of `x` by `d` rounded up is positive exactly when `x` is. */
  lemma CeilPositive(r: int, x: int, d: int)
    requires d > 0 && r * d - d < x <= r * d
    ensures r > 0 <==> x > 0
  {
    if r > 0 {
      MulLeft(d, 1, r);
    } else {
      MulLeft(d, r, 0);
    }
  }

  /** Rounding up gives the rounded-down value or the next one, and the two
   *  agree exactly when the product divides evenly. */
  lemma {:induction false} CeilIsFloorOrNext(x: int, y: int, d: int)
    requires d > 0
    ensures MulFloor(x, y, d) <= MulCeil(x, y, d) <= MulFloor(x, y, d) + 1
    ensures MulCeil(x, y, d) == MulFloor(x, y, d) <==> (x * y) % d == 0
  {
    var f, c := MulFloor(x, y, d), MulCeil(x, y, d);
    CancelLeq(f, c, d);
    CancelLess(c - 1, f + 1, d);
    assert c - 1 < f + 1;
  }

  /** `MulFloor` is monotone in its first argument for a non-negative second one. */
  lemma MulFloorMonotone(x1: int, x2: int, y: int, d: int)
    requires d > 0 && x1 <= x2 && y >= 0
    ensures MulFloor(x1, y, d) <= MulFloor(x2, y, d)
  {
    var f1, f2 := MulFloor(x1, y, d), MulFloor(x2, y, d);
    MulLeft(y, x1, x2);
    assert x1 * y <= x2 * y;
    CancelLess(f1, f2 + 1, d);
  }

  /** `DivFloor` is monotone in its numerator for a non-negative scale. */
  lemma DivFloorMonotone(x1: int, x2: int, y: int, d: int)
    requires y > 0 && d >= 0 && x1 <= x2
    ensures DivFloor(x1, y, d) <= DivFloor(x2, y, d)
  {
    var q1, q2 := DivFloor(x1, y, d), DivFloor(x2, y, d);
    MulLeft(d, x1, x2);
    assert x1 * d <= x2 * d;
    CancelLess(q1, q2 + 1, y);
  }

  /** Rounding two parts down separately loses at most one unit against
   *  rounding their sum down. */
  lemma DivFloorSplit(x1: int, x2: int, y: int, d: int)
    requires y > 0
    ensures DivFloor(x1, y, d) + DivFloor(x2, y, d) <= DivFloor(x1 + x2, y, d)
    ensures DivFloor(x1 + x2, y, d) <= DivFloor(x1, y, d) + DivFloor(x2, y, d) + 1
  {
    var q1, q2, q := DivFloor(x1, y, d), DivFloor(x2, y, d), DivFloor(x1 + x2, y, d);
    assert (x1 + x2) * d == x1 * d + x2 * d;
    assert (q1 + q2) * y == q1 * y + q2 * y;
    CancelLess(q1 + q2, q + 1, y);
    assert (q1 + q2 + 2) * y == q1 * y + q2 * y + 2 * y;
    CancelLess(q, q1 + q2 + 2, y);
  }

  /** Scaling the first factor by `k` scales the rounded-down product by `k`,
   *  up to `k - 1` units of rounding. */
  lemma MulFloorScale(k: int, a: int, b: int, d: int)
    requires k >= 1 && d > 0
    ensures k * MulFloor(a, b, d) <= MulFloor(k * a, b, d) <= k * MulFloor(a, b, d) + k - 1
  {
    var f, g, p := MulFloor(a, b, d), MulFloor(k * a, b, d), a * b;
    assert (k * a) * b == k * p;
    MulLeft(k, f * d, p);
    MulLeft(k, p + 1, f * d + d);
    assert k * (f * d) == (k * f) * d;
    assert k * (f * d + d) == (k * f + k) * d;
    CancelLess(k * f, g + 1, d);
    CancelLess(g, k * f + k, d);
  }

  /** `MulCeil` is monotone in its first argument for a non-negative second one. */
  lemma MulCeilMonotone(x1: int, x2: int, y: int, d: int)
    requires d > 0 && x1 <= x2 && y >= 0
    ensures MulCeil(x1, y, d) <= MulCeil(x2, y, d)
  {
    var c1, c2 := MulCeil(x1, y, d), MulCeil(x2, y, d);
    MulLeft(y, x1, x2);
    assert x1 * y <= x2 * y;
    CancelLess(c1, c2 + 1, d);
  }

  /** `DivCeil` is monotone in its numerator for a non-negative scale. */
  lemma DivCeilMonotone(x1: int, x2: int, y: int, d: int)
    requires y > 0 && d >= 0 && x1 <= x2
    ensures DivCeil(x1, y, d) <= DivCeil(x2, y, d)
  {
    var c1, c2 := DivCeil(x1, y, d), DivCeil(x2, y, d);
    MulLeft(d, x1, x2);
    assert x1 * d <= x2 * d;
    CancelLess(c1, c2 + 1, y);
  }

  /** Scaling by `d / d` is exact, whichever rounding is asked for. */
  lemma CeilUnits(x: int, y: int, d: int)
    requires y > 0 && d > 0
    ensures MulCeil(d, x, d) == x
    ensures DivCeil(y, y, d) == d
  {
    var m, q := MulCeil(d, x, d), DivCeil(y, y, d);
    assert d * x == x * d;
    CancelLeq(x, m, d);
    CancelLess(m, x + 1, d);
    assert y * d == d * y;
    CancelLeq(d, q, y);
    CancelLess(q, d + 1, y);
  }
}
