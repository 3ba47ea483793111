/** The torus wrap from the unit tests: `wrap(value, max)` maps a value
    into `[-max, max)` by subtracting a whole number of periods `2*max`.
    Modelled over `real`, where the arithmetic is exact.
 */
module Torus {

  /** The number of whole periods `2*max` that `wrap` subtracts. */
  function Periods(v: real, max: real): int
    requires max > 0.0
  {
    ((v + max) / (2.0 * max)).Floor
  }

  /** `wrap(value:max:)`: `value - floor((value+max) / (2*max)) * (2*max)`. */
  function Wrap(v: real, max: real): (r: real)
    requires max > 0.0
    ensures -max <= r < max
  {
    var k := Periods(v, max) as real;
    DivLowerBound(v + max, k, 2.0 * max);
    DivUpperBound(v + max, k + 1.0, 2.0 * max);
    v - k * (2.0 * max)
  }

  /** `g <= a/p` exactly when `g*p <= a`, for a positive divisor `p`. */
  lemma DivLowerBound(a: real, g: real, p: real)
    requires p > 0.0
    ensures g <= a / p <==> g * p <= a
  {
  }

  /** `a/p < g` exactly when `a < g*p`, for a positive divisor `p`. */
  lemma DivUpperBound(a: real, g: real, p: real)
    requires p > 0.0
    ensures a / p < g <==> a < g * p
  {
    DivLowerBound(a, g, p);
  }

  /** `Wrap` is the only value in `[-max, max)` that differs from `v` by a
      whole number of periods. */
  lemma WrapUnique(v: real, max: real, w: real, k: int)
    requires max > 0.0
    requires -max <= w < max
    requires w == v - k as real * (2.0 * max)
    ensures Wrap(v, max) == w
  {
    var p := 2.0 * max;
    DivLowerBound(v + max, k as real, p);
    DivUpperBound(v + max, k as real + 1.0, p);
    assert Periods(v, max) == k;
  }

  /** `wrap` is the identity on `[-max, max)`. */
  lemma WrapIdentity(v: real, max: real)
    requires max > 0.0
    requires -max <= v < max
    ensures Wrap(v, max) == v
  {
    WrapUnique(v, max, v, 0);
  }

  /** `wrap` is idempotent. */
  lemma WrapIdempotent(v: real, max: real)
    requires max > 0.0
    ensures Wrap(Wrap(v, max), max) == Wrap(v, max)
  {
    WrapIdentity(Wrap(v, max), max);
  }

  /** Adding any whole number of periods does not change the result. */
  lemma WrapPeriodic(v: real, max: real, n: int)
    requires max > 0.0
    ensures Wrap(v + n as real * (2.0 * max), max) == Wrap(v, max)
  {
    var k := Periods(v, max);
    WrapUnique(v + n as real * (2.0 * max), max, Wrap(v, max), k + n);
  }

  /** The upper end of the range is sent to the lower end. */
  lemma WrapUpperBound(max: real)
    requires max > 0.0
    ensures Wrap(max, max) == -max
  {
    WrapUnique(max, max, -max, 1);
  }

  /** The expected values of the `testWrap` tables with `max == 1`. */
  lemma WrapTableMaxOne()
    ensures Wrap(-5.0, 1.0) == -1.0
    ensures Wrap(-4.7, 1.0) == -0.7
    ensures Wrap(-3.5, 1.0) == 0.5
    ensures Wrap(-3.0, 1.0) == -1.0
    ensures Wrap(0.0, 1.0) == 0.0
    ensures Wrap(0.3, 1.0) == 0.3
    ensures Wrap(1.0, 1.0) == -1.0
    ensures Wrap(1.1, 1.0) == -0.9
    ensures Wrap(1.8, 1.0) == -0.2
  {
    WrapUnique(-5.0, 1.0, -1.0, -2);
    WrapUnique(-4.7, 1.0, -0.7, -2);
    WrapUnique(-3.5, 1.0, 0.5, -2);
    WrapUnique(-3.0, 1.0, -1.0, -1);
    WrapUnique(0.0, 1.0, 0.0, 0);
    WrapUnique(0.3, 1.0, 0.3, 0);
    WrapUnique(1.0, 1.0, -1.0, 1);
    WrapUnique(1.1, 1.0, -0.9, 1);
    WrapUnique(1.8, 1.0, -0.2, 1);
  }

  /** The expected values of the `testWrap` tables with `max == 3`. */
  lemma WrapTableMaxThree()
    ensures Wrap(-10.0, 3.0) == 2.0
    ensures Wrap(-5.0, 3.0) == 1.0
    ensures Wrap(-4.7, 3.0) == 1.3
    ensures Wrap(-3.5, 3.0) == 2.5
    ensures Wrap(-3.0, 3.0) == -3.0
    ensures Wrap(0.0, 3.0) == 0.0
    ensures Wrap(0.3, 3.0) == 0.3
    ensures Wrap(1.0, 3.0) == 1.0
    ensures Wrap(1.8, 3.0) == 1.8
    ensures Wrap(2.9, 3.0) == 2.9
    ensures Wrap(3.0, 3.0) == -3.0
    ensures Wrap(3.5, 3.0) == -2.5
    ensures Wrap(4.0, 3.0) == -2.0
  {
    WrapUnique(-10.0, 3.0, 2.0, -2);
    WrapUnique(-5.0, 3.0, 1.0, -1);
    WrapUnique(-4.7, 3.0, 1.3, -1);
    WrapUnique(-3.5, 3.0, 2.5, -1);
    WrapUnique(-3.0, 3.0, -3.0, 0);
    WrapUnique(0.0, 3.0, 0.0, 0);
    WrapUnique(0.3, 3.0, 0.3, 0);
    WrapUnique(1.0, 3.0, 1.0, 0);
    WrapUnique(1.8, 3.0, 1.8, 0);
    WrapUnique(2.9, 3.0, 2.9, 0);
    WrapUnique(3.0, 3.0, -3.0, 1);
    WrapUnique(3.5, 3.0, -2.5, 1);
    WrapUnique(4.0, 3.0, -2.0, 1);
  }
}
