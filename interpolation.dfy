/**
 * Model of app/utils/interpolation.py.
 *
 * Instants are integer microseconds (the resolution of Python's `timedelta`);
 * values are exact reals in place of Python floats. The ratio of two
 * `total_seconds()` durations is the ratio of the two microsecond differences.
 */
module Interpolation {

  /** The straight-line value at `target` through (t0, v0) and (t1, v1);
      `v0` itself when the interval is empty or inverted (t1 <= t0), so the
      division is only ever evaluated when t1 - t0 is positive. */
  function LinearInterpolate(t0: int, v0: real, t1: int, v1: real, target: int): (r: real)
    ensures t1 <= t0 ==> r == v0
  {
    if t1 <= t0 then v0
    else v0 + (v1 - v0) * ((target - t0) as real / (t1 - t0) as real)
  }

  /** On a proper interval the result is the point of the line through the
      two samples, stated without division:
      (r - v0) * (t1 - t0) == (v1 - v0) * (target - t0). */
  lemma OnTheLine(t0: int, v0: real, t1: int, v1: real, target: int)
    requires t0 < t1
    ensures var r := LinearInterpolate(t0, v0, t1, v1, target);
      (r - v0) * (t1 - t0) as real == (v1 - v0) * (target - t0) as real
  {
    var d := (t1 - t0) as real;
    var ratio := (target - t0) as real / d;
    assert ratio * d == (target - t0) as real;
    assert (v1 - v0) * ratio * d == (v1 - v0) * (ratio * d);
  }

  /** In the degenerate case the result depends on neither `v1` nor `target`. */
  lemma DegenerateIgnoresEndAndTarget(t0: int, v0: real, t1: int, v1: real, target: int, v1': real, target': int)
    requires t1 <= t0
    ensures LinearInterpolate(t0, v0, t1, v1, target) == LinearInterpolate(t0, v0, t1, v1', target')
    ensures LinearInterpolate(t0, v0, t1, v1, target) == v0
  {
  }

  /** On a proper interval the line passes through both given samples. */
  lemma HitsEndpoints(t0: int, v0: real, t1: int, v1: real)
    requires t0 < t1
    ensures LinearInterpolate(t0, v0, t1, v1, t0) == v0
    ensures LinearInterpolate(t0, v0, t1, v1, t1) == v1
  {
    var d := (t1 - t0) as real;
    assert (t1 - t0) as real / d == 1.0;
  }

  /** Inside a proper interval the result lies between the two sample values. */
  lemma BetweenEndpoints(t0: int, v0: real, t1: int, v1: real, target: int)
    requires t0 < t1 && t0 <= target <= t1
    ensures v0 <= v1 ==> v0 <= LinearInterpolate(t0, v0, t1, v1, target) <= v1
    ensures v1 <= v0 ==> v1 <= LinearInterpolate(t0, v0, t1, v1, target) <= v0
  {
    var ratio := (target - t0) as real / (t1 - t0) as real;
    RatioInUnit(target - t0, t1 - t0);
    ScaledBetween(v0, v1, ratio);
  }

  /** The result moves monotonically with the target, in the direction of the
      samples: non-decreasing for v0 <= v1, non-increasing for v1 <= v0. */
  lemma MonotoneInTarget(t0: int, v0: real, t1: int, v1: real, target: int, target': int)
    requires t0 < t1 && target <= target'
    ensures v0 <= v1 ==> LinearInterpolate(t0, v0, t1, v1, target) <= LinearInterpolate(t0, v0, t1, v1, target')
    ensures v1 <= v0 ==> LinearInterpolate(t0, v0, t1, v1, target') <= LinearInterpolate(t0, v0, t1, v1, target)
  {
    var d := (t1 - t0) as real;
    var a := (target - t0) as real / d;
    var b := (target' - t0) as real / d;
    assert a <= b by {
      assert a * d == (target - t0) as real;
      assert b * d == (target' - t0) as real;
    }
    if v0 <= v1 {
      assert (v1 - v0) * a <= (v1 - v0) * b;
    } else {
      assert (v1 - v0) * b <= (v1 - v0) * a;
    }
  }

  lemma RatioInUnit(n: int, d: int)
    requires 0 <= n <= d && 0 < d
    ensures 0.0 <= n as real / d as real <= 1.0
  {
  }

  lemma ScaledBetween(v0: real, v1: real, ratio: real)
    requires 0.0 <= ratio <= 1.0
    ensures v0 <= v1 ==> v0 <= v0 + (v1 - v0) * ratio <= v1
    ensures v1 <= v0 ==> v1 <= v0 + (v1 - v0) * ratio <= v0
  {
    var d := v1 - v0;
    assert d * ratio + d * (1.0 - ratio) == d;
    if v0 <= v1 {
      MulNonNegative(d, ratio);
      MulNonNegative(d, 1.0 - ratio);
    } else {
      MulNonNegative(-d, ratio);
      MulNonNegative(-d, 1.0 - ratio);
    }
  }

  lemma MulNonNegative(a: real, b: real)
    requires 0.0 <= a && 0.0 <= b
    ensures 0.0 <= a * b
  {
  }
}
