/** Angle and hour normalisation of `DMath` (src/PrayTimes.js) and `timeDiff`. */
module DMath {
  import opened Numbers

  /** `x` is a whole number. */
  predicate IsIntegral(x: real)
  {
    x.Floor as real == x
  }

  /** `x * b` is monotone in `x` for a positive factor `b`. */
  lemma MulMonotone(x: real, y: real, b: real)
    ensures x <= y && b > 0.0 ==> x * b <= y * b
  {
    if x <= y && b > 0.0 {
      assert y * b - x * b == (y - x) * b;
    }
  }

  /** Strict monotonicity of `x * b` for a positive factor `b`. */
  lemma MulStrict(x: real, y: real, b: real)
    ensures x < y && b > 0.0 ==> x * b < y * b
  {
    if x < y && b > 0.0 {
      assert y * b - x * b == (y - x) * b;
    }
  }

  /** A whole multiple of a positive `b` that lies in [0, 2b) is 0 or b. */
  lemma SmallMultiple(n: int, b: real, p: real)
    requires b > 0.0
    requires p == n as real * b
    requires 0.0 <= p < 2.0 * b
    ensures n == 0 || n == 1
  {
    MulMonotone(2.0, n as real, b);
    MulMonotone(n as real, -1.0, b);
  }

  /** `fix(a, b)`: `a` reduced modulo `b` into [0, b). The result differs from
      `a` by a whole multiple of `b`. The source's final `a < 0 ? a + b : a`
      guards against floating-point rounding; with exact reals it never fires. */
  function Fix(a: real, b: real): (r: real)
    requires b > 0.0
    ensures 0.0 <= r < b
    ensures IsIntegral((a - r) / b)
  {
    var x := a - b * (a / b).Floor as real;
    FloorRemainder(a, b);
    if x < 0.0 then x + b else x
  }

  /** `a - b * floor(a / b)` lies in [0, b) and differs from `a` by a whole
      multiple of `b`. */
  lemma FloorRemainder(a: real, b: real)
    requires b > 0.0
    ensures 0.0 <= a - b * (a / b).Floor as real < b
    ensures IsIntegral((a - (a - b * (a / b).Floor as real)) / b)
  {
    var q := a / b;
    var k := q.Floor as real;
    Quotient(a, b);
    Above(a, b, q, k);
    Below(a, b, q, k);
    assert a - (a - b * k) == b * k;
    Quotient(k, b);
    assert (a - (a - b * k)) / b == k;
    assert IsIntegral(k);
    assert k == (a / b).Floor as real;
    assert (a - (a - b * (a / b).Floor as real)) / b == k;
  }

  /** With `a == q * b` and `k` the whole part of `q`, `a - b * k` is not negative. */
  lemma Above(a: real, b: real, q: real, k: real)
    requires b > 0.0 && q * b == a && k <= q < k + 1.0
    ensures 0.0 <= a - b * k
  {
    MulMonotone(0.0, q - k, b);
    assert (q - k) * b == q * b - k * b;
    assert 0.0 * b == 0.0;
    assert b * k == k * b;
  }

  /** With `a == q * b` and `k` the whole part of `q`, `a - b * k` is below `b`. */
  lemma Below(a: real, b: real, q: real, k: real)
    requires b > 0.0 && q * b == a && k <= q < k + 1.0
    ensures a - b * k < b
  {
    MulStrict(q - k, 1.0, b);
    assert (q - k) * b == q * b - k * b;
    assert 1.0 * b == b;
    assert b * k == k * b;
  }

  /** Multiplying back by a non-zero divisor undoes the division, and
      dividing a multiple recovers the factor. */
  lemma Quotient(a: real, b: real)
    requires b != 0.0
    ensures (a / b) * b == a
    ensures (b * a) / b == a
  {
  }

  /** Two values in [0, b) that differ from `a` by whole multiples of `b` are equal. */
  lemma FixUnique(a: real, b: real, x: real)
    requires b > 0.0
    requires 0.0 <= x < b
    requires IsIntegral((a - x) / b)
    ensures Fix(a, b) == x
  {
    var r := Fix(a, b);
    var k := ((a - r) / b).Floor;
    var j := ((a - x) / b).Floor;
    assert a - r == k as real * b;
    assert a - x == j as real * b;
    assert (k - j + 1) as real * b == k as real * b - j as real * b + b;
    assert x - r + b == (k - j + 1) as real * b;
    SmallMultiple(k - j + 1, b, x - r + b);
    assert x - r == (k - j) as real * b;
  }

  /** Shifting the input by a whole number of periods does not change `Fix`. */
  lemma FixPeriodic(a: real, b: real, n: int)
    requires b > 0.0
    ensures Fix(a + n as real * b, b) == Fix(a, b)
  {
    var r := Fix(a, b);
    var k := ((a - r) / b).Floor;
    assert a - r == k as real * b;
    assert (a + n as real * b - r) == (k + n) as real * b;
    assert (a + n as real * b - r) / b == (k + n) as real;
    FixUnique(a + n as real * b, b, r);
  }

  /** `Fix` is idempotent and is the identity on [0, b). */
  lemma FixIdentityOnRange(a: real, b: real)
    requires b > 0.0
    requires 0.0 <= a < b
    ensures Fix(a, b) == a
  {
    assert (a - a) / b == 0.0;
    FixUnique(a, b, a);
  }

  /** `fixAngle`: wrap degrees into [0, 360). */
  function FixAngle(a: real): (r: real)
    ensures 0.0 <= r < 360.0
    ensures IsIntegral((a - r) / 360.0)
  {
    Fix(a, 360.0)
  }

  /** `fixHour`: wrap hours into [0, 24); NaN stays NaN. */
  function FixHour(t: Number): (r: Number)
    ensures r.Real? <==> t.Real?
    ensures r.Real? ==> 0.0 <= r.r < 24.0 && IsIntegral((t.r - r.r) / 24.0)
  {
    match t
    case NaN => NaN
    case Real(a) => Real(Fix(a, 24.0))
  }

  /** `timeDiff(t1, t2)`: the forward distance from `t1` to `t2` on a 24-hour
      clock, always in [0, 24), and zero from a time to itself. */
  function TimeDiff(t1: Number, t2: Number): (r: Number)
    ensures r.Real? <==> t1.Real? && t2.Real?
    ensures r.Real? ==> 0.0 <= r.r < 24.0 && IsIntegral((t2.r - t1.r - r.r) / 24.0)
    ensures t1.Real? && t1 == t2 ==> r == Real(0.0)
  {
    if t1.Real? && t1 == t2 then
      assert (t2.r - t1.r - 0.0) / 24.0 == 0.0;
      FixUnique(0.0, 24.0, 0.0);
      FixHour(Sub(t2, t1))
    else
      FixHour(Sub(t2, t1))
  }

  /** Going from `a` to `b` and back from `b` to `a` covers either no time at
      all (the same clock time) or exactly one full day. */
  lemma TimeDiffRoundTrip(a: real, b: real)
    ensures var f, g := TimeDiff(Real(a), Real(b)).r, TimeDiff(Real(b), Real(a)).r;
      (f == 0.0 <==> g == 0.0) && (f + g == 0.0 || f + g == 24.0)
  {
    var f := TimeDiff(Real(a), Real(b)).r;
    var g := TimeDiff(Real(b), Real(a)).r;
    var k := ((b - a - f) / 24.0).Floor;
    var j := ((a - b - g) / 24.0).Floor;
    assert b - a - f == k as real * 24.0;
    assert a - b - g == j as real * 24.0;
    assert f + g == -(k + j) as real * 24.0;
    SmallMultiple(-(k + j), 24.0, f + g);
  }
}
