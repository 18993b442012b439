/** A JavaScript number as the prayer-time code uses it: an exact real or NaN.
    Every division in the modelled code is by a non-zero constant, so no
    infinity can arise from finite inputs; NaN is the only non-real value. */
module Numbers {

  datatype Number = NaN | Real(r: real)

  /** `a + b`: NaN is absorbing. */
  function Add(a: Number, b: Number): Number
  {
    if a.Real? && b.Real? then Real(a.r + b.r) else NaN
  }

  /** `a - b`: NaN is absorbing. */
  function Sub(a: Number, b: Number): Number
  {
    if a.Real? && b.Real? then Real(a.r - b.r) else NaN
  }

  /** `a * b`: NaN is absorbing. */
  function Mul(a: Number, b: Number): Number
  {
    if a.Real? && b.Real? then Real(a.r * b.r) else NaN
  }

  /** `a / d` for a non-zero constant `d`. */
  function DivBy(a: Number, d: real): Number
    requires d != 0.0
  {
    if a.Real? then Real(a.r / d) else NaN
  }

  /** `a > b`: every comparison with NaN is false. */
  predicate Greater(a: Number, b: Number)
  {
    a.Real? && b.Real? && a.r > b.r
  }
}
