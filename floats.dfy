/**
 * IEEE double values as the programs see them: a real number, one of the two
 * infinities, or NaN. Rounding is not modelled; a finite value is exact.
 */
module Floats {
  datatype Float = Finite(v: real) | PosInf | NegInf | NaN

  /** a / b in floating point: IEEE's infinities and NaN on a zero divisor. */
  function Divide(a: real, b: real): (r: Float)
    ensures r.Finite? <==> b != 0.0
    ensures r.Finite? ==> r.v * b == a
    ensures r.PosInf? <==> b == 0.0 && a > 0.0
    ensures r.NaN? <==> b == 0.0 && a == 0.0
  {
    if b != 0.0 then Finite(a / b) else if a > 0.0 then PosInf else if a < 0.0 then NegInf else NaN
  }

  /** x < c for a finite c: false for NaN and +Inf, true for -Inf. */
  predicate Below(x: Float, c: real)
  {
    x.NegInf? || (x.Finite? && x.v < c)
  }

  /** x <= c for a finite c: false for NaN and +Inf, true for -Inf. */
  predicate AtMost(x: Float, c: real)
  {
    x.NegInf? || (x.Finite? && x.v <= c)
  }
}
