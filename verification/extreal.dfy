/** IEEE-style extended reals: the values a float64 array element can take,
    without modelling rounding, the sign of zero or the width of the format. */
module ExtReals {

  datatype ExtReal = Fin(r: real) | PosInf | NegInf | NaN {

    /** numpy's `isinf`: true for both infinities. */
    predicate IsInfinite() {
      PosInf? || NegInf?
    }

    /** The comparison `x <= 0` as a float: false for NaN. */
    predicate AtMostZero() {
      match this
      case Fin(v) => v <= 0.0
      case NegInf => true
      case PosInf => false
      case NaN => false
    }
  }

  const Zero: ExtReal := Fin(0.0)

  /** The float division `1. / x`. A zero divisor gives an infinity (numpy
      returns +inf or -inf depending on the sign of the zero; this model has
      one zero and answers +inf), an infinite divisor gives zero, NaN stays
      NaN. The rounding of a finite quotient is not modelled. */
  function Recip(x: ExtReal): (r: ExtReal)
    ensures x == Zero ==> r.IsInfinite()
    ensures x.IsInfinite() ==> r == Zero
    ensures r.NaN? <==> x.NaN?
    ensures x.Fin? && x.r != 0.0 ==> r.Fin? && r.r * x.r == 1.0
    ensures x.Fin? && x.r > 0.0 ==> r.Fin? && r.r > 0.0
  {
    match x
    case Fin(v) => if v == 0.0 then PosInf else Fin(1.0 / v)
    case PosInf => Zero
    case NegInf => Zero
    case NaN => NaN
  }
}
