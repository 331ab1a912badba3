/** JavaScript numbers as the dashboard uses them. Finite values are exact
    reals (IEEE-754 rounding is not modelled); the three non-finite values
    are kept because the dashboard really produces them: `0 / 0` for a
    product whose summed sold count is zero, and `Math.min()` /
    `Math.max()` of an empty list. */
module Numbers {

  datatype Num = Fin(value: real) | PosInf | NegInf | NaN

  /** `a <= b` on JavaScript numbers: every comparison with NaN is false. */
  predicate Le(a: Num, b: Num)
  {
    if a.NaN? || b.NaN? then false
    else if a.NegInf? || b.PosInf? then true
    else if a.PosInf? || b.NegInf? then false
    else a.value <= b.value
  }

  /** `a / b` for finite operands: division by zero gives NaN for `0 / 0`
      and a signed infinity otherwise. */
  function Div(a: real, b: real): (r: Num)
    ensures b != 0.0 ==> r == Fin(a / b)
    ensures b == 0.0 && a > 0.0 ==> r == PosInf
    ensures b == 0.0 && a < 0.0 ==> r == NegInf
    ensures b == 0.0 && a == 0.0 ==> r == NaN
  {
    if b != 0.0 then Fin(a / b)
    else if a > 0.0 then PosInf
    else if a < 0.0 then NegInf
    else NaN
  }

  /** `x * k` for a positive finite factor `k`. */
  function Scale(x: Num, k: real): (r: Num)
    requires k > 0.0
    ensures x.Fin? <==> r.Fin?
    ensures x.Fin? ==> r.value == x.value * k
    ensures !x.Fin? ==> r == x
  {
    match x
    case Fin(v) => Fin(v * k)
    case _ => x
  }

  /** A sold count as a JavaScript number. */
  function OfNat(n: nat): Num
  {
    Fin(n as real)
  }
}
