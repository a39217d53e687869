/**
 * The compound-interest expression both calculators evaluate:
 *
 *   principal * Math.pow(1 + ratePerPeriod, periods)
 *
 * kept as the three numbers it is built from, so that the calculators can be
 * described exactly even when `periods` is fractional, and evaluated by
 * `Amount` in the cases where the power has a determined real value.
 */
module Interest {
  import opened Power

  /** principal * (1 + ratePerPeriod)^periods, not yet evaluated. */
  datatype Accrual = Accrual(principal: real, ratePerPeriod: real, periods: real)

  /** The real value of an accrual, where the power in it is determined. */
  function Amount(a: Accrual): (r: Option<real>)
    ensures r.Some? <==> IsWhole(a.periods) || a.ratePerPeriod == 0.0
    ensures IsWhole(a.periods) ==>
      r.Some? && r.value == a.principal * NatPow(1.0 + a.ratePerPeriod, a.periods.Floor)
    ensures a.ratePerPeriod == 0.0 ==> r == Some(a.principal)
    ensures a.periods == 1.0 ==> r.Some? && r.value == a.principal * (1.0 + a.ratePerPeriod)
  {
    var growth := Pow(1.0 + a.ratePerPeriod, a.periods);
    if growth.Some? then Some(a.principal * growth.value) else None
  }
}
