/**
 * The older calculator of utils/termDepositCalculator.ts: the term arrives
 * directly in years, interest always compounds monthly, and nothing is
 * validated, so every input yields a balance.
 */
module LegacyCalculator {
  import opened Power
  import opened Interest
  import Calculator

  /** `getInterestCompoundingFrequency`: twelve periods a year, whatever the inputs. */
  function CompoundingFrequency(): real
  {
    12.0
  }

  /**
   * The legacy frequency is the newer calculator's monthly frequency, for
   * every term and every input.
   */
  lemma FrequencyIsMonthly(termInYears: real)
    ensures CompoundingFrequency() == 12.0
    ensures Calculator.CompoundingFrequency(Calculator.Monthly, termInYears) == Calculator.Ok(CompoundingFrequency())
  {
  }

  /**
   * `calculateFinalBalance` without the final `toFixed(2)`: the rate is a
   * percentage, compounded monthly over the given number of years.
   */
  function FinalBalance(deposit: real, termInYears: real, rate: real): (a: Accrual)
    ensures a.principal == deposit
    ensures a.ratePerPeriod * 1200.0 == rate
    ensures a.periods == 12.0 * termInYears
  {
    var frequency := CompoundingFrequency();
    var decimalRate := rate / 100.0;
    Accrual(deposit, decimalRate / frequency, frequency * termInYears)
  }

  /** Over a whole number of months (t = months/12) the exponent is that natural number. */
  lemma WholeMonths(deposit: real, months: nat, rate: real)
    ensures Amount(FinalBalance(deposit, months as real / 12.0, rate)).Some?
    ensures Amount(FinalBalance(deposit, months as real / 12.0, rate)).value
         == deposit * NatPow(1.0 + rate / 1200.0, months)
  {
    assert 12.0 * (months as real / 12.0) == months as real;
  }

  /** A zero rate returns the deposit for every term. */
  lemma ZeroRateKeepsDeposit(deposit: real, termInYears: real)
    ensures Amount(FinalBalance(deposit, termInYears, 0.0)) == Some(deposit)
  {
  }

  /**
   * The legacy calculator and the monthly pipeline agree: for any end month
   * the pipeline accepts, monthly compounding builds the same balance as the
   * legacy formula over the resolved number of years.
   */
  lemma AgreesWithMonthly(deposit: Calculator.Number, endDate: Calculator.MonthInput, rate: Calculator.Number, now: Calculator.YearMonth)
    requires Calculator.ValidInputs(deposit, endDate, rate) && Calculator.TermInMonths(now, endDate.date) > 0
    ensures Calculator.FinalBalance(deposit, endDate, rate, Calculator.Monthly, now)
         == Calculator.Ok(FinalBalance(deposit.value, Calculator.InvestmentTermInYears(now, endDate.date).value, rate.value))
  {
  }

  /** (12011/12000)^36, computed by repeated squaring. */
  lemma ScenarioGrowth()
    ensures NatPow(12011.0 / 12000.0, 36) * 10000.0 >= 10335.345
    ensures NatPow(12011.0 / 12000.0, 36) * 10000.0 < 10335.355
  {
    var b := 12011.0 / 12000.0;
    NatPowAdd(b, 1, 1);
    NatPowAdd(b, 2, 2);
    NatPowAdd(b, 4, 4);
    NatPowAdd(b, 8, 8);
    NatPowAdd(b, 16, 16);
    NatPowAdd(b, 32, 4);
  }

  /**
   * 10000 at 1.1% for three years, compounded monthly: the exact balance lies
   * within half a cent of 10335.35.
   */
  lemma MonthlyScenario()
    ensures Amount(FinalBalance(10000.0, 3.0, 1.1)).Some?
    ensures 10335.345 <= Amount(FinalBalance(10000.0, 3.0, 1.1)).value < 10335.355
  {
    WholeMonths(10000.0, 36, 1.1);
    assert 36 as real / 12.0 == 3.0;
    assert 1.0 + 1.1 / 1200.0 == 12011.0 / 12000.0;
    ScenarioGrowth();
  }
}
