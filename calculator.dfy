/**
 * The term-deposit balance calculator of src/utils/termDepositCalculator.ts.
 *
 * `FinalBalance` runs the pipeline: validate the raw inputs, resolve the
 * term from the end month, resolve the compounding frequency, then build
 * principal * (1 + r/n)^(n*t). Every thrown error is an `Err` value. The
 * clock that the source reads is the parameter `now`, and the "YYYY-MM"
 * end-date string arrives already split into a year and a month.
 */
module Calculator {
  import opened Power
  import opened Interest

  const MonthsInYear: int := 12
  const QuartersInYear: int := 4

  /** A JavaScript number as the calculator inspects it. */
  datatype Number = NaN | Finite(value: real)

  /** `isNaN(x)`. */
  predicate IsNaN(x: Number)
  {
    x.NaN?
  }

  /** `x <= 0`: every comparison with NaN is false. */
  predicate AtMostZero(x: Number)
  {
    x.Finite? && x.value <= 0.0
  }

  /** `getMonth()` counts months from 0 (January) to 11 (December). */
  type MonthIndex = m: int | 0 <= m < 12

  /** A calendar month as `Date` reports it: `getFullYear()` and `getMonth()`. */
  datatype YearMonth = YearMonth(year: int, month: MonthIndex)

  /** The end-date field: empty, or a month the user picked. */
  datatype MonthInput = Empty | Month(date: YearMonth)

  /** The strings of the `InterestPaymentFrequency` members. */
  const KnownTags: set<string> := {"monthly", "quarterly", "yearly", "atMaturity"}

  /** A tag string that names no member of the enumeration. */
  type UnknownTag = tag: string | tag !in KnownTags witness ""

  /** `InterestPaymentFrequency`, plus any tag outside the enumeration. */
  datatype Frequency = Monthly | Quarterly | Yearly | AtMaturity | Unrecognized(tag: UnknownTag)

  /** The string each enumeration member stands for. */
  function TagOf(f: Frequency): string
  {
    match f
    case Monthly => "monthly"
    case Quarterly => "quarterly"
    case Yearly => "yearly"
    case AtMaturity => "atMaturity"
    case Unrecognized(tag) => tag
  }

  /** The frequency a tag string selects, as a lookup keyed by the enum's strings. */
  function FrequencyOf(tag: string): (f: Frequency)
    ensures TagOf(f) == tag
  {
    if tag == "monthly" then Monthly
    else if tag == "quarterly" then Quarterly
    else if tag == "yearly" then Yearly
    else if tag == "atMaturity" then AtMaturity
    else Unrecognized(tag)
  }

  /** The errors the calculator throws. */
  datatype Error =
    | DepositNotPositive
    | EndDateRequired
    | RateNotANumber
    | EndDateNotAfterCurrent
    | InvalidFrequency

  /** The message each thrown `Error` carries. */
  function Message(e: Error): string
  {
    match e
    case DepositNotPositive => "Initial deposit must be a positive number"
    case EndDateRequired => "End date is required"
    case RateNotANumber => "Annual interest rate must be a valid number"
    case EndDateNotAfterCurrent => "End date cannot be before or the same as the current date"
    case InvalidFrequency => "Invalid interest payment frequency"
  }

  /** Distinct errors carry distinct messages, so the displayed text identifies the error. */
  lemma MessageIdentifiesError(e1: Error, e2: Error)
    ensures Message(e1) == Message(e2) <==> e1 == e2
  {
  }

  datatype Result<T> = Ok(value: T) | Err(error: Error)

  /** `validateInputs`: returns normally, or throws. */
  datatype Outcome = Pass | Fail(error: Error)

  /** The inputs `validateInputs` lets through. */
  predicate ValidInputs(deposit: Number, endDate: MonthInput, rate: Number)
  {
    deposit.Finite? && deposit.value > 0.0 && endDate.Month? && rate.Finite?
  }

  /** `validateInputs`: deposit first, then end date, then rate. */
  function ValidateInputs(deposit: Number, endDate: MonthInput, rate: Number): (r: Outcome)
    ensures r == Pass <==> ValidInputs(deposit, endDate, rate)
  {
    if AtMostZero(deposit) || IsNaN(deposit) then Fail(DepositNotPositive)
    else if endDate.Empty? then Fail(EndDateRequired)
    else if IsNaN(rate) then Fail(RateNotANumber)
    else Pass
  }

  /** Whole months from the current month to the end month. */
  function TermInMonths(now: YearMonth, end: YearMonth): int
  {
    (end.year - now.year) * MonthsInYear + (end.month - now.month)
  }

  /** `calculateInvestmentTermInYears`, with the clock passed in as `now`. */
  function InvestmentTermInYears(now: YearMonth, end: YearMonth): (r: Result<real>)
    ensures r.Ok? <==> TermInMonths(now, end) > 0
    ensures r.Err? ==> r.error == EndDateNotAfterCurrent
    ensures r.Ok? ==> r.value > 0.0 && r.value * (MonthsInYear as real) == TermInMonths(now, end) as real
  {
    var months := TermInMonths(now, end);
    if months <= 0 then Err(EndDateNotAfterCurrent)
    else Ok(months as real / MonthsInYear as real)
  }

  /**
   * `getInterestCompoundingFrequency`: compounding periods per year. Only
   * `AtMaturity` divides by the term, so only it needs a non-zero term.
   */
  function CompoundingFrequency(f: Frequency, termInYears: real): (r: Result<real>)
    requires f.AtMaturity? ==> termInYears != 0.0
    ensures r.Err? <==> f.Unrecognized?
    ensures r.Err? ==> r.error == InvalidFrequency
    ensures r.Ok? ==> r.value != 0.0
    ensures termInYears > 0.0 && r.Ok? ==> r.value > 0.0
  {
    match f
    case Monthly => Ok(MonthsInYear as real)
    case Quarterly => Ok(QuartersInYear as real)
    case Yearly => Ok(1.0)
    case AtMaturity => Ok(1.0 / termInYears)
    case Unrecognized(_) => Err(InvalidFrequency)
  }

  /** `calculateCompoundInterest`: P * (1 + r/n)^(n*t), with r as a decimal. */
  function CompoundInterest(principal: real, annualRate: real, frequency: real, termInYears: real): (a: Accrual)
    requires frequency != 0.0
    ensures a.principal == principal
    ensures a.ratePerPeriod * frequency == annualRate
    ensures a.periods == frequency * termInYears
  {
    Accrual(principal, annualRate / frequency, frequency * termInYears)
  }

  /**
   * `calculateFinalBalance` without the final `toFixed(2)`: validation, then
   * the term, then the frequency, then the formula on the rate as a percentage.
   */
  function FinalBalance(deposit: Number, endDate: MonthInput, rate: Number, f: Frequency, now: YearMonth): (r: Result<Accrual>)
    ensures r.Ok? <==>
      ValidInputs(deposit, endDate, rate) && TermInMonths(now, endDate.date) > 0 && !f.Unrecognized?
    ensures r.Ok? ==> r.value.principal == deposit.value
  {
    match ValidateInputs(deposit, endDate, rate)
    case Fail(e) => Err(e)
    case Pass =>
      match InvestmentTermInYears(now, endDate.date)
      case Err(e) => Err(e)
      case Ok(termInYears) =>
        match CompoundingFrequency(f, termInYears)
        case Err(e) => Err(e)
        case Ok(frequency) =>
          var decimalRate := rate.value / 100.0;
          Ok(CompoundInterest(deposit.value, decimalRate, frequency, termInYears))
  }

  // Validation

  /**
   * Each validation error is reported exactly when the earlier checks pass
   * and its own check fails; zero and negative rates pass.
   */
  lemma ValidationOrder(deposit: Number, endDate: MonthInput, rate: Number)
    ensures ValidateInputs(deposit, endDate, rate) == Fail(DepositNotPositive)
      <==> deposit.NaN? || deposit.value <= 0.0
    ensures ValidateInputs(deposit, endDate, rate) == Fail(EndDateRequired)
      <==> deposit.Finite? && deposit.value > 0.0 && endDate.Empty?
    ensures ValidateInputs(deposit, endDate, rate) == Fail(RateNotANumber)
      <==> deposit.Finite? && deposit.value > 0.0 && endDate.Month? && rate.NaN?
  {
  }

  // Term resolution

  /**
   * With months numbered as `getMonth` numbers them, the term resolves
   * exactly when the end month comes strictly after the current month; the
   * current month itself is rejected.
   */
  lemma EndMonthMustBeLater(now: YearMonth, end: YearMonth)
    ensures InvestmentTermInYears(now, end).Ok?
      <==> now.year < end.year || (now.year == end.year && now.month < end.month)
    ensures InvestmentTermInYears(now, now) == Err(EndDateNotAfterCurrent)
  {
  }

  /** May 2023 to May 2026 is 36 months, three years; January 2022 and May 2023 are rejected. */
  lemma TermScenarios()
    ensures TermInMonths(YearMonth(2023, 4), YearMonth(2026, 4)) == 36
    ensures InvestmentTermInYears(YearMonth(2023, 4), YearMonth(2026, 4)) == Ok(3.0)
    ensures InvestmentTermInYears(YearMonth(2023, 4), YearMonth(2022, 0)) == Err(EndDateNotAfterCurrent)
    ensures InvestmentTermInYears(YearMonth(2023, 4), YearMonth(2023, 4)) == Err(EndDateNotAfterCurrent)
  {
  }

  // Frequency resolution

  /** Monthly, quarterly and yearly compounding do not depend on the term. */
  lemma FixedFrequencies(termInYears: real)
    ensures CompoundingFrequency(Monthly, termInYears) == Ok(12.0)
    ensures CompoundingFrequency(Quarterly, termInYears) == Ok(4.0)
    ensures CompoundingFrequency(Yearly, termInYears) == Ok(1.0)
  {
  }

  /** Paying at maturity compounds once over the whole term: n * t == 1. */
  lemma AtMaturityCompoundsOnce(termInYears: real)
    requires termInYears != 0.0
    ensures CompoundingFrequency(AtMaturity, termInYears).Ok?
    ensures CompoundingFrequency(AtMaturity, termInYears).value * termInYears == 1.0
  {
  }

  /**
   * Reading back the string of a frequency gives the frequency, and a
   * frequency is in the enumeration iff its string is one of the members'.
   */
  lemma TagRoundTrip(f: Frequency)
    ensures FrequencyOf(TagOf(f)) == f
    ensures f.Unrecognized? <==> TagOf(f) !in KnownTags
  {
  }

  // The pipeline

  /**
   * Errors come out in pipeline order: a validation error wins over a term
   * error, which wins over a frequency error.
   */
  lemma ErrorPrecedence(deposit: Number, endDate: MonthInput, rate: Number, f: Frequency, now: YearMonth)
    ensures ValidateInputs(deposit, endDate, rate).Fail? ==>
      FinalBalance(deposit, endDate, rate, f, now) == Err(ValidateInputs(deposit, endDate, rate).error)
    ensures ValidInputs(deposit, endDate, rate) && TermInMonths(now, endDate.date) <= 0 ==>
      FinalBalance(deposit, endDate, rate, f, now) == Err(EndDateNotAfterCurrent)
    ensures ValidInputs(deposit, endDate, rate) && TermInMonths(now, endDate.date) > 0 && f.Unrecognized? ==>
      FinalBalance(deposit, endDate, rate, f, now) == Err(InvalidFrequency)
  {
  }

  /**
   * Monthly compounding over an end-month term: one period per whole month,
   * at a twelfth of the percentage rate per period.
   */
  lemma MonthlyCompoundsEachMonth(deposit: Number, endDate: MonthInput, rate: Number, now: YearMonth)
    requires ValidInputs(deposit, endDate, rate) && TermInMonths(now, endDate.date) > 0
    ensures var a := FinalBalance(deposit, endDate, rate, Monthly, now).value;
      var months := TermInMonths(now, endDate.date);
      && a.periods == months as real
      && a.ratePerPeriod == rate.value / 1200.0
      && Amount(a).Some?
      && Amount(a).value == deposit.value * NatPow(1.0 + rate.value / 1200.0, months)
  {
  }

  /**
   * Paying at maturity is simple interest: P * (1 + r*t) with r the
   * percentage as a decimal and t the term in years.
   */
  lemma AtMaturityIsSimpleInterest(deposit: Number, endDate: MonthInput, rate: Number, now: YearMonth)
    requires ValidInputs(deposit, endDate, rate) && TermInMonths(now, endDate.date) > 0
    ensures var a := FinalBalance(deposit, endDate, rate, AtMaturity, now).value;
      var years := InvestmentTermInYears(now, endDate.date).value;
      && a.periods == 1.0
      && Amount(a).Some?
      && Amount(a).value == deposit.value * (1.0 + rate.value / 100.0 * years)
  {
  }

  /**
   * Quarterly compounding over any term: a quarter of the rate per period and
   * months/3 periods. When the months do not divide by 3 and the rate is not
   * 0, the power is fractional and its value is left open.
   */
  lemma QuarterlyAccrual(deposit: Number, endDate: MonthInput, rate: Number, now: YearMonth)
    requires ValidInputs(deposit, endDate, rate) && TermInMonths(now, endDate.date) > 0
    ensures var a := FinalBalance(deposit, endDate, rate, Quarterly, now).value;
      var months := TermInMonths(now, endDate.date);
      && a.ratePerPeriod == rate.value / 400.0
      && a.periods * 3.0 == months as real
      && (months % 3 != 0 && rate.value != 0.0 ==> Amount(a) == None)
  {
    var months := TermInMonths(now, endDate.date);
    var a := FinalBalance(deposit, endDate, rate, Quarterly, now).value;
    assert a == CompoundInterest(deposit.value, rate.value / 100.0, 4.0, months as real / 12.0);
  }

  /**
   * Yearly compounding over any term: the full rate per period and months/12
   * periods. When the months do not divide by 12 and the rate is not 0, the
   * power is fractional and its value is left open.
   */
  lemma YearlyAccrual(deposit: Number, endDate: MonthInput, rate: Number, now: YearMonth)
    requires ValidInputs(deposit, endDate, rate) && TermInMonths(now, endDate.date) > 0
    ensures var a := FinalBalance(deposit, endDate, rate, Yearly, now).value;
      var months := TermInMonths(now, endDate.date);
      && a.ratePerPeriod == rate.value / 100.0
      && a.periods * 12.0 == months as real
      && (months % 12 != 0 && rate.value != 0.0 ==> Amount(a) == None)
  {
    var months := TermInMonths(now, endDate.date);
    var a := FinalBalance(deposit, endDate, rate, Yearly, now).value;
    assert a == CompoundInterest(deposit.value, rate.value / 100.0, 1.0, months as real / 12.0);
  }

  /** Quarterly compounding over whole quarters: months/3 periods at a quarter of the rate. */
  lemma QuarterlyOverWholeQuarters(deposit: Number, endDate: MonthInput, rate: Number, now: YearMonth)
    requires ValidInputs(deposit, endDate, rate) && TermInMonths(now, endDate.date) > 0
    requires TermInMonths(now, endDate.date) % 3 == 0
    ensures var a := FinalBalance(deposit, endDate, rate, Quarterly, now).value;
      var quarters := TermInMonths(now, endDate.date) / 3;
      && a.periods == quarters as real
      && Amount(a).Some?
      && Amount(a).value == deposit.value * NatPow(1.0 + rate.value / 400.0, quarters)
  {
    var months := TermInMonths(now, endDate.date);
    var quarters := months / 3;
    assert months as real == 3.0 * (quarters as real);
    var a := FinalBalance(deposit, endDate, rate, Quarterly, now).value;
    assert a == CompoundInterest(deposit.value, rate.value / 100.0, 4.0, months as real / 12.0);
    assert a.periods == quarters as real;
    assert a.ratePerPeriod == rate.value / 400.0;
  }

  /** Yearly compounding over whole years: months/12 periods at the full rate. */
  lemma YearlyOverWholeYears(deposit: Number, endDate: MonthInput, rate: Number, now: YearMonth)
    requires ValidInputs(deposit, endDate, rate) && TermInMonths(now, endDate.date) > 0
    requires TermInMonths(now, endDate.date) % 12 == 0
    ensures var a := FinalBalance(deposit, endDate, rate, Yearly, now).value;
      var years := TermInMonths(now, endDate.date) / 12;
      && a.periods == years as real
      && Amount(a).Some?
      && Amount(a).value == deposit.value * NatPow(1.0 + rate.value / 100.0, years)
  {
    var months := TermInMonths(now, endDate.date);
    var years := months / 12;
    assert months as real == 12.0 * (years as real);
    var a := FinalBalance(deposit, endDate, rate, Yearly, now).value;
    assert a == CompoundInterest(deposit.value, rate.value / 100.0, 1.0, months as real / 12.0);
    assert a.periods == years as real;
    assert a.ratePerPeriod == rate.value / 100.0;
  }

  /** A zero rate returns the deposit, for every frequency and term. */
  lemma ZeroRateKeepsDeposit(deposit: Number, endDate: MonthInput, f: Frequency, now: YearMonth)
    requires ValidInputs(deposit, endDate, Finite(0.0)) && TermInMonths(now, endDate.date) > 0
    requires !f.Unrecognized?
    ensures Amount(FinalBalance(deposit, endDate, Finite(0.0), f, now).value) == Some(deposit.value)
  {
  }

  /**
   * Compounding monthly never pays less than paying at maturity over the same
   * term, for any rate down to -1200% (where the monthly factor reaches 0).
   */
  lemma MonthlyNeverBelowAtMaturity(deposit: Number, endDate: MonthInput, rate: Number, now: YearMonth)
    requires ValidInputs(deposit, endDate, rate) && TermInMonths(now, endDate.date) > 0
    requires rate.value >= -1200.0
    ensures Amount(FinalBalance(deposit, endDate, rate, Monthly, now).value).Some?
    ensures Amount(FinalBalance(deposit, endDate, rate, AtMaturity, now).value).Some?
    ensures Amount(FinalBalance(deposit, endDate, rate, Monthly, now).value).value
         >= Amount(FinalBalance(deposit, endDate, rate, AtMaturity, now).value).value
  {
    var months := TermInMonths(now, endDate.date);
    var years := InvestmentTermInYears(now, endDate.date).value;
    var x := rate.value / 1200.0;
    MonthlyCompoundsEachMonth(deposit, endDate, rate, now);
    AtMaturityIsSimpleInterest(deposit, endDate, rate, now);
    var compounded := Amount(FinalBalance(deposit, endDate, rate, Monthly, now).value).value;
    var simple := Amount(FinalBalance(deposit, endDate, rate, AtMaturity, now).value).value;
    assert compounded == deposit.value * NatPow(1.0 + x, months);
    assert years == months as real / 12.0;
    assert rate.value / 100.0 * years == (months as real) * x;
    assert simple == deposit.value * (1.0 + (months as real) * x);
    Bernoulli(x, months);
    MulLeftMonotone(deposit.value, 1.0 + (months as real) * x, NatPow(1.0 + x, months));
  }
}
