# Term-deposit calculator in Dafny

This project models the term-deposit balance calculator. The calculator takes
an initial deposit, an annual interest rate given as a percentage, an end month
and an interest payment frequency (monthly, quarterly, yearly or at maturity).
It returns the final balance `P * (1 + r/n)^(n*t)`, or it throws one of five
errors. The older calculator takes the term in years and always compounds
monthly. It is modelled as well.

Modules:

- `Power` (power.dfy): `Math.pow` where its real value is determined. A whole,
  non-negative exponent is repeated multiplication (`NatPow`). A base of 1
  gives 1. Other powers are left open. The module also proves Bernoulli's
  inequality.
- `Interest` (interest.dfy): the expression `principal * (1 + ratePerPeriod)^periods`
  as an `Accrual` value, and `Amount`, which evaluates it wherever `Pow` can.
- `Calculator` (calculator.dfy): src/utils/termDepositCalculator.ts. Validation,
  term resolution, frequency resolution, the compound formula and the
  `calculateFinalBalance` pipeline. Each thrown error is an `Err` value.
- `LegacyCalculator` (legacy_calculator.dfy): utils/termDepositCalculator.ts.

The model works over Dafny's exact `real` numbers. A JavaScript number that the
calculator tests with `isNaN` is a `Number`: either `NaN` or `Finite(value)`.
The clock (`new Date()`) becomes the parameter `now`. The `"YYYY-MM"` end-date
string arrives already parsed into a `YearMonth` (`getFullYear`, and `getMonth`
counting from 0). The empty string becomes `MonthInput.Empty`. A frequency tag
that names no member of the enumeration is `Unrecognized(tag)`, whose tag type
excludes the four member strings.

The balance is returned as an `Accrual` rather than as a number. This keeps
`n*t` exact even when it is fractional, for example quarterly compounding over
seven months. `Amount` gives the exact value whenever the number of periods is
whole or the rate is zero. These are the cases the lemmas cover.

## Model

| member | source | states |
|---|---|---|
| `Calculator.ValidateInputs` | src/utils/termDepositCalculator.ts:86-102 | validation passes exactly when the deposit is a number above 0, an end date is given and the rate is not NaN |
| `Calculator.ValidationOrder` | src/utils/termDepositCalculator.ts:91-101 | the deposit error is reported iff the deposit is NaN or at most 0. The end-date error is reported iff the deposit is fine and the end date is empty. The rate error is reported iff both earlier checks pass and the rate is NaN. Zero and negative rates pass |
| `Calculator.MessageIdentifiesError` | src/utils/termDepositCalculator.ts:38-100 | the five messages that `Message` assigns, which are the strings the source throws, are pairwise distinct, so the displayed text identifies the error |
| `Calculator.InvestmentTermInYears` | src/utils/termDepositCalculator.ts:70-84 | the term resolves iff the whole-month difference is positive, otherwise it fails with the end-date error. A resolved term is positive and equals the month count divided by 12 |
| `Calculator.EndMonthMustBeLater` | src/utils/termDepositCalculator.ts:73-81 | for any two months, the term resolves iff the end month is strictly after the current month. The current month itself is rejected |
| `Calculator.TermScenarios` | src/utils/termDepositCalculator.ts:73-83 | from May 2023, May 2026 is 36 months, which is exactly 3 years. January 2022 and May 2023 are both rejected |
| `Calculator.CompoundingFrequency` | src/utils/termDepositCalculator.ts:13-39 | only a tag outside the enumeration fails, and it fails with the frequency error. Every resolved frequency is non-zero, and it is positive for a positive term |
| `Calculator.FixedFrequencies` | src/utils/termDepositCalculator.ts:17-23 | monthly gives 12, quarterly gives 4 and yearly gives 1, whatever the term |
| `Calculator.AtMaturityCompoundsOnce` | src/utils/termDepositCalculator.ts:24-25 | at maturity gives 1/t, so n*t is exactly 1 |
| `Calculator.FrequencyOf` | src/utils/termDepositCalculator.ts:4-9 | the frequency looked up for a tag string carries that same string |
| `Calculator.TagRoundTrip` | src/utils/termDepositCalculator.ts:4-9 | looking up the string of any frequency gives back that frequency. A frequency is outside the enumeration iff its string names no member |
| `Calculator.CompoundInterest` | src/utils/termDepositCalculator.ts:52-65 | the rate per period times the frequency is the annual rate. The number of periods is frequency times term. The principal is kept |
| `Calculator.FinalBalance` | src/utils/termDepositCalculator.ts:112-135 | a balance is produced iff the inputs validate, the end month is after the current month and the frequency is in the enumeration. Its principal is the deposit |
| `Calculator.ErrorPrecedence` | src/utils/termDepositCalculator.ts:118-123 | a validation error wins over a term error, and a term error wins over a frequency error |
| `Calculator.MonthlyCompoundsEachMonth` | src/utils/termDepositCalculator.ts:58-64 | monthly compounding has as many periods as whole months, at rate/1200 each. The balance is `P*(1 + rate/1200)^months` |
| `Calculator.AtMaturityIsSimpleInterest` | src/utils/termDepositCalculator.ts:58-64 | paying at maturity gives one period, and the balance is the simple interest `P*(1 + rate/100 * t)` |
| `Calculator.QuarterlyAccrual` | src/utils/termDepositCalculator.ts:58-60 | over any term, quarterly compounding uses rate/400 per period and months/3 periods. When the months do not divide by 3 and the rate is not 0, the value is left open |
| `Calculator.QuarterlyOverWholeQuarters` | src/utils/termDepositCalculator.ts:58-64 | when the months divide by 3, the balance is `P*(1 + rate/400)^(months/3)` |
| `Calculator.YearlyAccrual` | src/utils/termDepositCalculator.ts:58-60 | over any term, yearly compounding uses rate/100 per period and months/12 periods. When the months do not divide by 12 and the rate is not 0, the value is left open |
| `Calculator.YearlyOverWholeYears` | src/utils/termDepositCalculator.ts:58-64 | when the months divide by 12, the balance is `P*(1 + rate/100)^(months/12)` |
| `Calculator.ZeroRateKeepsDeposit` | src/utils/termDepositCalculator.ts:125-132 | with a rate of 0 the balance is exactly the deposit, for every frequency and term |
| `Calculator.MonthlyNeverBelowAtMaturity` | src/utils/termDepositCalculator.ts:17-26 | for any rate down to -1200%, monthly compounding never pays less than paying at maturity over the same term |
| `Power.Pow` | src/utils/termDepositCalculator.ts:62-64 | the power is determined iff the exponent is whole and non-negative or the base is 1. It equals repeated multiplication for a whole exponent and 1 for base 1 |
| `Interest.Amount` | src/utils/termDepositCalculator.ts:62-64 | a balance has a value iff its periods are whole or its rate per period is 0. The value is `P*(1+i)^k` for whole periods, `P` at rate 0, and `P*(1+i)` for one period |
| `LegacyCalculator.FrequencyIsMonthly` | utils/termDepositCalculator.ts:1-3 | twelve periods a year, whatever the inputs. This equals the newer calculator's monthly frequency for every term |
| `LegacyCalculator.FinalBalance` | utils/termDepositCalculator.ts:5-22 | every input gives a balance, with no validation. The rate per period is rate/1200, because the rate is a percentage compounded 12 times a year. The number of periods is 12*t |
| `LegacyCalculator.WholeMonths` | utils/termDepositCalculator.ts:14-19 | over a term of a whole number of months (t = months/12, whole years included) the balance is `P*(1 + rate/1200)^months` |
| `LegacyCalculator.ZeroRateKeepsDeposit` | utils/termDepositCalculator.ts:14-19 | with a rate of 0 the balance is exactly the deposit, for any term |
| `LegacyCalculator.AgreesWithMonthly` | utils/termDepositCalculator.ts:10-19 | for any accepted end month, the monthly pipeline of the newer calculator builds the same balance as the legacy formula over the resolved years |
| `LegacyCalculator.MonthlyScenario` | tests/termDepositCalculator.test.ts:8-21 | 10000 at 1.1% for 3 years has an exact balance between 10335.345 and 10335.355, so it rounds to 10335.35 |

## Left out

- `toFixed(2)`: the two-decimal string formatting is not modelled. The balance stays a real number. `MonthlyScenario` places it within half a cent of the expected string instead.
- IEEE-754 double arithmetic: every operation is exact over the reals. Rounding in `/`, `*` and `Math.pow` is not modelled. `Infinity` is not modelled either, whether as a deposit or as a result.
- `Math.pow` with a fractional exponent is left open when the rate is not 0. Examples are quarterly or yearly compounding over a month count not divisible by 3 or 12 at a non-zero rate. The `Accrual` still records the exact base and exponent, but `Amount` gives `None`. At rate 0 the base is 1 and `Amount` gives the deposit.
- Calculator.CompoundingFrequency: requires a non-zero term for `AtMaturity`, because `1 / 0` is `Infinity` in JavaScript. The pipeline only calls it with a positive term.
- Calculator.CompoundInterest: requires a non-zero frequency, because `r / 0` is not a real number. Every frequency the pipeline resolves is non-zero.
- Parsing of the `"YYYY-MM"` string by `new Date(...)` is not modelled, including its time-zone behaviour. A non-empty string that does not parse gives a NaN month count. That count passes the `<= 0` check and produces `"NaN"`, and this path is not modelled.
- A tag naming an `Object.prototype` member (`"toString"`, `"valueOf"`, `"__proto__"`, for example) is found by the frequency lookup. What follows depends on the member: `"valueOf"`, `"hasOwnProperty"`, `"propertyIsEnumerable"` and `"toLocaleString"` throw a TypeError. `"toString"` and `"__proto__"` give `"NaN"`. `"constructor"` gives the numeric balance `P*(1 + r/t)^(t*t)`, and `"isPrototypeOf"` gives `P`. None of them gives the frequency error. The model treats every tag outside the enumeration as unrecognized.
- The clock `new Date()` is the parameter `now`.
- LegacyCalculator.WholeMonths: states the balance only for a term that is a whole, non-negative number of months. `Amount` leaves the power open when 12*t is not a natural number (a term that is not a whole number of months, or a negative term) and the rate is not 0.
- The test that expects "10330.00" at maturity calls the legacy function. That function ignores the frequency argument, so the expectation does not follow from the code, and it is not stated as a property. For the newer calculator, `AtMaturityIsSimpleInterest` gives the at-maturity balance.
- Both tests import `InterestPaymentFrequency` from the legacy module (tests/termDepositCalculator.test.ts:4-5). That module exports only `calculateFinalBalance` (utils/termDepositCalculator.ts:24), so the tests cannot resolve as written. The 10335.35 that `MonthlyScenario` checks therefore follows from the legacy formula, not from a test that can reach the call.
- src/App.tsx (form state, `parseFloat` bindings, error display) is presentation only and is not modelled.
