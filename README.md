# Free trial versus freemium: a model of the projection engine

This project models the calculator that compares two ways of monetising a
SaaS product over a horizon of `T` months, and proves what its results mean.

- **Free trial.** One cohort of `N * c_trial` paying users is converted at the
  start. It shrinks by the retention `r` each month. It pays the price `p`
  every month. The acquisition cost `CAC` is charged on that cohort in month 1
  only.
- **Freemium.** A pool of `N` free users grows by `1 + g` each month. Each month
  converts the pool's share of the increase of a logistic S-curve
  `1 / (1 + exp(-a (t - b)))`. Paying users are kept at rate `r`. Every month
  pays `p` per paying user and `CAC` per newly converted user.
- **NPV.** Each month's cash flow is discounted by `1 / (1 + d)^t`. The net
  present value (NPV) is the running sum of the discounted cash flows.
- **The home page's `calculateResults`.** It takes the monthly series of running
  NPVs and reports:
  - the last month's two NPVs;
  - the first month (1-based) in which the freemium NPV is at least the trial
    NPV, or none.

Layout:

- `real_arith.dfy` (module `RealArith`):
  - whole-number powers;
  - the laws assumed of the exponential function;
  - small facts about products and reciprocals.
- `calculations.dfy` (module `Calculations`):
  - the parameters, the S-curve and the discount factor;
  - the two projection loops as methods, together with the recursive functions
    that specify them month by month.
- `trial_properties.dfy` (module `TrialProperties`) and
  `freemium_properties.dfy` (module `FreemiumProperties`): what the two NPVs
  depend on and how they move with price, acquisition cost, retention, discount
  rate, horizon, growth and an empty user pool.
- `index_page.dfy` (module `HomePage`):
  - the monthly series;
  - the break-even search with its early exit;
  - `calculateResults` end to end.

How numbers are modelled:

- **Reals, not doubles.** All quantities are `real`, not IEEE doubles.
- **`Math.pow(1 + d, t)`** is the recursive `Pow`.
- **`Math.exp`** is a function `exp` passed in by the caller.
  - The projection needs only that `exp` is positive (`ExpPositive`).
  - The properties assume the laws of `IsExp`: positive, `exp(0) = 1` and
    strictly increasing.
  - `RealArith.ExpLawsSatisfiable` shows that these laws can be met, so no
    lemma that assumes them is vacuous.
- **Comparison preconditions.** The comparisons between two projections
  assume parameter ranges.
  - The freemium comparisons assume the ranges collected in
    `FreemiumProperties.Admissible`: a non-empty pool, `a >= 0`, `g > -1`,
    `d > -1` and `r >= 0`.
  - The trial comparisons state their own ranges: a paying cohort
    (`N * c_trial > 0`), `d > -1` and `r >= 0` (or `r > 0`).
  - Many results also assume conditions on the price, the retention, the
    steepness or the horizon. Each row of the table below states them.
    - The sign, discount and growth results assume `p > CAC` and `p >= 0`.
    - The retention results assume `p > 0`.
    - The horizon results assume `p > 0` and `r > 0`, and the freemium one
      also `p > CAC`.
    - `GrowthFavoursFreemium` also assumes `a > 0` and `T >= 2`. With
      `T = 1` or `a = 0`, faster growth adds no new paying users and leaves
      the freemium NPV unchanged.

  The base parameters used by `src/utils/calculations.test.ts` meet every such
  precondition.

What the code does, as modelled:

- **Trial cohort.** The trial model has a single cohort. It is converted once,
  at `src/utils/calculations.ts:22`, and decayed by `r` at `:33`. `CAC` is
  charged in month 1 only (`:28`).
- **No validation.** Neither loop validates its input. `T < 1` runs no month
  and gives an NPV of 0.

## Model

| member | source | states |
|---|---|---|
| Calculations.SCurve | src/utils/calculations.ts:15-17 | The S-curve value lies strictly between 0 and 1, for every t, a and b. |
| Calculations.SCurveAtInflection | src/utils/calculations.ts:15-17 | At the inflection month t = b the curve is exactly 1/2, whatever the steepness a. |
| Calculations.SCurveMonotone | src/utils/calculations.ts:15-17 | With a >= 0 the curve never falls as t grows. With a > 0 it rises strictly. |
| Calculations.Discount | src/utils/calculations.ts:30 | The discount factor 1 / (1 + d)^t is never 0, and is positive when d > -1. |
| Calculations.DiscountDecreasingInRate | src/utils/calculations.ts:30 | A higher discount rate gives every month from the first on a strictly smaller positive factor. |
| Calculations.CalculateTrialNPV | src/utils/calculations.ts:19-39 | The trial loop `for (t = 1; t <= T; t++)` runs T times when T >= 1 and not at all otherwise. It returns the sum of the discounted cash flows of months 1..T, and 0 when T < 1. Its invariants tie the users and the running NPV to the month-by-month specification. |
| Calculations.CalculateFreemiumNPV | src/utils/calculations.ts:41-66 | The freemium loop runs T times when T >= 1 and not at all otherwise. It returns the sum of the discounted cash flows of months 1..T, and 0 when T < 1. Its invariants tie the pool, the paying users and the running NPV to the month-by-month specification. |
| TrialProperties.TrialUsersClosedForm | src/utils/calculations.ts:22-33 | The paying users of month t are N * c_trial * r^(t-1). |
| TrialProperties.TrialCostsOnlyFirstMonth | src/utils/calculations.ts:28 | The acquisition cost is N * c_trial * CAC in month 1 and 0 in every later month. |
| TrialProperties.TrialNPVUpToAgree | src/utils/calculations.ts:19-39 | Two projections that agree on N, p, c_trial, r, CAC and d have the same running trial NPV after every month. |
| TrialProperties.TrialNPVIgnoresFreemiumParams | src/utils/calculations.ts:20 | The trial NPV does not depend on a, b or g. |
| TrialProperties.TrialNPVUpToPriceOrder | src/utils/calculations.ts:27-31 | A higher price never lowers the running trial NPV, and strictly raises it from month 1 on. |
| TrialProperties.TrialNPVIncreasingInPrice | src/utils/calculations.test.ts:27-31 | Over at least one month, a higher price strictly raises the trial NPV. |
| TrialProperties.TrialNPVUpToCACOrder | src/utils/calculations.ts:28-31 | A higher CAC never raises the running trial NPV, and strictly lowers it from month 1 on. |
| TrialProperties.TrialNPVDecreasingInCAC | src/utils/calculations.test.ts:38-42 | Over at least one month, a higher CAC strictly lowers the trial NPV. |
| TrialProperties.TrialCashFlowSigns | src/utils/calculations.ts:27-29 | When p > CAC and p >= 0, month 1's cash flow is positive and no later month's is negative. |
| TrialProperties.TrialNPVUpToPositive | src/utils/calculations.ts:26-31 | When p > CAC and p >= 0, the running trial NPV is positive after every month from the first. |
| TrialProperties.TrialNPVPositive | src/utils/calculations.test.ts:17-20 | When p > CAC, p >= 0 and T >= 1, the trial NPV is positive. |
| TrialProperties.TrialNPVUpToIncreasing | src/utils/calculations.ts:26-33 | With positive price and retention, every month after the first strictly raises the running trial NPV. |
| TrialProperties.TrialNPVGrowsWithHorizon | src/utils/calculations.test.ts:71-75 | With p > 0 and r > 0, a longer horizon (from T >= 1) strictly raises the trial NPV. |
| TrialProperties.TrialUsersRetentionOrder | src/utils/calculations.ts:33 | A higher retention never lowers the users of any month, and strictly raises them from month 2 on. |
| TrialProperties.TrialNPVUpToRetentionOrder | src/utils/calculations.ts:26-33 | At a positive price, a higher retention never lowers the running trial NPV, and strictly raises it from month 2 on. |
| TrialProperties.TrialNPVIncreasingInRetention | src/utils/calculations.test.ts:49-53 | At a positive price and over two months or more, a higher retention strictly raises the trial NPV. |
| TrialProperties.TrialNPVUpToDiscountOrder | src/utils/calculations.ts:30-31 | When p > CAC and p >= 0, a higher discount rate never raises the running trial NPV, and strictly lowers it from month 1 on. |
| TrialProperties.TrialNPVDecreasingInDiscount | src/utils/calculations.test.ts:60-64 | When p > CAC, p >= 0 and T >= 1, a higher discount rate strictly lowers the trial NPV. |
| TrialProperties.TrialNPVNoUsers | src/utils/calculations.ts:19-39 | With N = 0 the trial NPV is exactly 0. |
| FreemiumProperties.PoolClosedForm | src/utils/calculations.ts:44-60 | The pool of month t is N * (1 + g)^(t-1). |
| FreemiumProperties.FreemiumNewPaidFirstMonth | src/utils/calculations.ts:50-52 | Month 1 converts N * S(1) users, and they are all the paying users of month 1. |
| FreemiumProperties.FreemiumPaidTelescopes | src/utils/calculations.ts:49-60 | With r = 1 and g = 0 the increments telescope. After k months the paying users are exactly N * S(k), and the pool is still N. |
| FreemiumProperties.FreemiumNPVUpToAgree | src/utils/calculations.ts:41-66 | Two projections that agree on N, g, a, b, r, p, CAC and d have the same running freemium NPV after every month. |
| FreemiumProperties.FreemiumNPVIgnoresTrialConversion | src/utils/calculations.ts:42 | The freemium NPV does not depend on c_trial. |
| FreemiumProperties.SCurveIncrement | src/utils/calculations.ts:51 | Month t's increment of the S-curve is never negative when a >= 0. It is positive in month 1, and in every month when a > 0. |
| FreemiumProperties.NewPaidNonNegative | src/utils/calculations.ts:51 | New paying users are never negative. There are some in month 1, and in every month when a > 0. |
| FreemiumProperties.PaidAtLeastNewPaid | src/utils/calculations.ts:51-52 | The paying users of a month include that month's new ones. They are positive in month 1, and in every month when r > 0. |
| FreemiumProperties.FreemiumNPVUpToPriceOrder | src/utils/calculations.ts:49-58 | A higher price never lowers the running freemium NPV, and strictly raises it from month 1 on. |
| FreemiumProperties.FreemiumNPVIncreasingInPrice | src/utils/calculations.test.ts:33-35 | Over at least one month, a higher price strictly raises the freemium NPV. |
| FreemiumProperties.FreemiumNPVUpToCACOrder | src/utils/calculations.ts:49-58 | A higher CAC never raises the running freemium NPV, and strictly lowers it from month 1 on. |
| FreemiumProperties.FreemiumNPVDecreasingInCAC | src/utils/calculations.test.ts:44-46 | Over at least one month, a higher CAC strictly lowers the freemium NPV. |
| FreemiumProperties.FreemiumCashFlowSigns | src/utils/calculations.ts:51-56 | When p > CAC and p >= 0, no month's cash flow is negative. Month 1's is positive, and so is every month's when r > 0 and p > 0. |
| FreemiumProperties.FreemiumNPVUpToPositive | src/utils/calculations.ts:49-58 | When p > CAC and p >= 0, the running freemium NPV is positive after every month from the first. |
| FreemiumProperties.FreemiumNPVPositive | src/utils/calculations.test.ts:22-25 | When p > CAC, p >= 0 and T >= 1, the freemium NPV is positive. |
| FreemiumProperties.FreemiumNPVUpToIncreasing | src/utils/calculations.ts:49-58 | With p > CAC and positive price and retention, each further month strictly raises the running freemium NPV. |
| FreemiumProperties.FreemiumNPVGrowsWithHorizon | src/utils/calculations.test.ts:77-79 | When p > CAC, p > 0 and r > 0, a longer horizon strictly raises the freemium NPV. |
| FreemiumProperties.PaidRetentionOrder | src/utils/calculations.ts:52 | A higher retention never lowers the paying users of any month, and strictly raises them from month 2 on. |
| FreemiumProperties.FreemiumNPVUpToRetentionOrder | src/utils/calculations.ts:49-58 | At a positive price, a higher retention never lowers the running freemium NPV, and strictly raises it from month 2 on. |
| FreemiumProperties.FreemiumNPVIncreasingInRetention | src/utils/calculations.test.ts:55-57 | At a positive price and over two months or more, a higher retention strictly raises the freemium NPV. |
| FreemiumProperties.PresentValueDiscountOrder | src/utils/calculations.ts:57-58 | A higher discount rate never raises the present value of a month whose cash flow is not negative. It strictly lowers it when the cash flow is positive. |
| FreemiumProperties.FreemiumNPVUpToDiscountOrder | src/utils/calculations.ts:49-58 | When p > CAC and p >= 0, a higher discount rate never raises the running freemium NPV, and strictly lowers it from month 1 on. |
| FreemiumProperties.FreemiumNPVDecreasingInDiscount | src/utils/calculations.test.ts:66-68 | When p > CAC, p >= 0 and T >= 1, a higher discount rate strictly lowers the freemium NPV. |
| FreemiumProperties.PoolGrowthOrder | src/utils/calculations.ts:60 | A faster-growing pool is never smaller in any month, and strictly larger from month 2 on. |
| FreemiumProperties.NewPaidGrowthOrder | src/utils/calculations.ts:51 | Faster growth never lowers a month's new paying users. It strictly raises them from month 2 on when a > 0. |
| FreemiumProperties.PaidGrowthOrder | src/utils/calculations.ts:51-52 | Faster growth adds at least as many paying users in each month as it adds new paying users. |
| FreemiumProperties.CashFlowGrowthOrder | src/utils/calculations.ts:51-60 | For admissible parameters with p >= 0 and p >= CAC, faster growth never lowers a month's cash flow. It strictly raises it when it adds new paying users and p > CAC, which happens from month 2 on when a > 0. |
| FreemiumProperties.FreemiumNPVUpToGrowthOrder | src/utils/calculations.ts:49-60 | When p > CAC and p >= 0, faster growth never lowers the running freemium NPV. It strictly raises it from month 2 on when a > 0. |
| FreemiumProperties.GrowthFavoursFreemium | src/utils/calculations.test.ts:82-92 | When p > CAC, p >= 0, a > 0 and T >= 2, faster growth raises the freemium NPV by strictly more than it raises the trial NPV, which it leaves unchanged. |
| FreemiumProperties.FreemiumNPVNoUsers | src/utils/calculations.ts:41-66 | With N = 0 the freemium NPV is exactly 0. |
| HomePage.FirstBreakEven | src/pages/index.tsx:48-54 | The reference break-even month. It is none exactly when no record has a freemium NPV at least its trial NPV. Otherwise it is the 1-based position of the first record that has one. |
| HomePage.ScanMonthlyData | src/pages/index.tsx:46-61 | The search with its early exit returns the reference break-even month. It also returns the last record's two NPVs and the series unchanged. |
| HomePage.MonthlySeries | src/pages/index.tsx:45 | The series over k months has k records. Record i has month number i + 1 and the running NPVs of both models after that month. |
| HomePage.MonthlySeriesLast | src/pages/index.tsx:45-46 | Over T >= 1 months, the series' last record holds the NPVs that the two loops return. |
| HomePage.CalculateResults | src/pages/index.tsx:44-62 | It stores the monthly series of T records. It reports the trial and freemium NPVs over months 1..T. It reports break-even at month m exactly when m is the first month whose running freemium NPV is at least the running trial NPV, and none when no month of 1..T is. |

## Left out

- Floating point. Every quantity is a real. The rounding of IEEE doubles, overflow to Infinity and NaN are not modelled.
- Calculations.CalculateTrialNPV: requires d != -1, because there the code divides by 0 and carries Infinity or NaN, which reals cannot represent. The same holds for Calculations.CalculateFreemiumNPV and the functions they rest on.
- Calculations.Params: `T` is an integer. A fractional `T` runs the loop for the months 1..floor(T), which is not modelled.
- `Math.exp` is a parameter, together with the laws it is assumed to satisfy. `Math.pow` with a whole exponent is `Pow`.
- The `console.log` calls of both loops (`src/utils/calculations.ts:24`, `:35`, `:47`, `:62`). They are output only and change no value.
- `calculateMonthlyData` is imported by `src/pages/index.tsx:6`, but its definition is not part of this model. It is modelled as `HomePage.MonthlySeries`: the running NPVs of both loops, month by month, which its last record must reproduce. The `trialMAU` and `freemiumMAU` fields it also fills (`src/components/ResultsDisplay.tsx:9`) are left out, because their definition is not available.
- React state, `setResults`, the `useCallback`/`useEffect` wiring, the chart, the forms, the curve-drawing canvas and the paper text. They are presentation only.
- HomePage.ScanMonthlyData: requires a non-empty series. On an empty series the page would read the last record of an empty array (`undefined`) and fail; with T >= 1 the series is never empty.
