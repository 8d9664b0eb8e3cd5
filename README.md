# SIPSense projection arithmetic in Dafny

This project models the calculation block of the SIPSense planner (`sip.py`), a
Systematic Investment Plan calculator. From four inputs it computes:

- the monthly investment, the duration in years, the expected annual return in percent and an optional goal;
- the number of months, the monthly rate, the invested amount, the closed-form maturity value and the returns;
- the pessimistic and optimistic scenarios, at `max(1, rate - 2)` and `rate + 2` percent;
- when a goal is given, the monthly contribution that reaches it and the goal progress, capped at 1;
- the month-by-month value list, built by the loop `total = total * (1 + r) + c`;
- the year-wise summary, which reads that list at each year's last month;
- the monthly statement, which repeats the same loop.

Every input is an integer, so all quantities are rational. They are modelled
exactly over `real`, with `Pow(x, n)` defined by repeated multiplication.

The code is split into three modules:

- `Projection` (`projection.dfy`): the pure formulas and their properties. These are the geometric-series identity behind the recurrence, the round trip of the goal solver, the ordering of the scenarios and positive returns.
- `Tables` (`tables.dfy`): the three loops as methods that build sequences. `GrowthSeries` and `MonthlyStatement` are proved against the recurrence `Balance`. `YearlySummary` is proved against the list it is given. The corrected `DueGrowthSeries` is proved against `DueBalance` and, through it, the closed form `FutureValue`.
- `Planner` (`planner.dfy`): the calculation block composed in the script's order. The record fields stand in for the page's variables.

The proofs about the closed form work on plain variables. Each public lemma
such as `Projection.FutureValueIsGrownBalance` calls a `...Named` form. That
form receives the definitions' values as variables, tied to the definitions
by equalities. This keeps the solver's nonlinear real arithmetic small.

## Model

| member | source | states |
|---|---|---|
| Projection.Pow | sip.py:25 | `x ** n` by repeated multiplication; it has no contract of its own, and `Projection.PowAboveOne` states the property the goal solver needs |
| Projection.FutureValue | sip.py:25 | the closed form, shared with `calculate_future_value` (sip.py:29-31); it has no contract of its own. Its properties are stated by `FutureValueIsGrownBalance`, `FutureValueAtLeastInvested`, `FutureValueIncreasingInRate` and `TargetSipRecoversContribution` |
| Projection.Balance | sip.py:75 | the loop's value after `k` steps of `total * (1 + r) + c`; it has no contract of its own. `BalanceGeometricSum`, `BalanceAtLeastInvested`, `BalanceMonotoneInRate` and `FutureValueIsGrownBalance` state its properties |
| Projection.DueBalance | sip.py:75 | the corrected step `(total + c) * (1 + r)`; it has no contract of its own. `DueBalanceIsGrownBalance` and `DueBalanceMatchesFutureValue` state its properties |
| Projection.TargetSip | sip.py:39 | the goal solver; it has no contract of its own. `TargetSipReachesGoal` and `TargetSipRecoversContribution` state its round trip |
| Projection.MonthlyRate | sip.py:23 | the monthly rate is the annual percent over 1200, and it is positive exactly when the percent is at least 1 |
| Projection.PessimisticRate | sip.py:33 | the pessimistic rate is `max(1, expected - 2)`: at least 1 and at least `expected - 2`, and equal to one of the two |
| Projection.OptimisticRate | sip.py:34 | the optimistic rate lies exactly two points above the expected rate |
| Projection.GoalProgress | sip.py:43 | progress is at most 1, non-negative for a non-negative maturity value, equals 1 exactly when the maturity value reaches the goal, and below 1 it is the share of the goal reached |
| Projection.PowAboveOne | sip.py:39 | `(1 + r)^n > 1` for `r > 0` and `n >= 1`, so the goal solver's divisor is never zero |
| Projection.BalanceGeometricSum | sip.py:72-76 | the growth loop's value after `n` months satisfies `r * v(n) = c * ((1 + r)^n - 1)`, a geometric series |
| Projection.FutureValueIsGrownBalance | sip.py:25 | the closed-form maturity value equals the loop's value after `n` months grown by one more month, `(1 + r) * v(n)` |
| Projection.SeriesFallsShortOfClosedForm | sip.py:25 | for a positive contribution, the closed form exceeds the loop's value after `n` months by exactly `r * v(n)` and so never equals it |
| Projection.DueBalanceIsGrownBalance | sip.py:75 | the step `(total + c) * (1 + r)` yields `(1 + r)` times the value of the step at line 75, at every month |
| Projection.DueBalanceMatchesFutureValue | sip.py:25 | the annuity-due recurrence equals the closed-form maturity value at every month |
| Projection.BalanceAtLeastInvested | sip.py:72-76 | with a non-negative rate the loop's value never falls below the contributions paid in, `c * n` |
| Projection.FutureValueAtLeastInvested | sip.py:24-26 | the maturity value covers the invested amount, and exceeds it (positive returns) once something was invested |
| Projection.BalanceMonotoneInRate | sip.py:72-76 | a higher rate never lowers the loop's value |
| Projection.FutureValueIncreasingInRate | sip.py:29-31 | the maturity value strictly increases with the rate for a positive contribution |
| Projection.ScenarioOrdering | sip.py:29-34 | both scenario rates give a positive monthly rate, so neither scenario divides by zero. The maturity values are ordered pessimistic <= expected < optimistic, with the first strict once the expected rate is 2 or more |
| Projection.TargetSipReachesGoal | sip.py:37-39 | investing the suggested contribution every month reaches the goal exactly under the closed form |
| Projection.TargetSipRecoversContribution | sip.py:39 | the goal solver inverts the closed form: asked for the maturity value of `c`, it returns `c` |
| Tables.GrowthSeries | sip.py:72-76 | the growth loop returns `months` values, entry `i` being the recurrence `v(i + 1)` |
| Tables.YearlySummary | sip.py:93-100 | every index `12y - 1` lies inside the list, and row `y` reports year `y`, invested `c * 12 * y` and the list's value at month `12y` |
| Tables.MonthlyStatement | sip.py:105-113 | the statement has `months` rows, row `i` reporting month `i + 1`, invested till now `c * (i + 1)` and the recurrence `v(i + 1)` |
| Tables.DueGrowthSeries | sip.py:72-76 | with the annuity-due step, entry `i` of the list equals the closed-form maturity value for `i + 1` months |
| Tables.DueYearlySummary | sip.py:93-100 | the year-wise summary over the annuity-due list reports, for each year, the closed-form maturity value for that horizon |
| Planner.Summarize | sip.py:22-26 | months are `12 * years`, the monthly rate is positive and is the percent over 1200, invested is `c * 12 * years`, the maturity value is the closed form at that rate and horizon, maturity value is invested plus returns, and the returns are non-negative (positive for a positive contribution) |
| Planner.Forecast | sip.py:29-34 | the scenario rates are `max(1, expected - 2)` and `expected + 2`, so `1 <= pessimistic <= expected < optimistic`; each scenario value is the closed form at its rate, and for a positive contribution they bracket the expected maturity value |
| Planner.Advise | sip.py:37-43 | a suggestion exists exactly when the goal is positive. The suggested contribution reaches the goal. The progress is `GoalProgress` of the maturity value and the goal, so it is in [0, 1], reaches 1 exactly when the maturity value meets the goal, and below 1 is the share of the goal reached |
| Planner.Plan | sip.py:22-113 | the whole block: the statement repeats the growth list month for month, year-wise rows read that list at each year's last month, the last year's invested amount is the headline invested amount, and the headline maturity value is the list's last entry grown by one month |

## Left out

- Streamlit page setup, sidebar widgets, metrics, the progress bar and markdown: user-interface code with no logic. The sidebar's bounds appear only as the `years >= 1` and `expectedReturn >= 1` preconditions.
- The Matplotlib pie chart and the Altair line chart: rendering through foreign libraries.
- pandas DataFrame construction, `df.head(12)` and the Excel export and download button: I/O and library wrappers. Rows are modelled as sequences of records.
- The quote picked by `years % len(quotes)`: cosmetic.
- Floating point: `**`, `/` and the sums are exact over `real`. IEEE rounding is not modelled.
- `:,.0f` display formatting: presentation only.
- Tables.YearlySummary: reports the unrounded value; the source applies `round()` to it for display.
- Tables.MonthlyStatement: reports the unrounded value; the source applies `round()` to it for display.
- Projection.FutureValue: defined only for `r > 0`. The source has no zero-rate branch. It divides by the monthly rate, which is safe only because the rate slider starts at 1.
- There is no input validation beyond the sidebar widgets' bounds. The model adds none.
- The monthly investment's lower bound of 500 is not required. The properties that need a positive contribution require `c > 0` themselves.

## Findings

| source | as written | input that shows it | evidently intended | confidence | as-written member | corrected member |
|---|---|---|---|---|---|---|
| sip.py:72-76 | the growth loop adds the contribution after growing the total, `total * (1 + r) + c` (an ordinary annuity). The headline maturity value at sip.py:25 is the annuity-due closed form, which is `(1 + r)` times larger, so the year-wise table's last row and the chart end below the "Maturity Amount" shown beside them | monthly investment 5000, 10 years, 12 percent: the headline shows about 1,161,695, while the year-10 row and the last statement row show about 1,150,193 | the list and tables agree with the headline closed form, as with the step `(total + c) * (1 + r)` | medium, not executed | Projection.SeriesFallsShortOfClosedForm | Tables.DueGrowthSeries |

`Planner.Plan` keeps the loops as written, so its contract states the
discrepancy itself: the headline maturity value is the list's last entry
grown by one more month. `Tables.DueGrowthSeries` and
`Tables.DueYearlySummary` build the list and the year-wise table with the
corrected step. `Projection.DueBalanceMatchesFutureValue` proves that this
corrected list matches the closed form at every month.
