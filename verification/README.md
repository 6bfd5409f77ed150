# School cash-flow projection engine

A Dafny model of the calculation inside the Financial Cash Flow & Fee Revenue
Predictor. The engine starts from the current student count. Each month it
compounds enrollment by one twelfth of the annual growth rate. It bills every
student the tuition, transport and other fees. It takes off the waiver
discount and then the arrears discount, and subtracts a constant monthly
expense total. It emits one row per month. Three headline figures are then
read off the rows: total projected profit, final student count and average
monthly burn.

Layout:

- `wrappers.dfy`: `Option`, for the headline figures of an empty table.
- `projection.dfy`: module `Projection`. It holds the configuration (`Config`,
  the widget values as integers), the emitted row (`MonthlyRecord`), the widget
  ranges (`Valid`), the rates, truncation, the running enrollment
  (`Enrollment`), the recursive specification of the projection (`Records`,
  `Project`) and the loop as written (`ProjectLoop`), proved equal to it.
- `summary.dfy`: module `Summary`. It holds the three headline figures as
  reductions over the rows (`TotalProjectedProfit`, `FinalStudentCount`,
  `AvgMonthlyBurn`), plus lemmas about column sums and averages.
- `properties.dfy`: module `ProjectionProperties`. It holds the properties of
  the projection: numbering, closed-form compounding, positivity and the
  direction of enrollment, constant outflow, discount composition and bounds,
  what the headline figures come to, and that the markup level has no effect.

All amounts are exact `real`s. Every input is an integer widget, and each
percentage is an integer divided by 100. For the monetary columns the model
therefore computes the rational values that the floating-point code
approximates. The integer `Students` column is the truncation of the exact
enrollment, which can differ by one from the truncation of the float (see
"## Left out"). The widget ranges appear only
as preconditions of the properties that need them. The engine itself accepts
any configuration.

## Model

| member | source | states |
|---|---|---|
| Projection.Valid | app.py:12-35 | definition only: the ranges the input widgets enforce; it is the precondition of the properties that need the widget bounds, such as `InflowBounded` |
| Projection.Rate | app.py:22-34 | a slider percentage becomes the fraction that is one hundredth of it; the fraction lies in [0, 1] exactly when the percentage lies in [0, 100] |
| Projection.GrowthFactor | app.py:44 | the monthly factor is positive iff annual growth exceeds -1200%; it is at least 1 iff growth is non-negative, at most 1 iff growth is non-positive, and exactly 1 iff growth is zero |
| Projection.FeePerStudent | app.py:47 | definition only: tuition plus transport plus other fees; how it enters gross revenue is stated in `RecordCompounds` |
| Projection.Outflow | app.py:52 | definition only: salaries plus fixed costs plus marketing; its constancy is stated in `OutflowConstant` and `AvgBurnIsOutflow` |
| Projection.Realized | app.py:49 | when both discount rates lie in [0, 100]% and gross is non-negative, realized inflow lies between 0 and gross; with both rates zero it equals gross |
| Projection.Trunc | app.py:59 | `int()` truncates toward zero: for non-negative x the result is the greatest integer not above x, for negative x the least integer not below x |
| Projection.Enrollment | app.py:41-44 | definition only: the running enrollment, multiplied by the growth factor once per month; its closed form is stated in `EnrollmentCompounds` |
| Projection.Emit | app.py:46-64 | definition only: the row one loop iteration appends from the running enrollment; its fields are characterised in `DiscountComposition`, `NetIsInflowMinusOutflow`, `OutflowConstant` and `RecordCompounds` |
| Projection.MonthCount | app.py:42 | definition only: the number of loop iterations, zero for a non-positive count; the length of the table is stated on `Project` |
| Projection.Records | app.py:42-64 | the first n months give exactly n rows; row i is the row emitted from the enrollment after i+1 compounding steps, with month number i+1 |
| Projection.Project | app.py:42-58 | a horizon of n >= 1 months gives exactly n rows, a non-positive horizon gives none, and row i carries month number i+1: no gaps, chronological order |
| Projection.ProjectLoop | app.py:41-64 | the imperative loop, with a running enrollment multiplied once per iteration and one appended row, produces exactly the specified projection |
| Summary.Sum | app.py:71 | definition only: a column total in row order; its properties are stated in `SumConstant` and `SumNetIsInflowMinusOutflow` |
| Summary.TotalProjectedProfit | app.py:71 | definition only: the net cash flow column total; what it comes to is stated in `TotalProfitDecomposes` |
| Summary.FinalStudentCount | app.py:73 | definition only: the student count of the last row (`iloc[-1]`), absent for an empty table; its value for a projection is stated in `FinalStudentCountCompounds` |
| Summary.AvgMonthlyBurn | app.py:74 | an average exists iff the table is non-empty; times the row count it gives the outflow column total |
| Summary.SumConstant | app.py:74 | a column holding the same value in every row sums to that value times the row count |
| Summary.AvgOfConstantOutflow | app.py:74 | when every row of a non-empty table carries the same outflow, the average burn is that outflow |
| Summary.SumNetIsInflowMinusOutflow | app.py:71 | if each row's net is its inflow minus its outflow, the net total is the inflow total minus the outflow total |
| ProjectionProperties.EnrollmentCompounds | app.py:41-44 | after k months the running enrollment is the starting count times the monthly growth factor to the power k |
| ProjectionProperties.EnrollmentPositive | app.py:44 | with a starting count of at least 1 and growth of at least -20%, the running enrollment stays strictly positive |
| ProjectionProperties.EnrollmentNonDecreasing | app.py:44 | with non-negative growth the running enrollment after j months is at least that after i months, for all i <= j |
| ProjectionProperties.EnrollmentIncreasing | app.py:44 | with positive growth the running enrollment strictly rises from month to later month |
| ProjectionProperties.EnrollmentDecreasing | app.py:44 | with growth between -20% and 0, exclusive of 0, the running enrollment strictly falls from month to later month |
| ProjectionProperties.EnrollmentNonIncreasing | app.py:44 | with growth between -20% and 0 the running enrollment never rises |
| ProjectionProperties.ProjectAt | app.py:41-64 | row i of the projection is the row emitted from the enrollment after i+1 months |
| ProjectionProperties.RecordCompounds | app.py:41-60 | row i has month i+1, its student count is the truncated closed-form compounded enrollment, and its gross revenue is that enrollment times the per-student fee total |
| ProjectionProperties.StudentsNonNegative | app.py:59 | under the widget bounds on starting count and growth, no row has a negative student count |
| ProjectionProperties.StudentsNonDecreasing | app.py:59 | with non-negative growth the student count of a later row is never below that of an earlier one |
| ProjectionProperties.StudentsNonIncreasing | app.py:59 | with growth between -20% and 0 the student count of a later row is never above that of an earlier one |
| ProjectionProperties.StudentsConstant | app.py:59 | with zero growth every row has the starting student count and the same gross revenue |
| ProjectionProperties.StudentsCanStall | app.py:59 | with valid inputs of one student and 1% growth, enrollment strictly rises from month 1 to month 2 while the student count stays 1, so truncated counts are not strictly monotone |
| ProjectionProperties.OutflowConstant | app.py:52 | every row's total outflow is salaries plus fixed costs plus marketing |
| ProjectionProperties.OutflowColumn | app.py:62 | the outflow column holds the monthly expense total in every row |
| ProjectionProperties.DiscountComposition | app.py:49 | every row's realized inflow is its gross revenue times (1 - waiver rate) times (1 - arrears rate) |
| ProjectionProperties.InflowBounded | app.py:49 | under the widget bounds every row's realized inflow lies between 0 and its gross revenue |
| ProjectionProperties.RecordInflowBounded | app.py:47-49 | under the widget bounds a single row bills non-negative gross revenue and realizes between 0 and that amount |
| ProjectionProperties.ZeroDiscountIdentity | app.py:49 | with zero waiver and zero arrears every row's realized inflow equals its gross revenue |
| ProjectionProperties.NetIsInflowMinusOutflow | app.py:55 | every row's net cash flow is its realized inflow minus its total outflow |
| ProjectionProperties.ZeroRatesSteady | app.py:41-64 | with growth, waiver and arrears all zero, any two rows agree on every field except the month number, and realized inflow equals gross revenue |
| ProjectionProperties.TotalProfitDecomposes | app.py:71 | total projected profit is the total realized inflow minus the number of months times the monthly outflow |
| ProjectionProperties.FinalStudentCountCompounds | app.py:73 | with at least one month, the final student count exists and is the starting count compounded over the whole horizon, truncated |
| ProjectionProperties.AvgBurnIsOutflow | app.py:74 | with at least one month, the average monthly burn is salaries plus fixed costs plus marketing |
| ProjectionProperties.ProjectIgnoresMarkup | app.py:22 | changing the profit markup level leaves the whole projection unchanged |
| ProjectionProperties.DefaultsOneMonth | app.py:41-64 | at the default inputs with a one-month horizon, the only row is month 1 with 504 students, gross 2,873,750, realized 2,402,455, outflow 67,000 and net 2,335,455 |

## Notes on the code's behaviour

- At the default inputs and a one-month horizon, the code bills 504.1666... x
  5,700 = 2,873,750. It realizes 2,873,750 x 0.95 x 0.88 = 2,402,455 and nets
  2,335,455 (`DefaultsOneMonth`).
- Enrollment rises strictly under positive growth (`EnrollmentIncreasing`) and
  falls strictly under negative growth (`EnrollmentDecreasing`). The truncated
  student count can still stay the same from one month to the next
  (`StudentsCanStall`). So for `Students` the model proves only the non-strict
  direction.

## Left out

- Streamlit widgets, layout, metric display, line chart and table rendering
  (app.py:1-35, app.py:66-81). They are presentation with no logic. The widget
  ranges survive only as `Valid` and as the preconditions of the properties.
- The `months` label list (app.py:38). It is built and never used.
- IEEE-754 float arithmetic and `round(x, 2)` on emitted amounts
  (app.py:60-63). Rows carry exact rational values, unrounded, so the model
  makes no claim about bit-exact or rounded output. The headline sums are
  taken over these exact values too.
- Projection.Emit: `Students` is `Trunc` of the exact running enrollment.
  Where that enrollment is a whole number, the float program's `int()` can be
  one less. For example, 200 students at 6% growth give exactly 201 after one
  month. In doubles, 1 + 0.06/12 rounds just below 1.005, so the product is
  200.99999999999997 and `int()` gives 200. This was worked by hand, not
  executed. The same one-lower count reaches "Final Student Count"
  (app.py:73). The model does not follow binary rounding, so it makes no
  promise of equality with the float program's `Students` at such inputs. Its
  properties of `Students` are proved about the exact values.
- pandas behaviour beyond the meaning of sum, last element and mean. On an
  empty table (a non-positive horizon, which the widget forbids) the model
  gives a sum of 0 and no last count and no mean (`None`). pandas would raise
  or yield NaN instead.
- `profit_target_multiplier` (app.py:22). It is kept as the unused
  `markupPct` field, and `ProjectIgnoresMarkup` proves it has no effect.
- Determinism. Every member is a pure function of its configuration, so
  repeated calls agree by construction.
