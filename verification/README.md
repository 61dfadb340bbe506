# Discounted-cash-flow valuation engine, modelled in Dafny

This project models the valuation engine of a discounted-cash-flow (DCF) stock valuation
script (`dcf_calcs.py`). The engine is a chain of financial formulas plus one stateful
forecast:

- the free-cash-flow formula ("method 1"): net income, D&A, PP&E, inventory, receivables
  and payables for the current and the prior year give the triple (free cash flow, change
  in working capital, capital expenditure);
- the average net-income growth by the equity-earnings method: the mean over the window of
  the retention ratio times the return on equity;
- the ratio profile: six statement lines over revenue, taken from one chosen year or as the
  mean of the line over the mean of revenue (`"all"`);
- the forecast (`forecast_fcf`): the base year's revenue seeds three revenue tracks
  (neutral at growth `g`, positive at `g + 0.05`, negative at `g - 0.05`). Each forecast
  year grows the three revenues from the year before and writes each track's FCF. The FCF
  is the free-cash-flow formula fed with ratio times revenue for that year and the year
  before. Everything is written into the free-cash-flow table in place, and the two
  intermediate columns are dropped after every write;
- the interest coverage ratio, the synthetic rating it falls into (fifteen buckets) and the
  cost of debt (the rating's spread plus the risk-free rate);
- the CAPM expected return, from a beta and the annualised market return (252 trading
  days);
- the weighted average cost of capital;
- per outlook: the NPV of the forecast FCFs, a Gordon-growth terminal value discounted over
  five years, the enterprise value and the estimated price per share.

Modules, one per concern:

| file | module | flavour |
|---|---|---|
| `real_math.dfy` | `RealMath` | powers, sums and means over `real`, with their lemmas |
| `free_cash_flow.dfy` | `FreeCashFlow` | pure |
| `growth.dfy` | `Growth` | pure |
| `ratio_profile.dfy` | `RatioProfile` | pure; `None` models the `KeyError` of a missing year |
| `credit_rating.dfy` | `CreditRating` | pure; a bucket lookup |
| `cost_of_capital.dfy` | `CostOfCapital` | pure |
| `forecast.dfy` | `Forecast` | the class `FcfTable`, whose methods update the table in place, and the closed form `ForecastTable` they are proved against |
| `valuation.dfy` | `Valuation` | pure; connects the forecast's table to the valuation |

Python floats become Dafny `real`, which is exact. The properties are algebraic and
rounding is not modelled. The source never checks a denominator. Each one it divides by
is a `requires` of the member that divides: revenue, net income, book value of equity,
interest expense, debt plus equity, `1 + wacc`, `wacc - g` and the share count.

The forecast table is a map from year to row. A row is a map from column label to value,
and a missing label is an empty (NaN) cell. `df.loc[year, col] = v` inserts or overwrites
a cell and adds the row if needed. `drop(columns, axis = 1)` removes the scratch columns
from every row. The loop of `FcfTable.ForecastFcf` carries the invariant that the table
equals the closed form `ForecastTable` after `k` years. The lemmas about `ForecastTable`
prove:

- year `y` holds `R0 (1 + g + offset)^n` on each track, where `n` is the forecast year;
- each track's FCF is the formula applied to the revenue of years `n` and `n - 1`;
- earlier rows keep their cells;
- no scratch column survives.

`Valuation.ValuationOfForecast` then shows that valuing that table gives, for each
outlook, the valuation of the track's closed-form FCFs.

The three outlooks are not ordered by price in general. The positive track grows
revenue faster, and each year's FCF charges the PP&E, receivables, payables and inventory
shares (the reinvestment share) on the revenue change. When that share exceeds the
net-income share, faster growth lowers the FCF. `Valuation.PositivePriceNotAbove` gives
such a profile, where the positive outlook is valued no higher than the neutral one. For a
covered profile (net-income share >= reinvestment share >= D&A share) with positive base
revenue and `1 + g - 0.05 >= 0`, `Valuation.ForecastPricesOrdered` proves the prices are
ordered negative <= neutral <= positive.

Where the code and its own docstrings or a textbook reading differ, the model follows the
code:

- Capital expenditure includes the current year's D&A, while free cash flow adds back only
  the *change* in D&A (`dcf_calcs.py:105-115`). So with every line flat, the FCF is net
  income minus D&A, not net income (`FreeCashFlow.FlatYear`).
- The change in working capital *adds* the change in payables (`dcf_calcs.py:101`).
- `pandas.cut` with default arguments makes the rating buckets right-closed `(a, b]`. So a
  coverage of exactly 2.0 is rated B-, and every coverage up to 0.5 is rated D.
- `numpy_financial.npv` discounts the first flow by `(1 + rate)^0`. The first forecast
  year is therefore not discounted.
- The terminal value is discounted by a literal `(1 + wacc)^5`, whatever the number of
  forecast years.
- The terminal value column is renamed from the row label 2026 only. A table whose last
  row is another year has no `terminal_value` column, and reading it fails with a
  `KeyError`. `Valuation.EquityValuations` returns `None` for that case.

## Model

| member | source | states |
|---|---|---|
| FreeCashFlow.FreeCashFlows | dcf_calcs.py:79-117 | capex minus the current D&A is the change in PP&E; the change in working capital less the change in payables is the change in receivables plus the change in inventory; FCF is net income less the prior year's D&A, the change in PP&E and the change in working capital |
| FreeCashFlow.FlatYear | dcf_calcs.py:99-117 | with every line equal to its prior value, the working-capital change is 0, capex equals D&A and FCF is net income minus D&A |
| FreeCashFlow.PayablesAddToWorkingCapital | dcf_calcs.py:99-103 | raising current payables by `delta` raises the working-capital change by `delta` and lowers FCF by `delta` |
| Growth.GrowthTerm | dcf_calcs.py:144-150 | one year's retention ratio times ROE, with dividends negated first, times book equity is net income plus dividends paid |
| Growth.GrowthTerms | dcf_calcs.py:142-150 | one term per year of the window; each term times that year's book equity is that year's net income plus dividends |
| Growth.GrowthTermsAreRetainedOverEquity | dcf_calcs.py:142-150 | the yearly terms equal the reference (net income + dividends paid) / book equity, year by year |
| Growth.AverageNetIncomeGrowth | dcf_calcs.py:120-154 | the estimate is the arithmetic mean of (net income + dividends paid) / book equity over the window |
| Growth.NoDividendsGivesMeanReturnOnEquity | dcf_calcs.py:142-150 | with no dividends the estimate is the mean return on equity |
| RatioProfile.FindYear | dcf_calcs.py:269-285 | a found position holds the requested year; `None` only when no record has that year |
| RatioProfile.YearRatios | dcf_calcs.py:267-285 | each of the six ratios times that year's revenue is the line's value in that year |
| RatioProfile.MeanRatios | dcf_calcs.py:247-265 | each of the six ratios times the mean revenue is the mean of the line |
| RatioProfile.RatiosToRevenue | dcf_calcs.py:239-287 | `"all"` gives the ratios of means; a year present in the table gives that year's ratios; an absent year gives `None` (the `KeyError`), and only then |
| RatioProfile.AllIsRatioOfSums | dcf_calcs.py:247-265 | in `"all"` mode each ratio is the sum of the line over the sum of revenue, and that sum is non-zero |
| RatioProfile.SingleYearModesAgree | dcf_calcs.py:247-285 | with a single year of data `"all"` mode and year mode give the same profile |
| RatioProfile.RatioOfMeansIsNotMeanOfRatios | dcf_calcs.py:247-265 | an input where the `"all"` ratio (1/2) differs from the mean of the yearly ratios (2/3) |
| CreditRating.EdgesAscending | dcf_calcs.py:302-303 | fourteen finite bin edges, strictly ascending, and fifteen ratings |
| CreditRating.BucketFrom | dcf_calcs.py:322-324 | the bucket found lies at or after the starting one and contains the value |
| CreditRating.Bucket | dcf_calcs.py:322-324 | the coverage lies in the right-closed interval of the bucket returned |
| CreditRating.BucketUnique | dcf_calcs.py:302-324 | the buckets do not overlap: a value in bucket `k` is assigned bucket `k` |
| CreditRating.Rank | dcf_calcs.py:303 | each rating's position in the rating list, which holds that rating |
| CreditRating.RatingMonotone | dcf_calcs.py:302-324 | a higher coverage never gets a lower bucket or a lower rating |
| CreditRating.BoundarySemantics | dcf_calcs.py:302-324 | coverage up to 0.5 (negatives included) is D, exactly 2.0 is B-, (2, 2.5] is B, above 12.5 is AAA |
| CreditRating.SpreadNotMonotone | dcf_calcs.py:304-320 | A ranks above A- yet carries the larger spread |
| CreditRating.SyntheticRating | dcf_calcs.py:290-337 | coverage times interest expense is EBITDA minus D&A; the rating is the coverage's bucket; cost of debt minus the risk-free rate is that rating's spread |
| CreditRating.CostOfDebtBounds | dcf_calcs.py:304-325 | the cost of debt lies between the risk-free rate plus the AAA spread and the risk-free rate plus the D spread |
| CostOfCapital.MarketReturn | dcf_calcs.py:376 | the market return times the number of daily returns is 252 times their sum |
| CostOfCapital.Capm | dcf_calcs.py:362-383 | returns the pair (expected return, market return), each with the property above |
| CostOfCapital.CapmAnchors | dcf_calcs.py:380 | beta 1 gives the market return, beta 0 the risk-free rate; with a positive premium a larger beta never gives a smaller return |
| CostOfCapital.WeightsSumToOne | dcf_calcs.py:389-390 | the debt and equity weights add up to one |
| CostOfCapital.Wacc | dcf_calcs.py:386-393 | WACC times (debt + equity) is the after-tax cost of debt times debt plus the cost of equity times equity |
| CostOfCapital.NoDebtGivesCostOfEquity | dcf_calcs.py:388-391 | with no debt the WACC is the cost of equity |
| CostOfCapital.WaccBetween | dcf_calcs.py:388-391 | with positive debt and equity the WACC lies between the after-tax cost of debt and the cost of equity, strictly when they differ |
| Forecast.ScrubTableUpdate | dcf_calcs.py:189-202 | writing a row and then dropping the scratch columns is writing the row without them |
| Forecast.ScrubWritten | dcf_calcs.py:189-202 | writing a kept cell and both scratch cells, then dropping the scratch columns, leaves just the kept cell written |
| Forecast.ScrubKept | dcf_calcs.py:202-218 | dropping the scratch columns is idempotent and commutes with writing a kept cell |
| Forecast.RescrubUpdate | dcf_calcs.py:202-218 | dropping the scratch columns again after writing a row of a scrubbed table only scrubs that row |
| Forecast.WriteOnto | dcf_calcs.py:205-218 | one track's FCF write onto a table whose row was just replaced, as a single row replacement |
| Forecast.WriteOntoScrubbed | dcf_calcs.py:205-234 | the same write onto an already scrubbed table: the other rows are scrubbed once |
| Forecast.GrownRevenues | dcf_calcs.py:173-187 | the grown row's three revenues are the prior year's, each times one plus its track's growth |
| Forecast.GrownReady | dcf_calcs.py:173-187 | after the revenues are grown, both rows a step reads hold all three revenues |
| Forecast.WrittenReady | dcf_calcs.py:189-218 | writing one track's FCF keeps all three revenues in both rows |
| Forecast.FcfClosedForm | dcf_calcs.py:189-201 | the forecast FCF is the net-income share of this year's revenue, less the D&A share of last year's, less the PP&E, receivables, payables and inventory shares of the revenue change |
| Forecast.TrackRevenueStep | dcf_calcs.py:173-187 | a track's closed-form revenue one year on is last year's times one plus the track's growth |
| Forecast.StepRowIsForecastRow | dcf_calcs.py:171-234 | stepping a row whose revenues are the closed form for year n gives the closed-form row for year n + 1 |
| Forecast.GrownRowIsStepRow | dcf_calcs.py:171-234 | growing the revenues and then writing the three FCFs, scrubbed, is the step row |
| Forecast.NeutralWritten | dcf_calcs.py:173-202 | the neutral FCF write onto the grown table, as one row replacement |
| Forecast.NeutralRowReady | dcf_calcs.py:189-202 | the row after the neutral write is scrubbed and keeps its three revenues |
| Forecast.TrackWritten | dcf_calcs.py:205-234 | a positive or negative FCF write onto a scrubbed table, as one row replacement |
| Forecast.OutlooksWritten | dcf_calcs.py:205-234 | the positive and then the negative write, as one row replacement |
| Forecast.ForecastYearEffect | dcf_calcs.py:171-234 | one loop iteration (grow three revenues, write three FCFs, drop the scratch columns after each) is `Advance`: every row scrubbed and the year's row replaced by the step row |
| Forecast.ForecastYears | dcf_calcs.py:171 | the years written are exactly `firstYear` up to `firstYear + k - 1` |
| Forecast.SeededCells | dcf_calcs.py:165-168 | the base row's two outlook revenues become its revenue; every other cell of the base row, and every other row, is unchanged |
| Forecast.Layout | dcf_calcs.py:171-234 | after k years the table holds the original years plus the forecast years |
| Forecast.ForecastTable | dcf_calcs.py:157-236 | the closed form after k years holds the original years plus the forecast years |
| Forecast.LayoutAt | dcf_calcs.py:171-234 | each forecast year holds the row built for it over its own scrubbed cells |
| Forecast.LayoutOutside | dcf_calcs.py:171-234 | once a year is written, every other row is its original row without the scratch columns |
| Forecast.LayoutUnwritten | dcf_calcs.py:171-234 | the next year, not yet written, keeps its original non-scratch cells |
| Forecast.LayoutKeepsWritten | dcf_calcs.py:171-234 | a year already written is unchanged by a later year's step |
| Forecast.LayoutKeepsOther | dcf_calcs.py:171-234 | a row outside the forecast is unchanged by a later year's step, scratch columns aside |
| Forecast.LayoutExtendAt | dcf_calcs.py:171-234 | one row of `LayoutExtend` |
| Forecast.LayoutExtend | dcf_calcs.py:171-234 | writing the next year's row into the scrubbed k-year table gives the (k + 1)-year table |
| Forecast.LayoutAdvance | dcf_calcs.py:171-234 | one loop iteration takes the k-year table to the (k + 1)-year table, for any row builder that agrees with the step |
| Forecast.ForecastRowCells | dcf_calcs.py:171-234 | a closed-form row holds each track's closed-form revenue and FCF, and keeps the other cells |
| Forecast.ForecastRowRevenues | dcf_calcs.py:173-187 | a closed-form row holds the three closed-form revenues for its year |
| Forecast.RowBuilderKeepsScrubbed | dcf_calcs.py:202-234 | closed-form rows built on scrubbed rows are scrubbed |
| Forecast.ForecastRowScrubbed | dcf_calcs.py:202-234 | a closed-form row over a scrubbed row carries no scratch column |
| Forecast.ForecastTableReady | dcf_calcs.py:165-187 | after k years the last row written holds `R0 (1 + g + offset)^k` on every track |
| Forecast.ForecastTableReadyStart | dcf_calcs.py:165-168 | before the first year the base row holds the base revenue on all three tracks |
| Forecast.ForecastTableReadyLast | dcf_calcs.py:171-187 | after k > 0 years, row `firstYear + k - 1` holds the closed-form revenues for year k |
| Forecast.ForecastYearRow | dcf_calcs.py:171-234 | forecast year y, the n-th, holds the closed-form row for n over its own scrubbed cells |
| Forecast.ForecastTableStart | dcf_calcs.py:165-168 | before the loop the table is the seeded input |
| Forecast.ForecastTableStep | dcf_calcs.py:171-234 | one loop iteration takes the closed form for k years to the one for k + 1 |
| Forecast.TracksShareSeed | dcf_calcs.py:165-168 | all three tracks start from the base-year revenue |
| Forecast.TracksOrdered | dcf_calcs.py:173-187 | with positive base revenue and `1 + g - 0.05 >= 0`, positive >= neutral >= negative revenue every year |
| Forecast.TrackRevenueLe | dcf_calcs.py:173-187 | a track with the larger non-negative growth factor never has less revenue |
| Forecast.ForecastTableTracks | dcf_calcs.py:157-236 | forecast year y, the n-th, holds on every track the revenue `R0 (1 + g + offset)^n` and the FCF of revenues n and n - 1 |
| Forecast.ForecastTableFcf | dcf_calcs.py:189-234 | forecast year y, the n-th, holds each track's closed-form FCF for year n |
| Forecast.ForecastTableFcfCells | dcf_calcs.py:189-234 | every forecast year holds all three FCF cells |
| Forecast.ForecastTableKeepsCells | dcf_calcs.py:171-234 | a forecast year keeps its cells outside the six track columns and the scratch columns, and gains no others |
| Forecast.ForecastTableOtherRows | dcf_calcs.py:165-234 | rows outside the forecast keep their non-scratch cells; the base row also gains the two seeded outlook revenues |
| Forecast.ScrubSeeded | dcf_calcs.py:165-202 | the seeded outlook revenues survive the dropping of the scratch columns |
| Forecast.FcfScales | dcf_calcs.py:189-201 | the forecast FCF is linear in revenue: scaling both years' revenue scales the FCF |
| Forecast.FcfMonotone | dcf_calcs.py:189-201 | for a covered profile (net-income share >= reinvestment share >= D&A share), more revenue this year or last never lowers the FCF |
| Forecast.TrackFcfsOrdered | dcf_calcs.py:171-234 | for a covered profile, positive base revenue and `1 + g - 0.05 >= 0`, the FCFs are ordered negative <= neutral <= positive in every forecast year |
| Forecast.ThinMarginNotCovered | dcf_calcs.py:189-201 | the thin-margin profile (net income 0.1, PP&E 1 of revenue) is not covered |
| Forecast.ThinMarginFirstYear | dcf_calcs.py:189-201 | for that profile, revenue 1.1 after 1 gives an FCF of 0.01 and revenue 1.05 after 1 gives 0.055 |
| Forecast.PositiveTrailsNeutral | dcf_calcs.py:171-234 | for that profile, base revenue 1 and growth 5%, the positive track's FCF is below the neutral one's in each of the first five forecast years |
| Forecast.TrackFcfGrows | dcf_calcs.py:171-234 | from the second forecast year on, each track's FCF grows at the track's own rate |
| Forecast.FcfTable.constructor | dcf_calcs.py:157 | the table holds the rows it is given |
| Forecast.FcfTable.SetCell | dcf_calcs.py:173-187 | `loc[year, col] = v` writes that one cell, adding the row if needed, and nothing else |
| Forecast.FcfTable.DropScratch | dcf_calcs.py:202 | the table becomes the old table without the scratch columns |
| Forecast.FcfTable.WriteTrackFcf | dcf_calcs.py:189-202 | the track's FCF for the year is the formula on ratio times revenue of that year and the year before; the scratch columns are dropped |
| Forecast.FcfTable.GrowRevenues | dcf_calcs.py:173-187 | the year's three revenues become the prior year's grown at the track's rate |
| Forecast.FcfTable.ForecastYear | dcf_calcs.py:171-234 | one loop iteration leaves `Advance` of the old table |
| Forecast.FcfTable.ForecastNextYear | dcf_calcs.py:171-234 | one loop iteration takes the closed form for k years to the one for k + 1 |
| Forecast.FcfTable.SeedOutlooks | dcf_calcs.py:165-168 | the base row's two outlook revenues become its revenue |
| Forecast.FcfTable.ForecastFcf | dcf_calcs.py:157-236 | with at least one year to forecast, the table the forecast leaves is the closed form `ForecastTable` of the old table, whose properties are the lemmas above; with none (the `IndexError` at line 166) it reports failure and leaves the table untouched |
| Valuation.DiscountedShift | dcf_calcs.py:419-423 | discounting from one period later divides the value by one more factor of (1 + rate) |
| Valuation.NpvRecurrence | dcf_calcs.py:419-423 | the NPV is the first flow, undiscounted, plus the NPV of the rest divided by (1 + rate) |
| Valuation.NpvZeroRate | dcf_calcs.py:419-423 | at a zero rate the NPV is the plain sum |
| Valuation.UndiscountedFrom | dcf_calcs.py:419-423 | at a zero rate discounting from any period is the plain sum |
| Valuation.NpvMonotone | dcf_calcs.py:419-423 | at a rate above -100%, flows that are no larger one by one give no larger NPV |
| Valuation.DiscountedMonotone | dcf_calcs.py:419-423 | the same, discounting from any period |
| Valuation.TerminalValue | dcf_calcs.py:425-432 | terminal value times (wacc - g) is the last FCF times (1 + g) |
| Valuation.TerminalValueIsPerpetuity | dcf_calcs.py:425-432 | the terminal value is a perpetuity growing at g: one period of discounting of next year's flow plus next year's grown value gives it back |
| Valuation.TerminalValueMonotone | dcf_calcs.py:425-432 | with wacc > g and 1 + g >= 0, a larger last FCF never gives a smaller terminal value |
| Valuation.DiscountTerminal | dcf_calcs.py:434-437 | the discounted terminal value times (1 + wacc)^5 is the terminal value |
| Valuation.ValueOutlook | dcf_calcs.py:419-449 | the NPV is the numpy-financial NPV of the FCFs; the terminal value is on the last FCF; enterprise value is NPV plus discounted terminal value; price times shares is EV + cash - debt |
| Valuation.ValueOutlookMonotone | dcf_calcs.py:419-449 | FCFs that are no larger year by year give no larger enterprise value and price |
| Valuation.PriceFollowsNetCash | dcf_calcs.py:445-449 | extra cash raises the price, and extra debt lowers it, by the amount per share |
| Valuation.ColumnLast | dcf_calcs.py:415-432 | the last entry of a track's column is the track's FCF in the last row |
| Valuation.ValueTrack | dcf_calcs.py:415-449 | one outlook valued on its column: terminal value times (wacc - g) is the last row's FCF times (1 + g); the discounted terminal value times (1 + wacc)^5 is the terminal value; the NPV is that of the column; EV is NPV plus discounted terminal value; price times shares is EV + cash - debt |
| Valuation.EquityValuations | dcf_calcs.py:396-451 | a valuation exists exactly when the last row is 2026 (otherwise the `KeyError`), and each outlook's is `ValueTrack` on its own column |
| Valuation.ValuationOfForecast | dcf_calcs.py:157-236 | valuing the table a five-year forecast from 2022 leaves gives each outlook the valuation of its track's closed-form FCFs |
| Valuation.ForecastColumns | dcf_calcs.py:415-417 | each FCF column of a k-year forecast from 2022 is the track's closed-form FCFs |
| Valuation.ForecastColumnUpTo | dcf_calcs.py:415-417 | the same for the first n forecast years |
| Valuation.ColumnSnoc | dcf_calcs.py:415-417 | a column up to year y is the column up to y - 1 followed by year y's FCF |
| Valuation.TrackFcfsSnoc | dcf_calcs.py:171-234 | the closed-form FCFs for k years are those for k - 1 followed by year k's |
| Valuation.ValuationOfColumns | dcf_calcs.py:415-449 | a table ending at 2026 whose columns are given sequences is valued on those sequences |
| Valuation.PricesOrdered | dcf_calcs.py:419-449 | for a covered profile, positive base revenue, `1 + g - 0.05 >= 0`, wacc above -100% and above the perpetual rate, `1 + perpetual rate >= 0` and a positive share count, enterprise value and price are ordered negative <= neutral <= positive |
| Valuation.ForecastPricesOrdered | dcf_calcs.py:157-236 | under the same conditions, the prices of the valuation of the five-year forecast's table are ordered negative <= neutral <= positive |
| Valuation.PositivePriceNotAbove | dcf_calcs.py:419-449 | for the thin-margin profile, base revenue 1 and growth 5%, the positive outlook's enterprise value and price are no higher than the neutral one's, for any forecast of up to five years and any admissible WACC |
| Valuation.ForecastRows | dcf_calcs.py:415-432 | the forecast table ends at its last forecast year, and every year from 2022 to it has all three FCFs |

## Left out

- Data retrieval (`dcf_calcs.py:4-76`, the HTTP pulls of the statements) and the price download with its return resampling (`dcf_calcs.py:340-359`) are I/O and are not part of this model.
- The OLS regression giving beta (`dcf_calcs.py:373`) is a library call. Beta is an input of `CostOfCapital.Capm`.
- `numpy_financial.npv` is not called. Its documented formula, with the first flow at t = 0, is `Valuation.Npv`.
- All printing and the rounding inside it are presentation only.
- Floating point: rounding, NaN and infinity propagation, and the NaN-skipping `mean` of pandas. The model works over exact reals. Every unchecked division is a `requires` that the divisor is non-zero.
- RealMath.Mean, Growth.AverageNetIncomeGrowth, CostOfCapital.MarketReturn: require a non-empty window. The mean of an empty Series is NaN in pandas, and NaN is not modelled.
- The write `revenue = 12` (`dcf_calcs.py:172`) is overwritten on the next line. `FcfTable.GrowRevenues` writes the grown revenue directly.
- Forecast.FcfTable.ForecastFcf: the list of years to forecast is modelled as the contiguous run `firstYear, …, firstYear + yearCount - 1`. An arbitrary list is not modelled. No caller is part of this model; the valuation's fixed horizon (rows from 2022, terminal row 2026, five years of discounting at `dcf_calcs.py:415, 432, 436`) is the only evidence for a contiguous run. An empty list raises `IndexError` at `dcf_calcs.py:166`; the model reports it as `ok == false` with the table untouched. The base row must hold a revenue: a missing base row is a `KeyError` in the source and is excluded by a `requires`.
- Forecast.FcfTable.WriteTrackFcf: a pandas row set with `loc` on a list of columns is modelled as three single-cell writes. Column order in the frame is not modelled.
- RatioProfile.RatiosToRevenue: the frame is modelled as a sequence of records. Duplicate year labels are excluded only for a single-year lookup, where `df_fcf.loc[year, col]` would return a Series rather than a number (`dcf_calcs.py:267-284`). The all-years means accept duplicate labels, as the source's column means do.
- Growth.AverageNetIncomeGrowth: the three Series are taken as already aligned, one entry per year. Index alignment that introduces NaNs is not modelled.
- Valuation.EquityValuations: when the last row is 2026, requires every year from 2022 to that row to hold all three FCF cells (`FcfRowsPresent`). In the source, on an ascending year index, the slice `loc[2022:]` skips a missing year, so the list gets shorter and later flows move one period earlier in the NPV; on an index that is not ascending, `loc[2022:]` takes the rows from the row labelled 2022 to the end by position (and raises `KeyError` only when no row is labelled 2022), while the model reads the years 2022 to the last row, which is the same slice when those rows are in ascending order, as `forecast_fcf` appends them; an empty cell gives NaN. None of these cases is modelled. The last row (`iloc[-1]`) is taken as the largest year.
- Valuation.EquityValuations: the perpetual growth rate is a parameter. The source's default of 0.02 (`dcf_calcs.py:397`) is left to the caller.
- Valuation.EquityValuations: the frame of terminal values is returned separately by the source. In the model it is the `terminalValue` field of each outlook's valuation.
- Valuation.EquityValuations: the reordering of the price column by outlook name has no effect on the values after pandas aligns by label, so it is not modelled.
- CreditRating.SyntheticRating: a NaN coverage, which falls in no bucket, does not arise over reals. Interest expense must be non-zero.
