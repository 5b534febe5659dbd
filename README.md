# Valuation engine: growth estimate, intrinsic value, ten-cap price, price and series lookup

A Dafny model of the valuation core of a stock-screening tool. The tool fetches yearly
per-share metrics and raw statement records for a company from a financial-data provider.
From them it derives:

- a forward growth rate: per-metric compound annual growth over a fixed six-value window,
  then an unweighted average (`growth_estimation.py`);
- a ten-year projected, discounted fair value and a margin-of-safety buy price (`mos.py`);
- an owner-earnings "ten-cap" buy price, rebuilt from raw income, cash-flow and key-metrics
  records with fallback field names (`ten_cap.py`);
- the two lookups beside the provider calls: a bounded backward search for a closing price,
  and the assembly of year-indexed series from the statement collections (`fmp_api.py`).

Modules, one per source file plus shared vocabulary:

- `records.dfy`, module `Records`: `Option`, the statement `Entry` (its calendar-year text
  and its numeric fields), `Get` (`dict.get(key, 0)`), Python's `str(year)` as `YearText`,
  the first-match search `FindByYear`, and `MetricSeries`. A `MetricSeries` is an
  insertion-ordered dictionary from metric name to yearly values.
- `growth.dfy`, module `Growth`: `calculate_cagr` and `mos_growth_estimate`. The estimator
  is an imperative method, proved against the functions `DetailsOf`, `Collected` and
  `Estimate`.
- `intrinsic.dfy`, module `Intrinsic`: `calculate_intrinsic_value`, a pure function over
  exact reals.
- `ten_cap.py` is modelled in `ten_cap.dfy`, module `TenCap`: owner earnings, the
  working-capital change, the fallback fields, the year match, the share guard and the price.
- `fmp.dfy`, module `Fmp`: `get_valid_price`, `get_by_year` and `get_year_data_by_range`,
  as methods with loops.

Money is `real`. Amounts are divided by `Million` where the source divides by 1,000,000.

The fractional power `(end / start) ** (1 / years)` cannot be expressed over Dafny's reals.
It is a parameter `root` of type `Growth.Root`. That type admits only functions obeying
`RootLaws`:

- the root of 1 is 1;
- roots of positive numbers are positive;
- the root is strictly increasing in its first argument.

Every fact proved about growth rates holds for every such function. The ten-year powers in
`mos.py` have integer exponents and are exact (`Intrinsic.Pow`).

The growth estimator skips a metric whose series is shorter than `start_index + 6`. That
metric gets `details[key] = 0`, but the `continue` at growth_estimation.py:78 comes before
any append, so it adds nothing to the numerator or the denominator of `avg`. Only a metric
whose window has a non-positive endpoint is averaged as a 0. The model follows the code
(`TooShortIgnored`, `TooShortSkipped`, `NonPositiveCountsAsZero`). The average runs over
whatever keys the input has, not over a fixed four.

## Model

| member | source | states |
|---|---|---|
| Records.NatTextDigits | ten_cap.py:137 | the text of a natural number is a non-empty string of decimal digits, with two or more digits exactly when the number is at least 10 |
| Records.YearTextSign | ten_cap.py:137 | `str(year)` is non-empty and starts with '-' exactly when the year is negative |
| Records.YearTextInjective | ten_cap.py:137-143 | two years with the same `str()` text are the same year, so matching on the calendar-year text matches on the year |
| Records.SpellsYearIsYearText | fmp_api.py:44 | checking a text digit by digit against a year, from its last digit, is the same as comparing it with `str(year)` |
| Records.FindByYear | ten_cap.py:141-143 | `next(...)` over an empty collection gives None, and anything it gives is an entry whose calendar-year text is `str(year)` |
| Records.FindByYearSpec | ten_cap.py:141-143 | `next(...)` gives None exactly when no entry's calendar-year text equals `str(year)`; what it gives otherwise is an entry of the collection for that year |
| Records.FindByYearFirst | ten_cap.py:141-143 | when entry k is for the year and no earlier entry is, `next(...)` gives entry k |
| Growth.Cagr | growth_estimation.py:30-34 | the rate is 0 whenever start, end or years is non-positive, and it is always greater than -1 |
| Growth.CagrFlat | growth_estimation.py:34 | for positive start and years, equal endpoints give a rate of exactly 0 |
| Growth.CagrMonotone | growth_estimation.py:34 | for a fixed positive start and period, the rate never decreases as the end value grows, and strictly increases when the end value strictly grows |
| Growth.CagrSign | growth_estimation.py:34 | for positive inputs the rate is positive, zero or negative exactly when the end is above, equal to or below the start |
| Growth.MetricGrowthOf | growth_estimation.py:75-94 | a metric is skipped exactly when it has fewer than start_index + 6 values; it has a rate only when both window endpoints are positive |
| Growth.EstimateShape | growth_estimation.py:72-97 | with distinct metric names, the result has exactly the input keys plus 'avg'; each metric key other than 'avg' holds that metric's percentage and 'avg' holds 100 times the mean of the collected rates |
| Growth.MosGrowthEstimate | growth_estimation.py:65-97 | fails with insufficient history exactly when target_year - data_start_year - 5 < 0 and never fails otherwise; on success the loop has built exactly the dictionary `Estimate` describes (its shape is EstimateShape) |
| Growth.DetailsKeys | growth_estimation.py:72-97 | the details dictionary has exactly the input's metric keys |
| Growth.DetailsAt | growth_estimation.py:72-94 | with distinct keys, each metric's detail depends only on its own series |
| Growth.TooShortIgnored | growth_estimation.py:75-78 | the averaged list is the one the long-enough metrics alone give, with exactly one entry per long-enough metric |
| Growth.TooShortSkipped | growth_estimation.py:75-78 | a metric with a too-short series gets detail 0 and appends nothing to the averaged list |
| Growth.NonPositiveCountsAsZero | growth_estimation.py:86-94 | a metric with a non-positive window start or end gets detail 0 and appends exactly one 0 to the averaged list |
| Growth.WindowEndpointsOnly | growth_estimation.py:80-84 | for long-enough series, only values[start_index] and values[start_index + 5] affect the metric's outcome |
| Growth.MeanAtMost | growth_estimation.py:96 | the average (0 for an empty list) is at most any bound on the averaged values |
| Growth.CollectedNonPositive | growth_estimation.py:86-94 | when no window ends above its start, every collected rate is at most 0 |
| Growth.NoGrowthMeansNonPositiveAverage | growth_estimation.py:96-102 | when no metric's window ends above its start, 'avg' is at most 0 |
| Growth.WindowGrowth | growth_estimation.py:80-94 | a long-enough series has a rate exactly when values[start_index] and values[start_index + 5] are both positive, and the rate is the CAGR from the first to the second over 5 years |
| Growth.FetchedWindowYears | growth_estimation.py:65-84 | on a series assembled year by year from start_year, the window for target_year is long enough, starts at the value of year target_year - 5 and ends at the value of year target_year |
| Intrinsic.Pow | mos.py:32-35 | a power of a non-zero base is non-zero, and a power of a positive base is positive, so the discount division is defined |
| Intrinsic.CalculateIntrinsicValue | mos.py:23-47 | the 'Groth_rate' and 'EPS_now' keys are absent exactly when eps_now <= 0 or growth_rate <= 0; in that case all four valuation figures are 0 |
| Intrinsic.PowAboveOne | mos.py:32 | a base above 1 raised to a positive power stays above 1 |
| Intrinsic.EpsGrows | mos.py:32 | for positive EPS and growth, the ten-year EPS exceeds today's EPS |
| Intrinsic.ValuationChain | mos.py:32-36 | EPS compounds at (1 + g)^10; the future value is EPS_10y times 200g; compounding the fair value at the discount rate for ten years gives back the future value; the buy price is the fair value times (1 - mos) |
| Intrinsic.DefaultMosHalvesFairValue | mos.py:8 | with the default margin of safety, the buy price is half the fair value |
| Intrinsic.PositiveValuation | mos.py:32-36 | for positive EPS and growth, a discount rate above -1 and mos below 1, all four figures are strictly positive |
| Intrinsic.BreachYearIrrelevant | mos.py:8-47 | the breach year changes no returned value |
| TenCap.OwnerEarnings | ten_cap.py:16-44 | with non-negative maintenance capex, owner earnings never exceed profit + depreciation + working-capital change, and fall strictly below it when capex is positive |
| TenCap.OwnerEarningsSensitivity | ten_cap.py:35-42 | owner earnings are 0 when all inputs are 0, move one for one with profit, depreciation and the working-capital change, and fall by half of each unit of capex; for all inputs this fixes the value as p + d + w - c/2 |
| TenCap.WorkingCapitalChange | ten_cap.py:85-114 | the components are receivables and payables in millions, missing fields count as 0, and the total is their sum |
| TenCap.FirstNonZero | ten_cap.py:156-161 | an `or` chain gives 0 exactly when every candidate is 0, and otherwise the first non-zero candidate |
| TenCap.FirstNonZeroAt | ten_cap.py:156-161 | the chain stops at the first non-zero candidate |
| TenCap.Depreciation | ten_cap.py:156-161 | depreciation is 0 exactly when all four fallback fields are 0 or missing |
| TenCap.DepreciationFallback | ten_cap.py:156-161 | depreciation in millions is the first non-zero field among depreciationAndAmortization, depreciation, depreciationAmortizationDepletion and depreciationDepletionAndAmortization |
| TenCap.SharesOutstanding | ten_cap.py:176-181 | the share count is 0 exactly when all four candidates are 0 or missing |
| TenCap.SharesFallback | ten_cap.py:176-181 | the share count in millions is, in this order, key-metrics weightedAverageShsOut, key-metrics weightedAverageShsOutDil, income weightedAverageShsOut or income weightedAverageShsOutDil, whichever is first non-zero |
| TenCap.MaintenanceCapex | ten_cap.py:173 | maintenance capex is never negative and in millions equals capitalExpenditure or its negation, i.e. `abs(capitalExpenditure) / 1e6` |
| TenCap.Figures | ten_cap.py:153-181 | profit is incomeBeforeTax in millions (missing reads 0); depreciation, working-capital change, maintenance capex and shares are the fallback and sum values of their own functions |
| TenCap.FiguresFlipped | ten_cap.py:173 | flipping the sign of capitalExpenditure leaves every per-year figure unchanged |
| TenCap.CapexSignIrrelevant | ten_cap.py:173 | flipping the sign of capitalExpenditure in every cash-flow entry leaves the ten-cap price unchanged |
| TenCap.YearRecords | ten_cap.py:133-147 | no records exactly when a collection is empty or lacks an entry for the year; otherwise the records are the first entry for the year in each collection (`FindByYear`, see `FindByYearFirst`), as `next(...)` picks them |
| TenCap.CalculateTenCapPrice | ten_cap.py:133-219 | None exactly when the year records are missing or the share count is <= 0; otherwise the price times the positive share count is 10 times owner earnings |
| TenCap.TenCapExample | ten_cap.py:208-219 | 100M profit, 20M depreciation, -5M working-capital change, 10M capex and 50M shares give a price of 22 |
| TenCap.GetTenCapData | ten_cap.py:46-57 | returns exactly what calculate_ten_cap_price returns |
| Fmp.GetValidPrice | fmp_api.py:118-128 | tries days base, base - 1, ... in order, at most 14; returns the first day with a non-zero price, which lies in [base - 13, base], with no hit on any later day; returns not-found exactly when none of the 14 days has a non-zero price |
| Fmp.FieldsForYearIsFirstMatch | fmp_api.py:42-46 | get_by_year gives the first matching entry's fields, or the empty dictionary when no entry matches |
| Fmp.GetByYear | fmp_api.py:42-46 | the linear search returns the fields of the first entry for the year, or {} |
| Fmp.SeriesForAt | fmp_api.py:71-74 | index i of an assembled series holds the field of year start_year + i, 0 when the year or the field is missing |
| Fmp.RowsAt | fmp_api.py:51-67 | row i of the assembled table is the row for year start_year + i |
| Fmp.MosMetricsShape | fmp_api.py:76-81 | the per-share result has the four keys book, eps, revenue and cashflow, all distinct, each with one value per year |
| Fmp.GetYearDataByRange | fmp_api.py:51-83 | returns max(0, years + 1) rows, row i being the row for year start_year + i; the per-share result is the four series book, eps, revenue and cashflow assembled over those same years |
| Fmp.MissingYearReadsZero | fmp_api.py:71-74 | a year that no entry carries reads as 0 in place, so the list keeps its length |

## Left out

- HTTP fetching and JSON decoding (fmp_api.py:21-31, fmp_api.py:88-105). The three statement collections are input sequences of entries. The price history is an input function from day number to an optional close.
- Date parsing and formatting (fmp_api.py:118-121). Dates are integer day numbers.
- `round(..., 2)` on every output. Values stay unrounded, and percentages are unrounded `rate * 100`.
- IEEE floating point. Amounts are exact reals, and `eps / 0.10` is exactly ten times `eps`.
- Growth.Cagr: the non-integer power is the `root` parameter. Only the laws in `RootLaws` are known of it, so no numeric value of a rate (such as 14.87% for a window from 1 to 2) is stated.
- Intrinsic.CalculateIntrinsicValue: requires a discount rate other than -1 only when EPS and growth are both positive. There, past the guard, the source divides by zero and raises; callers never trigger this with their rate of 0.15.
- Conversion failures and exception swallowing. These are `float()` in calculate_cagr (growth_estimation.py:22-28), `try/except` returning None in ten_cap.py:238-240 and ten_cap.py:59-61, and a `None` value stored under a numeric key. Inputs are typed numbers, and a missing field reads as 0.
- The default `year=None` of calculate_ten_cap_price and get_ten_cap_data. The model always takes an integer year; with None the source looks for the calendar-year text "None".
- All logging: the configuration at ten_cap.py:11-14, log_config.py, every `logging` call, and the debug-only loops at ten_cap.py:166-168 and ten_cap.py:231-233.
- The ROIC text formatting at fmp_api.py:67. The row keeps the ROIC as an optional number.
- print_ten_cap_analysis (ten_cap.py:63-83) and the `__main__` blocks: console output only.
- csv_report.py and main.py: report assembly, CSV writing and the ticker loop are not part of this model.
