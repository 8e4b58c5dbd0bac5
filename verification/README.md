# Value at Risk engine of the NSE portfolio calculator

This project models the risk engine of `var.py`, a small calculator for the Value at Risk (VaR) of a portfolio of Indian (NSE) stocks. The engine works as follows:

- A table of adjusted closing prices (one row per date, one column per asset) becomes the portfolio's daily simple returns, weighted by percentage weights.
- Every full window of W consecutive daily returns is compounded.
- Three loss estimates are read from these returns:
  - **historical VaR**: the (100 − c)-th percentile of the rolling compounded returns, with numpy's linear interpolation;
  - **parametric VaR**: (mean + z · sample standard deviation) · √W, with z taken from a table for c = 90, 95 or 99;
  - **conditional VaR**: the mean of the rolling returns at or below the same percentile cutoff.
- Each estimate is converted to a currency amount rounded to two decimals.
- The script also validates the weights (they must sum to 100) and normalises the ticker input.

Everything is modelled over exact `real` numbers, as pure functions with lemmas. There is one module per component:

| module | models |
|---|---|
| `Outcomes` | the error results. Each place where the script stops (`st.stop`), and each numpy/pandas call that raises, becomes an `Err`. There are two exceptions. The NaN or ±inf that a zero price produces is excluded by the `NonZeroPrices` precondition. The NaN sample standard deviation of fewer than two returns is `Err(TooFewReturns)` in `ParametricVaR`, but `None` in the report, because the script goes on and displays NaN. |
| `Stats` | sum, mean, sample variance (n − 1 divisor), minimum, maximum, ascending sort, and the boolean-mask filter `xs[xs <= c]` |
| `Percentiles` | `np.percentile` with the default "linear" method (Hyndman and Fan definition 7) |
| `Returns` | `calculate_portfolio_returns` and the weight-sum check |
| `Rolling` | the rolling compounding `rolling(W).apply((x + 1).prod() - 1).dropna()`. The product is a fold from left to right, one factor (1 + r) per day. |
| `Estimators` | `historical_var`, `conditional_var`, `parametric_var` and `calculate_var_amount` |
| `Tickers` | the ticker normalisation `[t.strip().upper() + ".NS" for t in tickers.split(',')]` |
| `Assessment` | the order in which the main script applies the engine, plus a worked two-asset example |

Two behaviours of the code are worth stating outright:

- **Empty rolling series.** Neither `historical_var` (var.py:38) nor `conditional_var` (var.py:52) guards against an empty sample, and `np.percentile` raises on one. So `HistoricalVaR` and `ConditionalVaR` return `Err(EmptySample)`, and `Assess` stops there. `Assessment.ShortSeriesExample` shows the case: three daily returns with a window of 10 give an empty rolling series and `Err(EmptySample)`.
- **Weight sum.** `sum(weights) != 100` (var.py:83) is an exact comparison with no tolerance, and so is `Returns.CheckWeights`.

The square root is a function parameter `sqrt`. The lemmas that need its meaning require `Estimators.SquareRoot(sqrt)`: it returns the non-negative square root of every non-negative real.

## Model

| member | source | states |
|---|---|---|
| Returns.AssetReturns | var.py:27 | one return per asset, and entry i is (cur[i] − prev[i]) / prev[i] |
| Returns.PctChange | var.py:27 | one fewer row than the price table (none for an empty table), or every row kept when the table has no asset columns (there is then no NaN to drop); each row has one entry per asset column; with assets, row k holds the returns from date k to date k + 1 |
| Returns.Fractions | var.py:28 | same length as the weights, and each fraction times 100 is its percentage weight |
| Returns.DotRows | var.py:32 | one value per row, and each is that row's dot product with the fractions |
| Returns.PortfolioReturns | var.py:26-33 | an error exactly when the number of weights differs from the number of asset columns, and then it is DimensionMismatch; otherwise one return per date after the first, and entry k is the fraction-weighted sum of the asset returns from date k to date k + 1; without asset columns, a zero return for every date |
| Returns.PriceTable.Empty | var.py:92 | definition without a contract: `DataFrame.empty`, true when the table has no rows or no asset columns |
| Returns.Dot | var.py:32 | definition without a contract: the sum of the products of corresponding entries, what `DataFrame.dot` computes per row; its properties are in DotConstant and DotReturnsAsRelatives |
| Returns.CheckWeights | var.py:83-85 | accepts the weights exactly when they sum to 100, and returns them unchanged; otherwise InvalidWeights |
| Returns.FractionsSum | var.py:28 | the fractions sum to one hundredth of the weights' sum |
| Returns.AcceptedWeightsSumToOne | var.py:28 | accepted weights become fractions that sum to 1 |
| Returns.DotReturnsAsRelatives | var.py:27-32 | the weighted simple return equals the weighted price relative minus the sum of the fractions |
| Returns.PortfolioReturnIsRelativeMinusOne | var.py:27-32 | with weights summing to 100, each daily portfolio return is the weighted price relative minus 1 |
| Returns.UniformReturnIsPortfolioReturn | var.py:27-32 | if every asset has the same return on a date, the portfolio has that return too |
| Returns.DotConstant | var.py:32 | a constant vector dotted with fractions is that constant times the fractions' sum |
| Rolling.GrowthAppend | var.py:37 | the growth factor over two consecutive runs is the product of their growth factors |
| Rolling.Growth | var.py:37 | definition without a contract: `(x + 1).prod()` as a left fold of the factors (1 + r); its properties are in GrowthAppend, GrowthSingle and GrowthFromNonNegative |
| Rolling.Compound | var.py:37 | definition without a contract: the lambda `(x + 1).prod() - 1`; its properties are in CompoundSingle, CompoundLossBound and SlideWindow |
| Rolling.GrowthFromAppend | var.py:37 | carrying an amount through two consecutive runs of days is carrying it through the first, then the second |
| Rolling.GrowthFromScale | var.py:37 | the starting amount only scales the accumulated product |
| Rolling.GrowthSingle | var.py:37 | the growth factor of one day is 1 + r |
| Rolling.GrowthFromNonNegative | var.py:37 | a non-negative amount stays non-negative through days whose returns are at least −1 |
| Rolling.CompoundSingle | var.py:37 | compounding a single return gives that return |
| Rolling.CompoundLossBound | var.py:37 | if no daily return is below −1, the compounded return is at least −1 |
| Rolling.RollingReturns | var.py:37 | len(R) − W + 1 entries when W ≤ len(R), and none otherwise |
| Rolling.RollingAt | var.py:37 | entry k is the compounded return of R[k], …, R[k + W − 1] |
| Rolling.RollingOneDay | var.py:37 | a one-day window leaves the daily series unchanged |
| Rolling.SlideWindow | var.py:37 | consecutive windows differ by one day: (1 + R[k])(1 + RR[k + 1]) = (1 + RR[k])(1 + R[k + W]) |
| Stats.Mean | var.py:43 | the mean of a non-empty series lies between its minimum and maximum |
| Stats.SumAppend | var.py:43 | the sum over two consecutive runs is the sum of their sums |
| Stats.Sum | var.py:83 | definition without a contract: `sum(weights)` and pandas' sum; its properties are in SumAppend, SumAtMost and SumAtLeast |
| Stats.SumAtMost | var.py:43 | values all ≤ c sum to at most n·c |
| Stats.SumAtLeast | var.py:43 | values all ≥ c sum to at least n·c |
| Stats.MeanWithin | var.py:43 | values all in [lo, hi] have their mean in [lo, hi] |
| Stats.MeanAtMost | var.py:54 | the mean of values all ≤ c is ≤ c |
| Stats.SquaredDeviations | var.py:44 | the sum of squared deviations is non-negative |
| Stats.SampleVariance | var.py:44 | the n − 1 sample variance of two or more values is non-negative |
| Stats.ConstantHasZeroVariance | var.py:43-44 | a constant series has that constant as its mean and has zero variance |
| Stats.Insert | var.py:38 | inserting into an ascending sequence keeps it ascending and adds exactly that element |
| Stats.SortedCons | var.py:38 | an element at most the head of an ascending sequence can be put in front of it |
| Stats.Sort | var.py:38 | the result is ascending and a permutation of the input |
| Stats.SortEnds | var.py:38 | the first and last sorted elements are the minimum and the maximum |
| Stats.SortedFirstIsMin | var.py:38 | the first element of any ascending permutation of a sample is its minimum |
| Stats.SortedLastIsMax | var.py:38 | the last element of any ascending permutation of a sample is its maximum |
| Stats.AtMost | var.py:53 | every selected element is ≤ c and comes from the input; every input element ≤ c is selected; each value is kept exactly as often as it occurs in the input when it is ≤ c, and not at all otherwise |
| Percentiles.Rank | var.py:38 | the fractional rank (n − 1)·p/100 lies in [0, n − 1] |
| Percentiles.RankMonotone | var.py:38 | the fractional rank is monotone in p |
| Percentiles.LinearPercentile | var.py:38 | the interpolated value lies between the first and last elements of the sorted sample |
| Percentiles.SegmentBounds | var.py:38 | floor(h) is a valid index; the interpolation weight is in [0, 1); the value lies between the two neighbouring order statistics |
| Percentiles.Interpolate | var.py:38 | definition without a contract: numpy's linear step s[i] + g·(s[i + 1] − s[i]), or s[i] at the last index; its bounds are in SegmentBounds |
| Percentiles.LinearPercentileEnds | var.py:38 | percentile 0 is the first sorted element and percentile 100 the last |
| Percentiles.LinearPercentileMonotone | var.py:38 | the interpolated percentile is monotone in p |
| Percentiles.Percentile | var.py:38 | a value exactly when 0 ≤ p ≤ 100 and the sample is non-empty; PercentileOutOfRange and EmptySample otherwise, in numpy's order; the value lies between the minimum and the maximum |
| Percentiles.PercentileMonotone | var.py:52 | a larger percentile never gives a smaller value |
| Percentiles.PercentileExtremes | var.py:38 | percentiles 0 and 100 are the sample minimum and maximum |
| Estimators.HistoricalVaR | var.py:36-39 | a value exactly when 0 ≤ c ≤ 100 and W ≤ len(R), with the error cases otherwise; the returned series is the rolling series; the VaR lies between its minimum and maximum |
| Estimators.HistoricalVaRMonotone | var.py:38 | a higher confidence gives a historical VaR that is no higher |
| Estimators.HistoricalVaROfferedLevels | var.py:16 | for the offered levels, VaR at 99 ≤ VaR at 95 ≤ VaR at 90 |
| Estimators.ConditionalVaR | var.py:51-55 | a value exactly when 0 ≤ c ≤ 100 and the series is non-empty, with the error cases otherwise; the CVaR lies between the series minimum and the percentile cutoff |
| Estimators.Tail | var.py:53 | with a cutoff at least the minimum, the tail is non-empty; its elements come from the series and are ≤ the cutoff; each value ≤ the cutoff is kept exactly as often as it occurs in the series, and nothing else |
| Estimators.TailAboveMin | var.py:54 | the tail's mean is at least the series minimum |
| Estimators.ConditionalAtMostHistorical | var.py:52-54 | CVaR on the rolling series of a historical VaR exists and never exceeds that VaR |
| Estimators.ZScore | var.py:45-46 | found exactly for 90, 95 and 99, and negative; any other key is UnsupportedConfidence |
| Estimators.ParametricVaR | var.py:42-48 | a value exactly when the z lookup succeeds and there are at least two returns; UnsupportedConfidence or TooFewReturns otherwise |
| Estimators.ParametricBelowScaledMean | var.py:47 | the parametric VaR never exceeds mean · √W |
| Estimators.ParametricOfferedLevels | var.py:45-47 | for the offered levels, parametric VaR at 99 ≤ at 95 ≤ at 90 |
| Estimators.ParametricWithoutSpread | var.py:43-47 | a constant series has parametric VaR equal to its return times √W, at every offered confidence |
| Estimators.SquareRootOfZero | var.py:47 | a square root function maps 0 to 0 |
| Estimators.RoundCents | var.py:59 | a whole number of cents, within half a cent of the input |
| Estimators.RoundCentsWholeCents | var.py:59 | an amount already in whole cents is unchanged |
| Estimators.RoundCentsIdempotent | var.py:59 | rounding twice is rounding once |
| Estimators.RoundCentsMonotone | var.py:59 | rounding preserves order |
| Estimators.VarAmount | var.py:58-59 | a whole number of cents within 0.005 of pct · value |
| Estimators.VarAmountExample | var.py:58-59 | −0.025 on 100000.0 is −2500.0 |
| Tickers.Split | var.py:21 | Count(',') + 1 fields, none containing a comma |
| Tickers.JoinSplit | var.py:21 | joining the fields with commas gives back the input |
| Tickers.SplitJoin | var.py:21 | splitting comma-free fields joined with commas gives back the fields |
| Tickers.SplitCommaFree | var.py:21 | a comma-free string is a single field |
| Tickers.SplitPrefix | var.py:21 | a comma-free piece, a comma and a rest split into that piece followed by the fields of the rest |
| Tickers.IsSpace | var.py:21 | definition without a contract: the code points for which Python's `str.isspace()` holds, which `str.strip()` removes |
| Tickers.StripLeft | var.py:21 | a suffix of the input; everything dropped is white space; it does not start with white space |
| Tickers.StripRight | var.py:21 | a prefix of the input; everything dropped is white space; it does not end with white space |
| Tickers.Strip | var.py:21 | a contiguous slice with only white space cut away on either side, neither starting nor ending with white space |
| Tickers.StripSlice | var.py:21 | stripping the front and then the back cuts the input down to one slice with only white space on either side |
| Tickers.StripIdempotent | var.py:21 | stripping twice is stripping once |
| Tickers.UpperChar | var.py:21 | a lower-case ASCII letter becomes the capital at the same place in the alphabet; the result is never a lower-case ASCII letter; other characters are unchanged; white space and commas are kept |
| Tickers.Upper | var.py:21 | the same length, every character upper-cased |
| Tickers.UpperIdempotent | var.py:21 | upper-casing twice is upper-casing once |
| Tickers.UpperKeepsComma | var.py:21 | the input contains a comma exactly when its upper-cased form does |
| Tickers.Symbols | var.py:21 | one symbol per field, each the stripped, upper-cased field followed by ".NS" |
| Tickers.NormalizeTickers | var.py:21 | one symbol per comma-separated field, each the stripped, upper-cased field followed by ".NS" |
| Tickers.StripKeepsCommaFree | var.py:21 | stripping a comma-free field leaves it comma-free |
| Tickers.SuffixedShape | var.py:21 | a stripped comma-free base, upper-cased and suffixed, has the exchange-symbol shape |
| Tickers.BaseShape | var.py:21 | a comma-free base without surrounding white space, followed by ".NS", has the exchange-symbol shape |
| Tickers.SymbolShape | var.py:21 | the symbol made from a comma-free field has the exchange-symbol shape |
| Tickers.NormalizedSymbolShape | var.py:21 | every normalised symbol is a comma-free base without surrounding white space, followed by ".NS" |
| Assessment.Assess | var.py:80-111 | a report exactly when the weights sum to 100, the table is not empty, the weight count matches the columns, the window is shorter than the table and the confidence is in the z-table; InvalidWeights, NoData, DimensionMismatch, then PercentileOutOfRange, EmptySample and UnsupportedConfidence in the script's order; past the table checks the result is `Estimate` of the portfolio returns; a rolling series of len(rows) − W entries; min ≤ CVaR ≤ historical VaR ≤ max; a parametric value exactly when there are at least three dates |
| Assessment.Estimate | var.py:94-111 | a report exactly when 0 ≤ c ≤ 100, W ≤ len(R) and the confidence is in the z-table, with PercentileOutOfRange, EmptySample and UnsupportedConfidence otherwise in that order; the rolling series and historical VaR are those of `HistoricalVaR`, the conditional VaR is `ConditionalVaR` of that rolling series, and the parametric field is `ParametricVaR`'s value or empty exactly when it reports TooFewReturns; min ≤ CVaR ≤ historical VaR ≤ max |
| Assessment.AssessOfferedLevels | var.py:16 | runs at the offered levels 90, 95 and 99 on the same inputs report historical (and, with a square root, parametric) estimates ordered 99 ≤ 95 ≤ 90 |
| Assessment.TwoAssetExample | var.py:26-33 | prices 100, 101, 102, 101 and 50, 49, 51, 52 with weights 60 and 40 give daily returns −0.002, 0.6/101 + 0.8/49 and 1/510 |
| Assessment.ExampleReturns | var.py:26-33 | the example table is rectangular with nonzero prices, and its portfolio returns are the three daily returns above |
| Assessment.ExampleValues | var.py:32 | three values that are the example's weighted daily returns are −0.002, 0.6/101 + 0.8/49 and 1/510 |
| Assessment.ExampleDay0 | var.py:32 | the example's first weighted daily return is −0.002 |
| Assessment.ExampleDay1 | var.py:32 | the example's second weighted daily return is 0.6/101 + 0.8/49 |
| Assessment.ExampleDay2 | var.py:32 | the example's third weighted daily return is 1/510 |
| Assessment.TwoAssetRollingExample | var.py:37 | the example's two-day rolling series compounds days 1–2 and days 2–3 |
| Assessment.GrowthPair | var.py:37 | compounding two returns x, y gives (1 + x)(1 + y) − 1 |
| Assessment.ShortSeriesExample | var.py:37-38 | three daily returns with a window of 10 give an empty rolling series and EmptySample |

## Left out

- The Streamlit user interface (title, input widgets, subheaders, messages; var.py:8-17 and var.py:99-130) is left out. `st.error` followed by `st.stop` becomes an `Err` result, and so does the warning for an empty table.
- The yfinance download (var.py:22) is left out because it is network I/O. `Assess` takes the downloaded price table as a parameter, and only the ticker normalisation of line 21 is modelled.
- Plotting (var.py:62-70) and CSV export and encoding (var.py:73-77) are left out as presentation and serialisation.
- Parsing the weights with `float` and the bare `except` (var.py:82, var.py:86-88) are left out as library string-to-number parsing. The model starts from the parsed weights.
- IEEE-754 floating point is not modelled; all arithmetic is exact over `real`. This covers:
  - rounding error;
  - exact float equality in the weight check;
  - NaN and infinity.
- Returns.PortfolioReturns: requires non-zero prices. After a zero price, pandas gives NaN for a zero next price (0/0), and `dropna` drops that row. It gives ±inf for a non-zero next price, and `dropna` keeps that row, so the infinity reaches the dot product. Neither is representable over `real`. Missing prices are not modelled either. `pct_change` fills a missing price forward by default (its `fill_method="pad"` in pandas before 3.0), rather than producing NaN.
- Estimators.ParametricVaR: does not compute a square root itself. `sqrt` is a parameter, and the lemmas require only that it is a square root on non-negative reals.
- Estimators.RoundCents: rounds the exact real half to even. Python's `round(x, 2)` rounds the binary double, so ties that are not exact in binary may go the other way.
- Tickers.Upper: upper-cases ASCII letters only. Python's `str.upper` also maps non-ASCII letters and can lengthen a string.
- Tickers.UpperChar: maps ASCII letters only, for the same reason. A non-ASCII lower-case letter such as 'é' is left unchanged, while Python gives 'É'.
- Assessment.Assess: reports the three estimates as return fractions. The currency amounts (var.py:97, var.py:104, var.py:111) are `Estimators.VarAmount` of each field, and the NaN amount shown for a missing parametric estimate is not modelled.
- The date index of the price table and of the rolling series is not modelled; the series are plain sequences in date order.
- The slider bounds for the window (5 to 60) and the three offered confidence levels (var.py:15-16) are UI constraints. The engine functions take any window ≥ 1 and any integer confidence.
