# RiskOptima Engine: a verified model of its computational core

RiskOptima Engine is a position-sizing and risk toolkit for MetaTrader 5
trade histories. A Rust extension (`src/lib.rs`) does the computation:

- it reads a trade ledger from an MT5 CSV or XML export;
- it computes performance statistics: win and loss probabilities, average
  and median wins and losses, profit factor, expectancy and maximum drawdown;
- it sizes bets by the Kelly criterion and by Ralph Vince's Optimal F;
- it estimates how often a prop-firm challenge would be passed, by replaying
  bootstrap resamples of the ledger against the challenge rules.

A FastAPI layer (`src/risk_optima_engine/backend.py`) adds a few decision
rules of its own:

- it turns request dictionaries into trades;
- it builds the equity curve of the performance report;
- it attaches warnings to a Kelly fraction;
- it recomputes the terminal wealth relative (TWR) beside Optimal F;
- it sweeps six risk fractions to recommend the one with the best challenge
  pass rate.

This project models that core in Dafny and proves what it promises. The
files are:

- `types.dfy`: the shared records (trade, metrics, challenge rules), the
  `Option` and `Result` wrappers, and one `Error` constructor per error the
  engine raises, with its message.
- `series.dfy`: sums, prefix sums and the win/loss partition of a
  list of amounts.
- `metrics.dfy`: the statistics as functions of the profit list, their
  properties, and the engine's metrics call. Its drawdown scan is a loop
  proved against the specification.
- `parsers.dfy`: the CSV reader (a filter-and-map loop over records) and the
  XML reader (substring search, line splitting and a counting loop).
- `kelly.dfy`: the closed-form Kelly fraction and its algebra.
- `optimal_f.dfy`: the largest loss, the 1000-point grid search, and
  refinement by bounded hill-climbing. The grid search and the refinement
  are loops proved against recursive specifications. The largest loss is a
  recursive function with its bounds.
- `simulation.dfy`: the per-path walk, resampling by given indices, and
  turning a pass count into a pass rate.
- `backend.dfy`: the handler rules of `backend.py`.

Floating-point numbers are modelled as `real`. The random bootstrap indices
are an input: one index sequence per simulated path. The CSV tokeniser and
the string-to-number parser are inputs too. The CSV records arrive already
split into fields, and number parsing is a function parameter.

Where the code and its tests disagree, the model follows the code. The test
at `tests/test_rust_core.py:237` expects Optimal F to be 0.0 for a ledger
without losses. In the code, however, the largest loss falls back to 1.0
(`src/lib.rs:335-336`), so the early return at `src/lib.rs:338-340` can never
fire. For two wins of 50 the engine returns 0.0999, which the lemma
`OptimalF.LossFreeLedgerOptimalF` proves.

## Model

| member | source | states |
|---|---|---|
| Metrics.CalculatePerformanceMetrics | src/lib.rs:214-307 | An empty ledger fails with "No trades provided". Otherwise each field equals its statistic of the profit list. The expectancy is the mean profit per trade, the drawdown is the running-maximum drawdown of the cumulative curve, and the Sharpe ratio is None. Both probabilities are in [0,1] and sum to at most 1, the signs of the averages hold, and the ratios and drawdown are non-negative. |
| Metrics.ProbabilitiesBounded | src/lib.rs:219-225 | The win and loss probabilities are within [0,1] and sum to at most 1, because break-even trades count in neither. |
| Metrics.AveragesSigns | src/lib.rs:227-237 | avg_win ≥ 0, and it is 0 exactly when no trade wins. avg_loss ≤ 0, and it is 0 exactly when no trade loses. |
| Metrics.Sort | src/lib.rs:243-244 | The sorted amounts are ascending and a permutation of the input. |
| Metrics.MedianWithinRange | src/lib.rs:246-266 | The median of a sorted non-empty list lies between its first and last element. |
| Metrics.MedianOfPositives | src/lib.rs:240-266 | The median of positive amounts (wins, or loss magnitudes) is positive. |
| Metrics.WinLossRatioZeroIff | src/lib.rs:239-268 | The median-based win/loss ratio is ≥ 0, and it is 0 exactly when there is no win or no loss. |
| Metrics.ProfitFactorZeroIff | src/lib.rs:270-272 | The profit factor is ≥ 0, and it is 0 exactly when there is no win or no loss. |
| Metrics.ExpectancyIsMeanProfit | src/lib.rs:274 | p_win·avg_win − p_loss·abs(avg_loss) equals the total profit divided by the number of trades. |
| Metrics.PeakIsRunningMaximum | src/lib.rs:277-285 | The peak after k trades is the largest point of the curve so far, including the starting 0, and is attained. |
| Metrics.MaxDrawdownIsLargestDecline | src/lib.rs:277-290 | The maximum drawdown is the largest fall from an earlier point of the curve to a later one. It is attained and it is ≥ 0. |
| Parsers.ParseMt5Csv | src/lib.rs:146-173 | The reading loop computes exactly the CSV specification `CsvTrades`. |
| Parsers.CsvFailsIff | src/lib.rs:150-151 | Reading fails exactly when some record is unreadable. The error is "CSV parsing error: " with the first unreadable record's detail. |
| Parsers.CsvTradesOfRows | src/lib.rs:153-169 | Without unreadable records, the import succeeds with one trade per row with at least 8 fields whose first field lacks "Positions". The trade of the trade row at index i is at the position given by the number of trade rows before it, so the trades are those rows' mappings in file order. Every trade is some trade row's mapping. |
| Parsers.CsvTradesAppend | src/lib.rs:150-170 | Reading a concatenation is reading the parts in order, stopping at the first error. |
| Parsers.Find | src/lib.rs:181-182 | The index found is the first occurrence of the pattern, and None means there is no occurrence. |
| Parsers.JoinLinesOfLines | src/lib.rs:192 | Splitting on '\n' and joining back gives the original text. |
| Parsers.ParseMt5Xml | src/lib.rs:176-211 | Fails with "Positions section not found" exactly when `<Positions>` is missing or sits at offset 0. Otherwise it returns one placeholder trade (EURUSD, Buy, 1, 1, 1, 0) per line of the section that holds both `<Position>` and `</Position>`. |
| Parsers.MissingSectionRejected | src/lib.rs:181-186 | A document without `<Positions>` is always rejected. |
| Parsers.SectionWithoutPositions | src/lib.rs:188-208 | A section without `<Position>` yields no trades. |
| Kelly.CalculateKellyCriterion | src/lib.rs:310-322 | Fails exactly for p ∉ (0,1) or R ≤ 0, and the probability is checked before the ratio. |
| Kelly.KellyIsEdgeOverOdds | src/lib.rs:318-319 | f·R = (p·(R+1) − 1)·m. |
| Kelly.KellySign | src/lib.rs:318-319 | With m > 0, the fraction is positive, zero or negative exactly as p·(R+1) − 1 is. |
| Kelly.KellyBelowWinProbability | src/lib.rs:318-319 | With m > 0, the fraction is below p·m. |
| Kelly.KellyScalesWithMultiplier | src/lib.rs:319 | The fraction is the full-Kelly fraction times the multiplier. |
| Kelly.KellyIsNotClamped | src/lib.rs:318-321 | The fraction can exceed 1 (1.798) and can be negative (−0.8). |
| OptimalF.MostNegative | src/lib.rs:331-335 | Returns the smallest of the negative profits, which is in the ledger, or None when no trade lost. |
| OptimalF.LargestLoss | src/lib.rs:331-336 | The largest loss is positive. It is the magnitude of the most negative profit, or 1.0 when there is no loss. |
| OptimalF.LargestLossBoundsLosses | src/lib.rs:331-336 | Every loss's magnitude is at most the largest loss. |
| OptimalF.TwrAtZero | src/lib.rs:349-351 | Betting f = 0 gives TWR 1. |
| OptimalF.GridSearch | src/lib.rs:343-357 | The grid loop returns the fraction of `GridArgmax` over i/10000 for 0 ≤ i < 1000. |
| OptimalF.GridArgmaxIsFirstMaximum | src/lib.rs:343-357 | The chosen grid point has the largest TWR on the grid, and every earlier point's TWR is strictly smaller. |
| OptimalF.UniqueGridMaximum | src/lib.rs:343-357 | A grid point that beats every other is the one chosen. |
| OptimalF.GradientAt | src/lib.rs:364-371 | The gradient loop sums (−p/L)/term over the trades whose factor is positive. |
| OptimalF.AscentStep | src/lib.rs:373-379 | Computes the TWR and the candidate f + 0.001·gradient·TWR. |
| OptimalF.HillClimb | src/lib.rs:359-398 | The refinement loop and its three exits compute `Refine`. |
| OptimalF.RefineNonNegative | src/lib.rs:379-382 | Starting from f ≥ 0, refinement never yields a negative fraction. |
| OptimalF.RefineImproves | src/lib.rs:384-397 | The refined fraction's TWR is at least the start's, or within the tolerance of it. |
| OptimalF.CalculateOptimalF | src/lib.rs:325-401 | An empty ledger fails. Otherwise the result is the refined grid argmax, and it is ≥ 0. |
| OptimalF.LossFreeLedgerOptimalF | src/lib.rs:331-340 | Two wins of 50 give 0.0999, not 0: the early return never fires. |
| Simulation.SimulatePath | src/lib.rs:430-465 | The path loop, with its three ordered exits, decides exactly `PathPasses`. |
| Simulation.EarlyStopIsACheck | src/lib.rs:442-457 | A path that stops before its last trade was stopped by a loss limit or by reaching the target. |
| Simulation.WalkCompounds | src/lib.rs:436-441 | The final equity is the starting equity times the product of (1 + rf·ret/100) over the trades played. |
| Simulation.ZeroRiskNeverPasses | src/lib.rs:437-465 | With a positive account and target, risking nothing never passes. |
| Simulation.PassingPathAboveFloor | src/lib.rs:448-465 | A passing path ends at or above the overall-loss floor. |
| Simulation.MinTradingDaysIgnored | src/lib.rs:430-465 | The minimum number of trading days does not affect the outcome. |
| Simulation.BootstrapSample | src/lib.rs:423-428 | The resample has one return per index, each the ledger's return at that index. |
| Simulation.CountTrueExtremes | src/lib.rs:469 | The pass count equals the number of paths exactly when every path passed, and is 0 exactly when none did. |
| Simulation.RunMonteCarloSimulation | src/lib.rs:404-478 | An empty ledger fails. Otherwise the map has exactly the keys pass_rate, total_simulations and passed_simulations. The pass count is the number of passing paths, and the rate is count/n, within [0,1]. |
| Backend.TradeOf | src/risk_optima_engine/backend.py:142-151 | The conversion succeeds exactly when every read key is absent or of its argument's type. Otherwise the error names the first key, in the constructor's parameter order, that is present with a value its argument rejects. |
| Backend.TradeRecordRoundTrip | src/risk_optima_engine/backend.py:143-152 | Sending a trade as a dictionary and converting it back gives the same trade. |
| Backend.FieldsOrDefaults | src/risk_optima_engine/backend.py:142-151 | In every converted dictionary, each field is its key's value, or its default when the key is absent: "" for the strings, 0.0 for the numbers, None for commission and swap (also when null). |
| Backend.MissingKeysDefault | src/risk_optima_engine/backend.py:144-151 | An empty dictionary gives "" for both strings, 0.0 for the numbers and None for commission and swap. |
| Backend.ExtraKeysIgnored | src/risk_optima_engine/backend.py:143-152 | Keys other than the eight read ones change nothing. |
| Backend.TradesOfSpec | src/risk_optima_engine/backend.py:141-154 | Conversion succeeds exactly when every dictionary is well typed, keeping length and order. Otherwise it reports the first bad dictionary's error. |
| Backend.ParseTradesFromData | src/risk_optima_engine/backend.py:136-154 | Without the extension it fails with "Rust extension not available". Otherwise the loop computes `TradesOf`. |
| Backend.EquityCurve | src/risk_optima_engine/backend.py:244-248 | The curve has one point per trade, and point i is the sum of profits 0..i. |
| Backend.CurveSteps | src/risk_optima_engine/backend.py:244-248 | The curve starts at the first profit and each point adds the next profit. The last point is the net profit. |
| Backend.KellyWarnings | src/risk_optima_engine/backend.py:286-290 | The high-risk warning appears iff the fraction > 0.1, and the negative warning iff the fraction < 0. There is never more than one warning, and none exactly for fractions in [0, 0.1]. |
| Backend.CalculateKelly | src/risk_optima_engine/backend.py:271-295 | Missing statistics read as 0.0. Without the extension it fails. Otherwise the Kelly result is returned unchanged, with its warnings. |
| Backend.MissingWinProbabilityRejected | src/risk_optima_engine/backend.py:274 | A dictionary without win_probability is rejected as out of range. |
| Backend.NegativeWarningIffNoEdge | src/risk_optima_engine/backend.py:280-290 | With m > 0, the negative warning appears iff p·(R+1) < 1. A zero multiplier never warns. |
| Backend.SmallBetsDoNotWarn | src/risk_optima_engine/backend.py:280-288 | With m ≤ 0.5 and p ≤ 0.2, the high-risk warning never appears. |
| Backend.LeastNegative | src/risk_optima_engine/backend.py:311 | Returns the loss closest to zero, which is in the ledger, or None when no trade lost. |
| Backend.SmallestLossAtMostLargestLoss | src/risk_optima_engine/backend.py:311 | The handler's scale is at most the optimiser's largest loss. The two are equal when there is no loss. |
| Backend.SmallestLoss | src/risk_optima_engine/backend.py:311 | The handler's scale is negative. With losses, it is one of them and has the least magnitude among them. Without losses, it is −1. |
| Backend.TwrLoop | src/risk_optima_engine/backend.py:313-315 | The loop twr *= 1 + f·(−p/scale) computes the TWR product. |
| Backend.ReportedTwrAsWritten | src/risk_optima_engine/backend.py:311-315 | The TWR as the handler computes it, scaled by the smallest loss. It equals the optimiser's TWR when all losses have the same size (in particular when nothing lost), and it is 1 at f = 0. |
| Backend.SmallestLossMisscalesTwr | src/risk_optima_engine/backend.py:311-315 | The handler's TWR formula, evaluated for profits [−10, −1, 20] at the grid point 0.0999, is negative while the optimiser's TWR there is positive. This is a statement about the formula: for this ledger the endpoint does not return 0.0999. |
| Backend.TwoLossesReportGap | src/risk_optima_engine/backend.py:311-315 | For losses of 10 and 1 and any f > 0, the handler's TWR is (1 + 10f)(1 + f), the optimiser's is (1 + f)(1 + f/10), and the first is larger. |
| Backend.TwoLossesOptimalFPositive | src/lib.rs:325-401 | For losses of 10 and 1, the Optimal F the endpoint computes (1000 iterations, 1e-6) is positive. |
| Backend.SmallestLossMisreportsTwr | src/risk_optima_engine/backend.py:307-315 | For losses of 10 and 1, the endpoint returns a positive Optimal F, and the TWR it reports there is above the TWR that Optimal F maximised. |
| Backend.ReportedTwrNearGridMaximum | src/risk_optima_engine/backend.py:308-315 | Scaled by the largest loss, the reported TWR at Optimal F is above every grid point's TWR minus 1e-6. |
| Backend.CalculateOptimalFEndpoint | src/risk_optima_engine/backend.py:301-321 | Fails without the extension, on a conversion error, or on an empty ledger. Otherwise it returns Optimal F (1000 iterations, 1e-6) and the TWR at it as the handler computes it, scaled by the smallest loss (`ReportedTwrAsWritten`). |
| Backend.BestChoiceIsFirstMaximum | src/risk_optima_engine/backend.py:349-364 | The chosen rate is ≥ 0 and ≥ every rate. A positive choice is the first fraction reaching it, so ties keep the lower fraction. The choice is (0, 0) exactly when no rate is positive. |
| Backend.NoPassingFractionRecommendsZero | src/risk_optima_engine/backend.py:350-364 | When every pass rate is 0, the recommendation is fraction 0 with rate 0. |
| Backend.TiesKeepLowerFraction | src/risk_optima_engine/backend.py:349-364 | Six equal positive rates recommend 0.001. |
| Backend.PassRate | src/risk_optima_engine/backend.py:353-359 | The pass rate of one fraction, the engine's passing share of the paths, is within [0,1]. |
| Backend.SweepRates | src/risk_optima_engine/backend.py:353-361 | Gives one pass rate per fraction, each within [0,1]. |
| Backend.Sweep | src/risk_optima_engine/backend.py:349-364 | An empty ledger fails on the first run. Otherwise the loop computes `BestChoice` over the six fractions and their pass rates. |
| Backend.OptimizeChallenge | src/risk_optima_engine/backend.py:327-371 | Fails without the extension, on a conversion error, or on an empty ledger. Otherwise it recommends the sweep's choice, with the interval (rate − 0.05, rate + 0.05), unclipped. |

## Findings

| source | as written | input that shows it | evidently intended | confidence | as-written member | corrected member |
|---|---|---|---|---|---|---|
| src/risk_optima_engine/backend.py:311 | `largest_loss = min(losses, key=abs)` picks the loss closest to zero, and the TWR is then scaled by that loss. | Profits [−10, −1]: the endpoint's Optimal F f is positive, the scale is 1 instead of 10, and the reported TWR (1 + 10f)(1 + f) is above the TWR (1 + f)(1 + f/10) that Optimal F maximised. | Scale by the largest loss magnitude, as `calculate_optimal_f` does (src/lib.rs:331-336), so that the reported TWR is the objective Optimal F maximised. | likely; not executed | Backend.SmallestLossMisreportsTwr | Backend.ReportedTwrNearGridMaximum |

The endpoint itself (`Backend.CalculateOptimalFEndpoint`) is modelled as written: it reports `ReportedTwrAsWritten`. The corrected definition is `Backend.ReportedTwr`, which scales by the largest loss. `Backend.ReportedTwrNearGridMaximum` proves that it stays within the tolerance of the best grid TWR.

## Left out

- Random numbers and the rayon parallel map (src/lib.rs:418-428): the resample indices arrive as an input, one valid index sequence per path.
- NaN, infinities and rounding: values are exact `real`s. The `partial_cmp().unwrap()` panics on NaN (src/lib.rs:243-244, 334) are therefore not modelled.
- Simulation.RunMonteCarloSimulation: requires `numSimulations > 0` and a non-zero account size. The source would return a NaN pass rate, or divide by zero in the daily-loss check.
- Parsers.ParseMt5Csv: CSV tokenisation and header handling belong to the `csv` crate, and string-to-number parsing belongs to Rust's `parse`. Records arrive after the header, each either its fields or the reader's error, and parsing is a function parameter.
- Parsers.ParseMt5Xml: requires that `</Positions>` does not precede `<Positions>`; the source panics on that slice. `str::lines` is modelled as splitting at '\n'. Its removal of a trailing '\r' and of a final empty line does not change which lines hold both tags. Offsets count characters rather than UTF-8 bytes.
- The dead early return at src/lib.rs:338-340 (largest loss 0) is not modelled, since the largest loss is always positive.
- The variable `peak_equity` (src/lib.rs:432) is never read and is not modelled.
- Backend.TradeOf: a value of the wrong type is reported as `WrongFieldType(key)`; the exact PyO3 conversion message is not reproduced. Python integers and booleans passed as floats are not distinguished from numbers.
- Backend.CalculateKelly: the performance dictionary is modelled as a map to numbers; non-numeric values are not modelled.
- Backend.OptimizeChallenge: the challenge rules arrive as a record, so the `KeyError` for a missing rule (src/risk_optima_engine/backend.py:337-343) is not modelled. It also requires a non-zero account size, as the simulation does.
- HTTP plumbing: FastAPI routing, pydantic validation (assumed through the `requires` on the multiplier and the simulation count), HTTPException wrapping of errors, file upload and reading, temporary files, upload identifiers and the task dictionaries.
- The rest of `analyze_performance` (reading the uploaded file and choosing a parser by extension) is I/O and is not modelled. The parsers and the metrics call it uses are modelled.
- PyO3 module registration (src/lib.rs:481-493) and the package re-exports.
- `frontend.py` (the Streamlit interface), `mt5_integration.py` and `mt5_live_data.py` (MetaTrader 5 terminal I/O and polling threads), and `main.py` (the command line) are not part of this model.
