# enstools-compression, modelled in Dafny

enstools-compression compresses gridded geoscience datasets (NetCDF and GRIB turned into
xarray datasets) with lossy compressors, ZFP and SZ. Its core is the **analyzer**. For each
variable and each compressor/mode combination, the analyzer searches the compression parameter.
The parameter it wants is the one that gives the highest compression ratio while every quality
metric (correlation, SSIM, ...) stays above its threshold. In compression-ratio mode it works the
other way round: it wants the best quality that still reaches a target ratio. The search is a
bisection on the margin `min(metric - threshold)`. It takes a continuous form for float
parameters and a discrete form for integer parameters. After the search, the analyzer picks the
best combination for every variable.

Around the analyzer the model also covers:

- the two options classes:
  - the string-based `AnalysisOptions`, with its CSV threshold parser;
  - the legacy enum-based one;
- the metric registry and the `DataArrayMetrics` cache;
- the bit-level code: type masks, bit extraction, bit-pair counts, the mutual-information report,
  and pruning of insignificant mantissa bits in place;
- the compressor's file-name and path helpers;
- the human-readable size and ratio helpers.

## How the model is organised

The library modules come first:

- `Wrappers` holds the `Result`/`Option` types and the Python exception kinds that the model
  raises as `Err` values.
- `Strings` holds `split`/`join`.
- `Dicts` models an insertion-ordered Python `dict` as a sequence of pairs.
- `DataModel` holds values that may be NaN, time-stepped grids, and `Max`/`Min`.

Each other module follows one source file:

- `AnalyzerUtils` follows `analyzer_utils.py`.
- `AnalyzeDataArray` follows `analyze_data_array.py`. The counter object and
  `define_functions_to_optimize` are classes here.
- `Analyzer` follows `analyzer.py`.
- `AnalysisOptions` follows `analysis_options.py`.
- `LegacyAnalysisOptions` follows `AnalysisOptions.py`.
- `Metrics` follows `metrics.py`. It includes the `DataArrayMetrics` class over arrays.
- `SignificantBits` follows `significant_bits.py`.
- `Pruner` follows `pruner.py`. The in-place pruning of a data array is a class.
- `Compressor` follows `compressor.py`.
- `SizeMetrics` follows `size_metrics.py`.

What the searches do is stated by pure functions. The code that changes state is written as
methods, and each method is proved equal to those functions:

- the evaluation counter;
- in-place NaN fixing;
- the metric cache;
- in-place pruning;
- the loops of the selectors and of the combination enumeration.

Outside code the model cannot see becomes a parameter or an uninterpreted function:

- the compressor emulators (compress, then decompress);
- the metric bodies;
- the number formatting;
- the file system.

Several behaviours are modelled exactly as the code has them:

- A margin of exactly 0 at a midpoint ends the continuous search on the range's `end`, not on the
  midpoint.
- The recursive call does not pass `max_depth` on. Below the first call, the default limit of 50
  is always used.
- Only the last time step of a time-dependent variable is analysed.
- A NaN in that step makes the analysis fall back to lossless.
- In compression-ratio mode the evaluation counter restarts at 1 for the final report.

## Model

| member | source | states |
|---|---|---|
| AnalyzerUtils.MetricsRecord | enstools/compression/analyzer/analyzer_utils.py:16-26 | the record succeeds exactly when every requested name other than the compression ratio is an available metric; its keys are exactly those names, without duplicates, each bound to that metric's value on the two arrays; a failure names an unavailable metric |
| AnalyzerUtils.MetricsRecordErrorPersists | enstools/compression/analyzer/analyzer_utils.py:26 | the first unavailable metric decides the error: the record of all names equals the record of the names up to the first failing one |
| AnalyzerUtils.GetMetrics | enstools/compression/analyzer/analyzer_utils.py:16-26 | replaces NaN by the fill value in both arrays in place, then returns the metrics record of the fixed arrays |
| AnalyzerUtils.CollectMetrics | enstools/compression/analyzer/analyzer_utils.py:26 | reading the names one by one through the metrics cache yields the metrics record of the two arrays, and the cache stays consistent |
| AnalyzerUtils.MetricsRecordStep | enstools/compression/analyzer/analyzer_utils.py:26 | one more name is skipped when it is the compression ratio, and otherwise adds its value or fails with its error |
| AnalyzerUtils.CheckCompressionRatio | enstools/compression/analyzer/analyzer_utils.py:29-36 | KeyError exactly when no compression-ratio threshold is given; otherwise true exactly when the ratio is strictly above that threshold |
| AnalyzerUtils.GetParameterRange | enstools/compression/analyzer/analyzer_utils.py:39-77 | per mode: abs/accuracy give (max - min of the data, 0) and fail with ValueError on empty data; rel/pw_rel give (1, 0); rate (1, 32); precision the integer range (2, 32); norm2/psnr read the sz3 table with KeyError when missing; any other mode is an EnstoolsError |
| AnalyzerUtils.ContinuousBisection | enstools/compression/analyzer/analyzer_utils.py:142-219 | always returns a parameter within the closed range between start and end, after at least one evaluation |
| AnalyzerUtils.ExactZeroReturnsEnd | enstools/compression/analyzer/analyzer_utils.py:187-193 | a margin of exactly zero at the first midpoint stops the search after one evaluation and returns end, not the midpoint |
| AnalyzerUtils.ContinuousIsSafe | enstools/compression/analyzer/analyzer_utils.py:189-209 | with a direct relation, if the tighter end meets every threshold then so does the returned parameter |
| AnalyzerUtils.InverseMayReturnUnsafeEnd | enstools/compression/analyzer/analyzer_utils.py:189-209 | with an inverse relation, a margin met only at the looser end makes the search return the tighter end 1/64 after seven evaluations, and that parameter misses the thresholds |
| AnalyzerUtils.ContinuousEvaluationsAtDefault | enstools/compression/analyzer/analyzer_utils.py:202-219 | under the default depth limit a search begun at depth d evaluates at most 51 - d times (once when d is 50 or more) |
| AnalyzerUtils.ContinuousEvaluationsBound | enstools/compression/analyzer/analyzer_utils.py:202-219 | a search from a non-negative depth evaluates at most 51 times, whatever maximum depth the caller passes |
| AnalyzerUtils.ContinuousRunsToDefaultDepth | enstools/compression/analyzer/analyzer_utils.py:196-219 | when the margin is always negative and never repeats, a search from depth d makes exactly 51 - d evaluations |
| AnalyzerUtils.FirstStepRecurses | enstools/compression/analyzer/analyzer_utils.py:202-219 | a negative first margin below the depth limit costs one evaluation plus the recursive search on the kept half, which runs at the default depth limit |
| AnalyzerUtils.MaxDepthNotForwarded | enstools/compression/analyzer/analyzer_utils.py:211-219 | any max_depth of at least 1 given to the first call yields 51 evaluations on a search that never exits early, because the limit is not passed to the recursion |
| AnalyzerUtils.HalfRunsToDefaultDepth | enstools/compression/analyzer/analyzer_utils.py:196-219 | a recursive search on either half, started at depth 1 with the middle's margin as the last value, runs the full 50 evaluations |
| AnalyzerUtils.LooserHalfRunsToDefaultDepth | enstools/compression/analyzer/analyzer_utils.py:211-215 | the search of the looser half after the first call runs 50 evaluations |
| AnalyzerUtils.TighterHalfRunsToDefaultDepth | enstools/compression/analyzer/analyzer_utils.py:216-219 | the search of the tighter half after the first call runs 50 evaluations |
| AnalyzerUtils.DiscreteBisection | enstools/compression/analyzer/analyzer_utils.py:222-296 | a result is an element of the list reached after at least one evaluation; the only failure is IndexError |
| AnalyzerUtils.DiscreteSingletonIsEmptied | enstools/compression/analyzer/analyzer_utils.py:251-296 | as written, a one-element list whose margin asks for the looser half is cut to the empty list and fails with IndexError |
| AnalyzerUtils.DiscreteDropsSatisfyingMiddle | enstools/compression/analyzer/analyzer_utils.py:282-286 | on [2, 3] with the only satisfying value 3, the code as written returns 2, whose margin is negative |
| AnalyzerUtils.CorrectedDiscreteBisection | enstools/compression/analyzer/analyzer_utils.py:282-286 | the corrected search keeps the evaluated middle in the looser part; it succeeds on every non-empty list and returns one of its elements |
| AnalyzerUtils.CorrectedDiscreteIsSafe | enstools/compression/analyzer/analyzer_utils.py:263-296 | with a direct relation, if the last (tightest) element meets every threshold, the corrected search returns an element that meets every threshold |
| AnalyzerUtils.CorrectedStops | enstools/compression/analyzer/analyzer_utils.py:263-280 | a call of the corrected search that stops returns the middle on a positive margin and the last element otherwise |
| AnalyzerUtils.CorrectedRecurses | enstools/compression/analyzer/analyzer_utils.py:282-296 | a call of the corrected search that goes on returns what the search of the kept half returns, at the default depth limit and with the retry count lowered on a repeated margin |
| AnalyzerUtils.CorrectedKeepsSatisfyingMiddle | enstools/compression/analyzer/analyzer_utils.py:282-286 | on the counterexample [2, 3] the corrected search returns 3 |
| AnalyzerUtils.Range | enstools/compression/analyzer/analyzer_utils.py:135 | Python range(lo, hi): hi - lo consecutive integers from lo, empty when hi <= lo |
| AnalyzerUtils.BisectionMethod | enstools/compression/analyzer/analyzer_utils.py:128-139 | a float looser bound runs the continuous search and returns a float between the bounds; integer bounds run the discrete search over looser..tighter and return an integer in that interval, failing with IndexError when the interval is empty; other bound types are a TypeError with no evaluation |
| AnalyzerUtils.BisectionOnFloatRange | enstools/compression/analyzer/analyzer_utils.py:128-134 | on float bounds the bisection method is the continuous search, and returns its parameter as a float |
| AnalyzeDataArray.MetricsAt | enstools/compression/analyzer/analyze_data_array.py:117-143 | succeeds exactly when every threshold name other than the ratio is an available metric; the keys are the threshold names plus the compression ratio, without duplicates, and the ratio is the emulator's ratio for that parameter |
| AnalyzeDataArray.Difference | enstools/compression/analyzer/analyze_data_array.py:152 | the metric minus its threshold; fails exactly when the metric is missing |
| AnalyzeDataArray.Margin | enstools/compression/analyzer/analyze_data_array.py:145-152 | succeeds exactly when there is a threshold and every threshold names a metric; the margin is at most every metric-minus-threshold difference and equal to one of them |
| AnalyzeDataArray.ConstrainIffAllMet | enstools/compression/analyzer/analyze_data_array.py:154-158 | the margin is non-negative exactly when every metric is at least its threshold |
| AnalyzeDataArray.ObjectiveAt | enstools/compression/analyzer/analyze_data_array.py:145-152 | the objective at a parameter succeeds exactly when there are thresholds, all of them named metrics are available, and every threshold is found among the computed metrics |
| AnalyzeDataArray.ObjectiveFailsEverywhereOrNowhere | enstools/compression/analyzer/analyze_data_array.py:141-152 | whether the objective fails does not depend on the parameter |
| AnalyzeDataArray.DirectWhenIncreasingTowardTighter | enstools/compression/analyzer/analyze_data_array.py:33-41 | a margin larger at 90% of the range than at 10% is a direct relation |
| AnalyzeDataArray.InverseWhenNotIncreasing | enstools/compression/analyzer/analyze_data_array.py:33-41 | a margin not larger at 90% than at 10% is an inverse relation |
| AnalyzeDataArray.SetAll | enstools/compression/analyzer/analyze_data_array.py:88-90 | every listed name is bound to the value and every other key keeps its entry; distinct keys stay distinct |
| AnalyzeDataArray.SearchStep | enstools/compression/analyzer/analyze_data_array.py:62-81 | a found parameter lies in the mode's range after at least three evaluations; an error of the range is returned unchanged with no evaluation |
| AnalyzeDataArray.SearchOnRange | enstools/compression/analyzer/analyze_data_array.py:75-81 | a found parameter lies in the given range after at least three evaluations (two probes and the search) |
| AnalyzeDataArray.SearchWith | enstools/compression/analyzer/analyze_data_array.py:75-81 | once the relation is known, a found parameter lies in the range, after at least three evaluations |
| AnalyzeDataArray.SearchOnRangeProbed | enstools/compression/analyzer/analyze_data_array.py:75-81 | when the probe of the relation succeeds, the search is the bisection of the margin with the direction found |
| AnalyzeDataArray.SearchOnFloatRange | enstools/compression/analyzer/analyze_data_array.py:75-81 | on float bounds with a successful probe, the search returns the continuous bisection's parameter after its evaluations plus the two probes |
| AnalyzeDataArray.SearchWithOnFloatRange | enstools/compression/analyzer/analyze_data_array.py:75-81 | on float bounds, the search with a given margin is the continuous bisection plus two evaluations |
| AnalyzeDataArray.Report | enstools/compression/analyzer/analyze_data_array.py:83-103 | the counter ends at 1 in compression-ratio mode and one past the search's count otherwise; a success is lossy with the parameter, its specification string and the compression ratio among the metrics, and in compression-ratio mode also both diagnostics; outside that mode it succeeds exactly when the metrics at the parameter do, and reports them |
| AnalyzeDataArray.ReportResult | enstools/compression/analyzer/analyze_data_array.py:83-103 | the report fails with the metrics' error or is lossy with the metrics at the parameter, under the thresholds extended by the diagnostics in compression-ratio mode |
| AnalyzeDataArray.OnlyLastTimeStep | enstools/compression/analyzer/analyze_data_array.py:51-52 | a time-dependent variable is analysed as its last time step alone |
| AnalyzeDataArray.NanFallsBackToLossless | enstools/compression/analyzer/analyze_data_array.py:54-59 | a NaN in the analysed step gives lossless with the NaN metrics, and the counter is left as it was |
| AnalyzeDataArray.ResultMetricsHaveRatio | enstools/compression/analyzer/analyze_data_array.py:139-142 | every successful analysis reports a compression ratio, and in compression-ratio mode a lossy one reports both diagnostics |
| AnalyzeDataArray.SpecificationHasFourFields | enstools/compression/analyzer/analyze_data_array.py:94-100 | the specification string splits back into "lossy", compressor, mode and the rendered parameter when no field holds the separator |
| AnalyzeDataArray.ParameterWithinRange | enstools/compression/analyzer/analyze_data_array.py:64-81 | a successful step is lossy and its parameter lies in the mode's range; in precision mode it is an integer between 2 and 32 |
| AnalyzeDataArray.SearchStepOnFloatRange | enstools/compression/analyzer/analyze_data_array.py:75-81 | on a float range the search phase is the continuous bisection of the objective in the probed direction, and costs two probes plus its evaluations |
| AnalyzeDataArray.ContinuousSearchIsSafe | enstools/compression/analyzer/analyze_data_array.py:75-81 | on a float range in the direct direction, when the tighter bound meets every threshold, the found parameter does too |
| AnalyzeDataArray.ContinuousResultMeetsThresholds | enstools/compression/analyzer/analyze_data_array.py:83-86 | under the same conditions, outside compression-ratio mode, the reported metrics meet every threshold |
| AnalyzeDataArray.CounterAfterLossyAnalysis | enstools/compression/analyzer/analyze_data_array.py:111-123 | after a lossy analysis the counter is 1 in compression-ratio mode and at least 4 otherwise |
| AnalyzeDataArray.EvaluationCounter.constructor | enstools/compression/analyzer/analyze_data_array.py:30 | a new counter starts at zero |
| AnalyzeDataArray.OptimizationFunctions.constructor | enstools/compression/analyzer/analyze_data_array.py:106-113 | holds the data, compressor, mode, thresholds and the shared counter, and resets the counter to zero |
| AnalyzeDataArray.OptimizationFunctions.MetricsFromParameter | enstools/compression/analyzer/analyze_data_array.py:117-143 | advances the counter by one and returns the metrics at the parameter |
| AnalyzeDataArray.OptimizationFunctions.FunctionToNullify | enstools/compression/analyzer/analyze_data_array.py:145-152 | advances the counter by one and returns the objective at the parameter |
| AnalyzeDataArray.OptimizationFunctions.Constrain | enstools/compression/analyzer/analyze_data_array.py:154-158 | advances the counter by one; fails where the objective fails, otherwise is true exactly when the objective is non-negative |
| AnalyzeDataArray.FindDirectRelationWith | enstools/compression/analyzer/analyze_data_array.py:33-41 | probes at 10% and 90% of the range; an error at the first probe costs one evaluation and is returned, otherwise two evaluations and the relation of the two margins |
| AnalyzeDataArray.SearchParameter | enstools/compression/analyzer/analyze_data_array.py:61-81 | returns the search phase's outcome and advances the shared counter by exactly its evaluations |
| AnalyzeDataArray.SearchOnRangeWith | enstools/compression/analyzer/analyze_data_array.py:75-81 | the same on a known range |
| AnalyzeDataArray.AddDiagnostics | enstools/compression/analyzer/analyze_data_array.py:88-90 | sets the threshold of both diagnostics to 1, one at a time |
| AnalyzeDataArray.ReportParameter | enstools/compression/analyzer/analyze_data_array.py:83-92 | the report phase: the counter ends as the report says and the result is the report's |
| AnalyzeDataArray.AnalyzeDataArrayMethod | enstools/compression/analyzer/analyze_data_array.py:44-103 | the (specification, metrics) pair or error of the analysis, with the shared counter at the analysis's final count, or unchanged when the analysis ran no search |
| AnalyzeDataArray.AnalyzeStepMethod | enstools/compression/analyzer/analyze_data_array.py:61-103 | on a step without NaN, the search then the report give the analysis's pair or error, and the shared counter ends at the analysis's count |
| Analyzer.VariablesOf | enstools/compression/analyzer/analyzer.py:57-58 | the variables of the first combination; IndexError exactly when there are no combinations |
| Analyzer.RecordOf | enstools/compression/analyzer/analyzer.py:64 | a combination's record for a variable; fails exactly when the combination or the variable is missing |
| Analyzer.RatioOf | enstools/compression/analyzer/analyzer.py:64 | a variable's compression ratio under a combination, exactly when its record exists and holds the ratio |
| Analyzer.RatioScan | enstools/compression/analyzer/analyzer.py:61-66 | succeeds exactly when every combination has a ratio; the best ratio is non-negative, and there is no winner exactly when it is zero |
| Analyzer.RatioIsMaximum | enstools/compression/analyzer/analyzer.py:62-66 | the best ratio is at least the ratio of every combination |
| Analyzer.NoRatioWinnerIffNonePositive | enstools/compression/analyzer/analyzer.py:62-66 | there is no winner exactly when no ratio is positive |
| Analyzer.RatioWinnerIsFirst | enstools/compression/analyzer/analyzer.py:64-66 | the winner has the best ratio and is the first combination to reach it (strict comparison) |
| Analyzer.RatioScanLast | enstools/compression/analyzer/analyzer.py:63-66 | one more combination replaces the running best only when its ratio is strictly greater |
| Analyzer.BestCombination | enstools/compression/analyzer/analyzer.py:60-66 | the best-combination dictionary has distinct keys drawn from the variables |
| Analyzer.BestCombinationPicksWinner | enstools/compression/analyzer/analyzer.py:60-66 | each variable is bound to its own winner |
| Analyzer.BestCombinationFailurePersists | enstools/compression/analyzer/analyzer.py:61-66 | the first variable whose scan fails decides the error |
| Analyzer.Pick | enstools/compression/analyzer/analyzer.py:68-71 | reading the winners' entries succeeds exactly when every winner's table holds the variable |
| Analyzer.PickReadsWinners | enstools/compression/analyzer/analyzer.py:68-71 | each variable's entry is read from its winning combination |
| Analyzer.SelectedRatioIsMaximal | enstools/compression/analyzer/analyzer.py:52-72 | every selected record has a ratio at least that of every other combination for that variable |
| Analyzer.RatioScanFailurePersists | enstools/compression/analyzer/analyzer.py:63-66 | the first combination without a ratio decides the error |
| Analyzer.SelectOptimalEncodingBasedOnCompressionRatio | enstools/compression/analyzer/analyzer.py:52-72 | the loops compute the ratio-based selection |
| Analyzer.ScanRatiosMethod | enstools/compression/analyzer/analyzer.py:62-66 | the loop over combinations for one variable fails with the first missing ratio, and otherwise stores the scan's winner in best_combination, leaving it unchanged when there is none |
| Analyzer.InitialQuality | enstools/compression/analyzer/analyzer.py:87 | every diagnostic's best starts at -1, with no winner |
| Analyzer.QualityStep | enstools/compression/analyzer/analyzer.py:89-93 | no best decreases, and each best is at least the record's value of that diagnostic |
| Analyzer.QualityStepRaises | enstools/compression/analyzer/analyzer.py:89-93 | a pass over one record changes nothing, or makes its combination the winner, and then some diagnostic of the record strictly raised its best to the record's value |
| Analyzer.QualityStepLast | enstools/compression/analyzer/analyzer.py:90-93 | one more diagnostic replaces the running best and the winner only on a strictly greater value present in the record |
| Analyzer.QualityScan | enstools/compression/analyzer/analyzer.py:86-93 | succeeds exactly when every combination has a record, with one best per diagnostic |
| Analyzer.QualityScanBounds | enstools/compression/analyzer/analyzer.py:87-93 | every best is at least -1 and at least every combination's value of that diagnostic |
| Analyzer.QualityIsMaximum | enstools/compression/analyzer/analyzer.py:88-93 | each diagnostic's best is at least the value of every combination |
| Analyzer.NoQualityWinnerIff | enstools/compression/analyzer/analyzer.py:89-93 | there is no winner exactly when no value exceeds -1 |
| Analyzer.QualityWinnerHoldsBest | enstools/compression/analyzer/analyzer.py:89-93 | the winner attained some diagnostic's best |
| Analyzer.LastImprovementWins | enstools/compression/analyzer/analyzer.py:89-93 | the winner is the last combination to improve any one diagnostic, not the best in all of them |
| Analyzer.QualityScanFailurePersists | enstools/compression/analyzer/analyzer.py:88-93 | the first combination without a record decides the error |
| Analyzer.SelectOptimalEncodingBasedOnQualityMetrics | enstools/compression/analyzer/analyzer.py:75-98 | the loops compute the quality-based selection |
| Analyzer.SelectedQualityHoldsMaximum | enstools/compression/analyzer/analyzer.py:75-98 | every selected record attains the best value of some diagnostic across combinations |
| Analyzer.QualityBestIsMaximal | enstools/compression/analyzer/analyzer.py:88-93 | each best is the maximum of that diagnostic over all combinations |
| Analyzer.ScanQuality | enstools/compression/analyzer/analyzer.py:86-93 | the loop over combinations computes the quality scan |
| Analyzer.ScanRecord | enstools/compression/analyzer/analyzer.py:89-93 | the inner loop over diagnostics computes one quality step and updates the best-combination dictionary on a new winner |
| Analyzer.OptimalEncodingDispatch | enstools/compression/analyzer/analyzer.py:46-49 | a compression-ratio threshold selects by quality, its absence selects by ratio |
| Analyzer.SelectOptimalEncoding | enstools/compression/analyzer/analyzer.py:34-49 | computes the dispatched selection |
| Analyzer.Names | enstools/compression/analyzer/analyzer.py:110 | the names of the variables, in order |
| Analyzer.AnalyzeVariable | enstools/compression/analyzer/analyzer.py:126-150 | coordinates, variables whose element count is below 10000 and non-float variables (the predicate `ShortCircuit`) are lossless with the lossless record; otherwise an empty threshold set is an AssertionError and a non-empty one runs the data-array analysis |
| Analyzer.FillCombinationOk | enstools/compression/analyzer/analyzer.py:126-150 | `FillCombination` (the variable loop as a fold) succeeds exactly when every variable's analysis does |
| Analyzer.Enter | enstools/compression/analyzer/analyzer.py:149-150 | entering a variable's run succeeds exactly when the run did, and the counter follows the run |
| Analyzer.FillAllOk | enstools/compression/analyzer/analyzer.py:121-154 | `FillAll` (the combination loop as a fold) succeeds exactly when every variable of every combination does |
| Analyzer.Store | enstools/compression/analyzer/analyzer.py:153-154 | storing a filled combination succeeds exactly when filling did, keeping its counter |
| Analyzer.FillCombinationStep | enstools/compression/analyzer/analyzer.py:126-150 | one more variable extends the fill by one entry |
| Analyzer.FillCombinationIgnoresCounter | enstools/compression/analyzer/analyzer.py:126-150 | the entries do not depend on the starting counter |
| Analyzer.FillCombinationKeys | enstools/compression/analyzer/analyzer.py:124-150 | the entries' keys are the variable names, in order |
| Analyzer.EnterAppends | enstools/compression/analyzer/analyzer.py:149-150 | a new variable's entries are appended |
| Analyzer.FillCombinationEntries | enstools/compression/analyzer/analyzer.py:126-150 | each variable's entries are its own run's specification and metrics |
| Analyzer.FillAllKeys | enstools/compression/analyzer/analyzer.py:119-154 | the tables' keys are the combinations' keys, in order |
| Analyzer.StoreAppends | enstools/compression/analyzer/analyzer.py:153-154 | a new combination's tables are appended |
| Analyzer.FillAllEntries | enstools/compression/analyzer/analyzer.py:121-154 | each combination's tables hold exactly its fill |
| Analyzer.FillCombinationFailurePersists | enstools/compression/analyzer/analyzer.py:126-150 | the first failing variable decides the result |
| Analyzer.FillAllFailurePersists | enstools/compression/analyzer/analyzer.py:121-154 | the first failing combination decides the result |
| Analyzer.FindEncodingsOk | enstools/compression/analyzer/analyzer.py:101-156 | `FindEncodings` (the search over all combinations) succeeds exactly when the combinations can be listed and every analysis succeeds |
| Analyzer.CombinationsDistinct | enstools/compression/analyzer/analyzer.py:116 | the combination keys are distinct |
| Analyzer.EveryCombinationEveryVariable | enstools/compression/analyzer/analyzer.py:121-154 | every combination's table has an entry for every variable, holding that variable's analysis |
| Analyzer.ShortCircuitEntries | enstools/compression/analyzer/analyzer.py:127-143 | a coordinate, small or non-float variable is recorded as lossless under every combination |
| Analyzer.FindEncodingsForAllCombinations | enstools/compression/analyzer/analyzer.py:101-156 | the loops compute the search over all combinations and leave the shared counter at its final count |
| Analyzer.AnalyzeCombination | enstools/compression/analyzer/analyzer.py:124-154 | the loop over variables computes one combination's fill |
| Analyzer.AnalyzeVariableMethod | enstools/compression/analyzer/analyzer.py:127-150 | runs one variable's analysis with the shared counter |
| AnalysisOptions.Entries | enstools/compression/analyzer/analysis_options.py:101 | one "key:value" entry per threshold, in order |
| AnalysisOptions.ParseEntry | enstools/compression/analyzer/analysis_options.py:113-114 | an entry not splitting into exactly two parts at ':' is a ValueError; a parsed entry is the first part with its parsed value |
| AnalysisOptions.ParseEntries | enstools/compression/analyzer/analysis_options.py:111-115 | succeeds exactly when every entry parses; the keys are distinct and include every entry's key |
| AnalysisOptions.FromCsvToDictMethod | enstools/compression/analyzer/analysis_options.py:104-115 | the loop computes the CSV parse |
| AnalysisOptions.MissingEntryPersists | enstools/compression/analyzer/analysis_options.py:112-114 | the first malformed entry decides the error |
| AnalysisOptions.EmptyCsvFails | enstools/compression/analyzer/analysis_options.py:112-113 | an empty CSV is a ValueError |
| AnalysisOptions.LaterDuplicateOverwrites | enstools/compression/analyzer/analysis_options.py:114 | a repeated key keeps its first position and takes the later value |
| AnalysisOptions.SplitPair | enstools/compression/analyzer/analysis_options.py:113 | "key:value" splits into the key and the value when neither holds ':' |
| AnalysisOptions.CsvRoundTrip | enstools/compression/analyzer/analysis_options.py:94-115 | writing a threshold dictionary to CSV and parsing it back gives the dictionary, when it is non-empty, keys are distinct and free of ':' and ',' and rendering is inverted by parsing |
| AnalysisOptions.ParsePrefix | enstools/compression/analyzer/analysis_options.py:111-115 | under the same conditions every prefix of the entries parses to the matching prefix of the dictionary |
| AnalysisOptions.Create | enstools/compression/analyzer/analysis_options.py:22-39 | both or neither of the CSV and the dictionary is an AssertionError; otherwise the thresholds come from the one given; compressor and mode are the str() of the arguments |
| AnalysisOptions.Compressors | enstools/compression/analyzer/analysis_options.py:56-67 | "None" and "all" stand for every compressor of the table; otherwise the given one |
| AnalysisOptions.AddModes | enstools/compression/analyzer/analysis_options.py:86-90 | every earlier key is kept; every mode outside the skipped ones gets its key; every new key is a listed mode of the compressor; keys stay distinct |
| AnalysisOptions.CombinationsOf | enstools/compression/analyzer/analysis_options.py:85-91 | succeeds exactly when every compressor is in the table; the keys are distinct |
| AnalysisOptions.CombinationsAreListed | enstools/compression/analyzer/analysis_options.py:85-91 | every combination is a listed compressor/mode pair under its own key |
| AnalysisOptions.CombinationsAreComplete | enstools/compression/analyzer/analysis_options.py:85-91 | every listed mode of every chosen compressor appears, outside the skipped modes |
| AnalysisOptions.SingleCombination | enstools/compression/analyzer/analysis_options.py:79-82 | a single compressor and single mode give that one combination |
| AnalysisOptions.GetCompressorModeCombinations | enstools/compression/analyzer/analysis_options.py:69-91 | the loops compute the combinations |
| LegacyAnalysisOptions.Upper | enstools/compression/analyzer/AnalysisOptions.py:39 | ASCII upper case, letter by letter |
| LegacyAnalysisOptions.CompressorByName | enstools/compression/analyzer/AnalysisOptions.py:39 | a name resolves exactly when its upper case is a member name, to that member; otherwise KeyError |
| LegacyAnalysisOptions.ModeByName | enstools/compression/analyzer/AnalysisOptions.py:46 | the same for modes |
| LegacyAnalysisOptions.LowerCaseCompressorNamesResolve | enstools/compression/analyzer/AnalysisOptions.py:34-46 | the lower-case names "zfp" and "sz" resolve to their compressors |
| LegacyAnalysisOptions.LowerCaseModeNamesResolve | enstools/compression/analyzer/AnalysisOptions.py:34-46 | the lower-case names "pw_rel" and "rate" resolve to their modes |
| LegacyAnalysisOptions.ModesOf | enstools/compression/analyzer/AnalysisOptions.py:97 | a compressor's modes from the table; KeyError when it has none |
| LegacyAnalysisOptions.CompressionModesOfTable | enstools/compression/analyzer/AnalysisOptions.py:7-18 | ZFP has accuracy, rate and precision; SZ has abs, rel and pw_rel; the other members are KeyErrors |
| LegacyAnalysisOptions.ResolveCompressor | enstools/compression/analyzer/AnalysisOptions.py:34-39 | a missing argument is NONE, a member is itself, a string resolves by name |
| LegacyAnalysisOptions.ResolveMode | enstools/compression/analyzer/AnalysisOptions.py:41-46 | a missing argument is ALL, a member is itself, a string resolves by name |
| LegacyAnalysisOptions.Create | enstools/compression/analyzer/AnalysisOptions.py:28-55 | the compressor's error comes first, then the mode's, then the threshold check; a success holds both resolved values and the given thresholds |
| LegacyAnalysisOptions.Compressors | enstools/compression/analyzer/AnalysisOptions.py:68-80 | with libpressio NONE and ALL mean ZFP and SZ; without it only NONE or ZFP are accepted, both meaning ZFP, and anything else is an AssertionError |
| LegacyAnalysisOptions.AddModes | enstools/compression/analyzer/AnalysisOptions.py:97-98 | keeps earlier keys; every new pair is the compressor with one of the modes; keys stay distinct |
| LegacyAnalysisOptions.AddModesCovers | enstools/compression/analyzer/AnalysisOptions.py:97-98 | the mode at every position of the list gets its combination key |
| LegacyAnalysisOptions.AddModesCoversMode | enstools/compression/analyzer/AnalysisOptions.py:97-98 | a given mode among them gets its key |
| LegacyAnalysisOptions.CombinationsOf | enstools/compression/analyzer/AnalysisOptions.py:96-98 | succeeds exactly when every compressor has modes; the keys are distinct |
| LegacyAnalysisOptions.CombinationsOfFails | enstools/compression/analyzer/AnalysisOptions.py:96-97 | a failure names the first compressor without modes |
| LegacyAnalysisOptions.FailurePersists | enstools/compression/analyzer/AnalysisOptions.py:96-98 | the first compressor without modes decides the result |
| LegacyAnalysisOptions.CombinationsListed | enstools/compression/analyzer/AnalysisOptions.py:96-98 | every combination pairs a chosen compressor with one of its modes |
| LegacyAnalysisOptions.CombinationsOfLast | enstools/compression/analyzer/AnalysisOptions.py:96-98 | the combinations of a list are those of its prefix followed by the last compressor's modes |
| LegacyAnalysisOptions.CombinationsComplete | enstools/compression/analyzer/AnalysisOptions.py:96-98 | every mode of every chosen compressor appears |
| LegacyAnalysisOptions.CombinationsFromTable | enstools/compression/analyzer/AnalysisOptions.py:88-99 | with ALL modes every combination pairs a chosen compressor with one of its modes in the table |
| LegacyAnalysisOptions.EveryModeOfBothCompressors | enstools/compression/analyzer/AnalysisOptions.py:71-98 | with libpressio, no compressor given and ALL modes, every mode of both ZFP and SZ is a combination |
| LegacyAnalysisOptions.GetCompressorModeCombinations | enstools/compression/analyzer/AnalysisOptions.py:82-99 | computes the combinations |
| LegacyAnalysisOptions.EnumerateCombinations | enstools/compression/analyzer/AnalysisOptions.py:96-98 | the nested loop computes the combinations of a compressor list |
| Metrics.GetMatchingScores | enstools/compression/metrics.py:20-37 | keeps exactly the registered scores whose parameters include every one of the given arguments, under their names, without duplicates when the registry has none |
| Metrics.MetricValue | enstools/compression/metrics.py:104-110 | fails exactly when the name is not an available metric, with that name in the error |
| Metrics.UnknownMetricFails | enstools/compression/metrics.py:108-109 | an unregistered name fails |
| Metrics.AvailableIff | enstools/compression/metrics.py:43-47 | a registered score is available exactly when it takes (reference, target) |
| Metrics.FromRegistry | enstools/compression/metrics.py:37 | every matching score is an entry of the registry |
| Metrics.FixNanInPlace | enstools/compression/metrics.py:99-102 | the array becomes its NaN-fixed copy |
| Metrics.DataArrayMetrics.ComputeMetric | enstools/compression/metrics.py:104-110 | fails exactly when the name is not an available metric |
| Metrics.DataArrayMetrics.constructor | enstools/compression/metrics.py:59-82 | fixes NaN in both arrays in place and starts with an empty cache |
| Metrics.DataArrayMetrics.FixNan | enstools/compression/metrics.py:94-102 | both arrays become their NaN-fixed copies |
| Metrics.DataArrayMetrics.GetItem | enstools/compression/metrics.py:84-92 | returns the metric; a cached name leaves the cache as it was, a new value is added to it, an error leaves it unchanged |
| Metrics.DatasetVariables | enstools/compression/metrics.py:223-224 | the data variables are exactly the variables that are not coordinates |
| Metrics.CheckConsistency | enstools/compression/metrics.py:233-239 | passes exactly when both datasets have the same variable names and the same coordinate names; otherwise an AssertionError |
| Metrics.SelectVariable | enstools/compression/metrics.py:248-250 | an unknown variable is an AssertionError; a known one gives its metrics |
| DataModel.FixNanValues | enstools/compression/metrics.py:94-102 | no NaN remains; numbers are kept and every NaN becomes the fill value |
| DataModel.FixNanIdempotent | enstools/compression/metrics.py:94-102 | fixing twice is fixing once |
| DataModel.LastTimeStep | enstools/compression/analyzer/analyze_data_array.py:51-52 | a time-dependent grid gives its last step and fails exactly when it has none; another grid is itself |
| DataModel.Max | enstools/compression/analyzer/analyzer_utils.py:54 | an element of the values at least as large as each of them |
| DataModel.Min | enstools/compression/analyzer/analyzer_utils.py:54 | an element at most as large as each of them |
| Strings.Split | enstools/compression/analyzer/analysis_options.py:112 | at least one part, none holding the separator |
| Strings.JoinSplit | enstools/compression/analyzer/analysis_options.py:101-113 | joining the split gives the string back |
| Strings.SplitJoin | enstools/compression/analyzer/analysis_options.py:101-113 | splitting the join of separator-free parts gives the parts back |
| Dicts.Put | enstools/compression/analyzer/analysis_options.py:114 | assignment to a dict: the key is bound to the value, other keys are untouched, a new key goes last |
| SignificantBits.UIntTypeByBitLength | enstools/compression/significant_bits.py:14-26 | 8, 16, 32 and 64 bits have an unsigned type of that width; any other width is NotImplementedError |
| SignificantBits.SingleBit | enstools/compression/significant_bits.py:53-64 | a word of the type's width |
| SignificantBits.SingleBitValue | enstools/compression/significant_bits.py:53-64 | a position inside the word gives 2 to the power of width - 1 - position; a position outside gives 0 |
| SignificantBits.SingleBitMask | enstools/compression/significant_bits.py:53-64 | NotImplementedError exactly for unsupported widths; otherwise exactly the bit at the position is set |
| SignificantBits.LeadingOnes | enstools/compression/significant_bits.py:29-50 | a word of the type's width |
| SignificantBits.LeadingOnesValue | enstools/compression/significant_bits.py:29-50 | n leading ones have the value 2^width - 2^(width - n) |
| SignificantBits.MaskOf | enstools/compression/significant_bits.py:29-50 | NotImplementedError exactly for unsupported widths; otherwise a word of that width |
| SignificantBits.MaskGeneratorExample | enstools/compression/significant_bits.py:29-50 | ten leading ones in 32 bits are 0xFFC00000 |
| SignificantBits.MaskGenerator | enstools/compression/significant_bits.py:29-50 | the shift-and-or loop computes the mask |
| SignificantBits.ApplyMask | enstools/compression/significant_bits.py:67-84 | NotImplementedError exactly for unsupported widths; otherwise each bit of each word is kept exactly where the mask is set |
| SignificantBits.ApplyMaskIdempotent | enstools/compression/significant_bits.py:67-84 | masking twice is masking once |
| SignificantBits.ExtractedBitIsBit | enstools/compression/significant_bits.py:87-120 | the extracted value is the bit at the position, 0 outside the word |
| SignificantBits.ExtractBitAtPosition | enstools/compression/significant_bits.py:87-120 | NotImplementedError exactly for unsupported widths |
| SignificantBits.ExtractBitAtPositionBits | enstools/compression/significant_bits.py:87-120 | one value per word, each that word's bit at the position |
| SignificantBits.PairCount | enstools/compression/significant_bits.py:168-204 | at most the number of pairs counted |
| SignificantBits.BitConditionalCount | enstools/compression/significant_bits.py:168-204 | each of the four counts is at most the length |
| SignificantBits.PairCountsPartition | enstools/compression/significant_bits.py:184-204 | every counted position falls in exactly one of the four cells |
| SignificantBits.CountMatrixSum | enstools/compression/significant_bits.py:184-204 | the four counts add up to the length |
| SignificantBits.Kept | enstools/compression/significant_bits.py:541-548 | at most as long as the prefix examined |
| SignificantBits.KeptIndices | enstools/compression/significant_bits.py:541-548 | one index per kept element, each inside the prefix |
| SignificantBits.FixRepetition | enstools/compression/significant_bits.py:527-548 | no longer than the input |
| SignificantBits.KeptAtIndices | enstools/compression/significant_bits.py:541-548 | each kept element is the input at its index |
| SignificantBits.KeptIndicesIncrease | enstools/compression/significant_bits.py:541-548 | the indices strictly increase |
| SignificantBits.KeptIndexSelect | enstools/compression/significant_bits.py:541-548 | an index is kept exactly when its element differs from the one before it, with the first compared to the last |
| SignificantBits.FixRepetitionIsSubsequence | enstools/compression/significant_bits.py:541-548 | the result is the subsequence of elements that differ from their predecessor |
| SignificantBits.KeptOfConstant | enstools/compression/significant_bits.py:541-548 | a constant prefix keeps nothing |
| SignificantBits.FixRepetitionOfConstant | enstools/compression/significant_bits.py:541-548 | a constant sequence becomes empty |
| SignificantBits.FilterInsignificantValues | enstools/compression/significant_bits.py:299-328 | same length; each value is kept when above the threshold and zeroed otherwise |
| SignificantBits.FilterIdempotent | enstools/compression/significant_bits.py:326 | filtering twice is filtering once |
| SignificantBits.FilterKeepsSignificant | enstools/compression/significant_bits.py:326 | a value above the threshold is kept |
| SignificantBits.ArrayMutualInformation | enstools/compression/significant_bits.py:266-296 | NotImplementedError exactly for unsupported widths; otherwise the filtered information of each bit position's pair counts |
| SignificantBits.FirstMantissaBit | enstools/compression/significant_bits.py:482-490 | defined exactly for 32 and 64 bits, strictly inside the word |
| SignificantBits.Accumulated | enstools/compression/significant_bits.py:513-516 | each entry is the sum of the prefix up to it |
| SignificantBits.RunningSums | enstools/compression/significant_bits.py:513-516 | the loop computes the running sums |
| SignificantBits.FirstAbove | enstools/compression/significant_bits.py:518-521 | the first index above the bound; ValueError exactly when none is |
| SignificantBits.MantissaBits | enstools/compression/significant_bits.py:500-504 | the mantissa's information values |
| SignificantBits.MutualInformationReport | enstools/compression/significant_bits.py:468-524 | NotImplementedError exactly for widths other than 32 and 64; any other failure is ValueError |
| SignificantBits.ReportSignificantBits | enstools/compression/significant_bits.py:513-522 | the significant-bit count is the first position where the running share of information passes the threshold |
| SignificantBits.ReportSucceedsOnPositiveTotal | enstools/compression/significant_bits.py:507-521 | a positive total of significant mantissa information gives a report |
| SignificantBits.ReportFailsWithoutSignificantMantissa | enstools/compression/significant_bits.py:503-521 | no significant mantissa information is a ValueError |
| SignificantBits.MutualInformationReportMethod | enstools/compression/significant_bits.py:468-524 | the loops compute the report |
| Pruner.PruneNumpyArray | enstools/compression/pruner.py:13-46 | NotImplementedError exactly for unsupported widths; otherwise one pruned word per word, of the same width |
| Pruner.PruneWord | enstools/compression/pruner.py:24-43 | a word of the type's width |
| Pruner.PruneNumpyArrayWords | enstools/compression/pruner.py:24-44 | each word is pruned on its own |
| Pruner.PruneWordBits | enstools/compression/pruner.py:24-43 | a bit before the significant-bit count keeps its value, the last kept bit also takes the first discarded bit when rounding to nearest, and every later bit is cleared |
| Pruner.PruneWordIdempotent | enstools/compression/pruner.py:24-43 | pruning twice is pruning once |
| Pruner.PruneWordNoSignificantBits | enstools/compression/pruner.py:40-43 | with no significant bits the word becomes 0 |
| Pruner.PruneWordAllBits | enstools/compression/pruner.py:40-43 | with all bits significant the word is unchanged |
| Pruner.DataArray.constructor | enstools/compression/pruner.py:121-125 | a data array of words of its item width |
| Pruner.PruneDataArray | enstools/compression/pruner.py:121-125 | prunes the values in place; unsupported widths fail and leave them unchanged |
| Pruner.PruneDataset | enstools/compression/pruner.py:107-118 | every targeted variable is pruned and every other one is kept; a failure names a targeted variable of unsupported width |
| Compressor.FixFilename | enstools/compression/compressor.py:38-53 | the loop over the GRIB suffixes computes the fixed name |
| Compressor.FixedFilenameHasNoGrib | enstools/compression/compressor.py:50-53 | the fixed name contains neither ".grib2" nor ".grb" |
| Compressor.FixedFilenameUnchanged | enstools/compression/compressor.py:50-53 | a name without either suffix is unchanged |
| Compressor.ReplaceAbsent | enstools/compression/compressor.py:52 | replacing an absent pattern changes nothing |
| Compressor.ReplaceRemoves | enstools/compression/compressor.py:52 | no occurrence of the pattern remains after replacing it by ".nc" |
| Compressor.ReplaceKeepsAbsence | enstools/compression/compressor.py:50-53 | replacing by ".nc" creates no dot pattern that was absent |
| Compressor.Filter | enstools/compression/compressor.py:33-34 | keeps exactly the elements the predicate accepts |
| Compressor.DropVariables | enstools/compression/compressor.py:26-35 | exactly the coordinates and the variables to keep remain |
| Compressor.SplitExt | enstools/compression/compressor.py:229-230 | name and extension concatenate to the input; the extension is empty or a dot followed by no other dot |
| Compressor.DestinationPath | enstools/compression/compressor.py:210-233 | the destination is the file's name inside the folder: unchanged for NetCDF, otherwise its stem with ".nc" |
| Compressor.CheckTransfer | enstools/compression/compressor.py:84-98 | no files is an AssertionError; one file goes to the output, or into it when it is a folder; several files need a writable folder, and each failure has its own AssertionError |
| SizeMetrics.UnitIndex | enstools/compression/size_metrics.py:35 | the unit index brackets the size between two powers of 1024 |
| SizeMetrics.UnitIndexUnique | enstools/compression/size_metrics.py:35 | only one index brackets a size, so the index is the floor of the logarithm |
| SizeMetrics.Scaled | enstools/compression/size_metrics.py:36-37 | the shown number is at least 1 and below 1024 |
| SizeMetrics.ConvertSize | enstools/compression/size_metrics.py:22-38 | 0 is "0B"; a negative size is a ValueError; a positive size succeeds exactly below 1024^9 and is otherwise an IndexError; a success is the scaled number and the unit whose power brackets the size |
| SizeMetrics.ConvertSizeBytes | enstools/compression/size_metrics.py:32-38 | sizes from 1 to 1023 are shown in bytes |
| SizeMetrics.ConvertSizeKilobyte | enstools/compression/size_metrics.py:34-38 | 1024 bytes are one KB |
| SizeMetrics.ReadableSize | enstools/compression/size_metrics.py:41-51 | a file size fails exactly at 1024^9 or more, with IndexError |
| SizeMetrics.CompressionRatio | enstools/compression/size_metrics.py:54-67 | ZeroDivisionError exactly for an empty compressed file; otherwise the non-negative ratio times the compressed size is the original size |
| SizeMetrics.CompressionRatioAboveOne | enstools/compression/size_metrics.py:65-67 | the ratio exceeds 1 exactly when the compressed file is smaller |

## Left out

- Machine words are sequences of booleans, most significant bit first, not fixed-width integers.
  The bit operations are exact. The numpy behaviour of shifts by out-of-range amounts is modelled
  as giving 0.
- Floating-point arithmetic is modelled as exact reals. This covers the metric values, the
  bisection midpoints, the mutual-information sums and the size division. Rounding is not
  modelled, nor NaN comparisons outside the explicit NaN fix.
- SignificantBits.FixRepetition: compares elements with `==` on the modelled values. The code's
  NaN != NaN is not modelled.
- SignificantBits.ArrayMutualInformation: the information of one bit position (entropy from the
  count matrix) and the significance threshold (a binomial quantile from scipy) are parameters,
  not computed.
- SizeMetrics.UnitIndex: uses the exact integer floor of the logarithm. The code's
  floating-point `math.log` can be off by one at exact powers of 1024. The rounding and
  formatting of the shown number are the `render` parameter. Sizes of about 2^1024 bytes and more
  (beyond the largest double) make the code's float conversion in `math.pow` or in the division
  raise OverflowError before the unit lookup; the model reports IndexError for every size from
  1024^9 on.
- Compressor emulation (the ZFP, SZ and filter emulators), metric bodies, libpressio and HDF5
  filters are outside code. They appear only as uninterpreted functions of the environment.
- File I/O is left out: reading and writing datasets, `os.path.isdir`, `os.access`, file sizes.
  These enter as parameters. `transfer_file`, the dask-parallel compression and the CLI are not
  part of this model.
- LegacyAnalysisOptions.Naming: the string conversion and equality of the encoding package's
  compressor and mode enums (outside this model) is one uninterpreted rendering. It stands for the
  mode comparisons of `get_parameter_range`, the `"c:m"` combination keys and the joined encoding
  specification alike.
- Analyzer.AnalyzeVariable: the dataset-level inputs are parameters of the variable: its element
  count (compared with 10000), dtype and coordinate test. The xarray computations behind them are not modelled.
- AnalysisOptions.Create: the `AnalysisParameters.__post_init__` type check cannot fire,
  because both fields are converted with `str()`. It is therefore not modelled.
- AnalyzerUtils.DiscreteBisection: the analysis (`SearchWith`, `BisectionMethod`) uses the search as written. The corrected
  search is proved on its own, under Findings.
- LegacyAnalysisOptions.Upper: maps only the ASCII letters a-z. Python's `str.upper()` also maps
  non-ASCII case (`"ſz".upper() == "SZ"`), so such a name resolves in the code but is a KeyError
  in the model. Non-ASCII case mapping is not modelled.
- AnalyzerUtils.ContinuousIsSafe: proved for the direct relation only. With an inverse relation
  the fallback is still the tighter end `end`, which need not meet the thresholds;
  `InverseMayReturnUnsafeEnd` exhibits such a run. No safety property is promised for it.

## Findings

| source | as written | input that shows it | evidently intended | confidence | as-written member | corrected member |
|---|---|---|---|---|---|---|
| enstools/compression/analyzer/analyzer_utils.py:282-286 | when the evaluated middle meets every threshold, the discrete search keeps `values[:mid]`, which excludes that middle | the list [2, 3] in the direct direction, where only 3 meets the thresholds: the search evaluates 3, keeps [2] and returns 2, which fails them | keep `values[:mid + 1]` so that a satisfying middle stays a candidate; a safe tightest end then yields a safe result | not executed | AnalyzerUtils.DiscreteDropsSatisfyingMiddle | AnalyzerUtils.CorrectedDiscreteIsSafe |
