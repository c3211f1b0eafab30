# Valora pipeline and chat page, modelled in Dafny

Valora turns company fundamentals and market data into the material a chat
assistant talks about. This project models the core of that pipeline and
the chat page that drives it:

- **Ratio ingestion** (`ratio_ingestion.dfy`, module `RatioIngestion`): the
  fifteen required columns are checked. Infinities and NaN become the
  sentinel -9999. The thirteen ratio columns are standardised on their
  non-sentinel cells, and the sentinel is put back where it was. The older
  variant (`ratio_legacy.dfy`, module `LegacyRatios`) drops incomplete rows
  instead.
- **Anomaly detection** (`anomaly_detector.dfy`): rows that hold the sentinel
  are flagged outright. The remaining complete rows are scored by the
  scaler-plus-isolation-forest model, and the 1/-1 verdicts are mapped to
  0/1 labels.
- **Technical features** (`technical_features.dfy`): OBV, EMA, MACD and its
  signal line, stochastic %K/%D, Bollinger bands, RSI, returns and
  volatility. The file also covers `add_technical_features`,
  `detect_anomalies` and `engineer_features_for_stock` of the historical
  pipeline.
- **Signal back-tests** (`backtests.dfy`, `binomial.dfy`): the six index
  loops that count signals and successes. The exact one-sided binomial
  p-value is rounded to six places with ties to even, and
  `run_all_tests` gathers the six results.
- **Indicator fetching** (`indicator_fetch.dfy`): the eight API requests, the
  alignment of the twelve series on the shortest one, the per-ticker retry
  loop with its doubling back-off, and the rounds that retry failed
  tickers.
- **Company store** (`company_store.dfy`): the inner join of the ratio and
  anomaly tables with the `_anomaly` suffix, and the per-ticker records.
- **Prompt inputs** (`prompt_inputs.dfy`): what each prompt generator
  selects. The ratio prompt takes a ticker's three newest periods. The
  anomaly prompt lists the flagged rows and their present metrics. The
  hypothesis prompt keeps the tests that have a p-value. The comparison
  prompt takes the newest row of each of two tickers.
- **Chat page** (`chatbot.dfy`): the `ChatState` class. It holds the
  message list, the input text and the started flag. It covers
  `handleKeyDown`, the keyword classifier of the prompt type, JavaScript's
  `trim`, and `handleNewChat`.

`frames.dfy` holds the shared table model. A `Frame` is a list of named
columns of `Cell`s. A cell is a float (finite, NaN or ±infinity) or text.
`stats.dfy` holds the StandardScaler arithmetic over exact reals.

External effects become parameters:
- Files and loaders become `Frame`/`Option` arguments.
- HTTP responses become a sequence of `Response` values.
- Attempt outcomes become a function from (ticker position, attempt) to an
  `Attempt`.
- The backend's chat reply becomes an `Option<string>`.
- The isolation forest becomes a `Forest` function from the feature
  matrix to verdicts.
- The square root becomes a `Root` function constrained only where a
  lemma needs it.

The ratio stage checks 13 ratio columns, 15 with the two identifiers
(`ratio_analysis.py:11-18`). The company store joins the ratio and anomaly
tables with an inner `pd.merge` on ticker and period
(`company_data_store.py:35`).

## Model

| member | source | states |
|---|---|---|
| RatioIngestion.RequiredColumnsDistinct | backend/services/data_ingestion/ratio_analysis.py:11-18 | the required list has 15 distinct names: the two identifiers, then 13 distinct ratio names |
| RatioIngestion.MissingColumnsReported | backend/services/data_ingestion/ratio_analysis.py:20-22 | the stage fails with `MissingColumns` exactly when some required column is absent, and the list names exactly the absent ones |
| RatioIngestion.MissingColumnsInOrder | backend/services/data_ingestion/ratio_analysis.py:20-22 | the reported names are the required names at the absent positions, in declared order, each once |
| Frames.MissingAtPositions | backend/services/data_ingestion/ratio_analysis.py:20 | the missing names are the required list at exactly its absent positions, in increasing position order |
| Frames.MissingPrefix | backend/services/data_ingestion/ratio_analysis.py:20 | the same for every prefix of the required list |
| Frames.FindMissing | backend/services/data_ingestion/ratio_analysis.py:20 | the loop collects the required names the table lacks, in order |
| RatioIngestion.CleanToSentinel | backend/services/data_ingestion/ratio_analysis.py:26-27 | a cell becomes -9999 exactly when it is NaN, ±inf or already -9999; no NaN or infinity survives cleaning |
| RatioIngestion.CleanInPlace | backend/services/data_ingestion/ratio_analysis.py:26-27 | every cell of the buffer is replaced by its cleaned value |
| RatioIngestion.CleanedCopy | backend/services/data_ingestion/ratio_analysis.py:25-27 | a fresh n×15 buffer whose columns are the cleaned required columns |
| RatioIngestion.ValidPositions | backend/services/data_ingestion/ratio_analysis.py:33 | exactly the rows whose cell is not the sentinel, increasing |
| RatioIngestion.ColumnFit | backend/services/data_ingestion/ratio_analysis.py:35-37 | a column is fitted exactly when it has an unmasked cell, and its scale is then positive |
| RatioIngestion.ScaledColumn | backend/services/data_ingestion/ratio_analysis.py:37-39 | masked cells stay -9999; every other cell is its z-score under the column's fit |
| RatioIngestion.ScaledColumnStandardises | backend/services/data_ingestion/ratio_analysis.py:35-39 | the cells scaled back at the unmasked positions are the z-scores of the fitted values: they sum to 0 and, with an exact root, have unit variance |
| RatioIngestion.RatioText | backend/services/data_ingestion/ratio_analysis.py:37 | reports exactly whether some ratio column holds text, which the scaler refuses |
| RatioIngestion.ScaleColumnInPlace | backend/services/data_ingestion/ratio_analysis.py:39 | column j of the buffer becomes its masked scaling; other columns are unchanged |
| RatioIngestion.ScaleInPlace | backend/services/data_ingestion/ratio_analysis.py:39 | every column becomes the masked scaling of its old contents |
| RatioIngestion.ScaledRatioColumns | backend/services/data_ingestion/ratio_analysis.py:34-39 | the thirteen ratio columns, each standardised with the mask |
| RatioIngestion.GenerateRatios | backend/services/data_ingestion/ratio_analysis.py:7-47 | the imperative stage returns exactly the specified result, error cases included |
| RatioIngestion.OutputShape | backend/services/data_ingestion/ratio_analysis.py:41-45 | a result has the required columns, ticker and period first, and one row per input row |
| RatioIngestion.OutputColumns | backend/services/data_ingestion/ratio_analysis.py:25-45 | output column j is the cleaned identifier (j < 2) or the masked scaling of the cleaned ratio column |
| RatioIngestion.IdentifiersAligned | backend/services/data_ingestion/ratio_analysis.py:44-45 | row i of the result carries row i's cleaned ticker and period |
| RatioIngestion.SentinelPreserved | backend/services/data_ingestion/ratio_analysis.py:33-39 | a ratio cell that cleans to -9999 is -9999 in the output |
| RatioIngestion.UnmaskedCellIsZScore | backend/services/data_ingestion/ratio_analysis.py:35-39 | any other finite ratio cell is its z-score over the column's non-sentinel cells |
| RatioIngestion.EmptyColumnAllSentinel | backend/services/data_ingestion/ratio_analysis.py:37-39 | a ratio column without a usable cell comes out all -9999 |
| Stats.FitOf | backend/services/data_ingestion/ratio_analysis.py:35-37 | the fitted mean is the population mean and the scale is positive, so every z-score is defined |
| Stats.ZScoresHaveZeroMean | backend/services/data_ingestion/ratio_analysis.py:37 | the z-scores of the fitted values sum to zero |
| Stats.ZScoresHaveUnitVariance | backend/services/data_ingestion/ratio_analysis.py:37 | with an exact square root, the z-scores have population variance 1 |
| Stats.ConstantColumnScalesToZero | backend/services/ratio_analysis.py:16-17 | a constant column scales to all zeros |
| LegacyRatios.CompleteRows | backend/services/ratio_analysis.py:15 | the kept row positions are in range |
| LegacyRatios.Legacy | backend/services/ratio_analysis.py:4-20 | a result is a valid table of 15 columns with at least one row |
| LegacyRatios.LegacyMissingColumns | backend/services/ratio_analysis.py:6-15 | the older stage raises `KeyError` exactly when a required column is absent, naming the absent ones |
| LegacyRatios.SurvivingRows | backend/services/ratio_analysis.py:15 | exactly the rows with no NaN among the fifteen cells survive, in order, and at least one does |
| LegacyRatios.SurvivorsNumeric | backend/services/ratio_analysis.py:15-17 | once text and infinities are ruled out, every surviving ratio cell is a finite number |
| LegacyRatios.AssembleLegacy | backend/services/ratio_analysis.py:18-19 | the thirteen ratios come first, then ticker and period, all of equal height |
| LegacyRatios.LegacyColumnOrder | backend/services/ratio_analysis.py:18-19 | a result's names are the 13 ratio names then ticker and period |
| LegacyRatios.LegacyIdentifiers | backend/services/ratio_analysis.py:19 | output row k carries the identifiers of the k-th surviving input row |
| LegacyRatios.LegacyZScores | backend/services/ratio_analysis.py:16-18 | every surviving ratio value, the sentinel included, is its z-score over the survivors |
| LegacyRatios.LegacyColumnsCentred | backend/services/ratio_analysis.py:16-18 | every output ratio column is numeric and sums to zero |
| AnomalyDetector.Label | backend/services/feature_engineering/anomaly_detector.py:22 | an inlier maps to 0 and an outlier to 1 |
| AnomalyDetector.ForcedLabels | backend/services/feature_engineering/anomaly_detector.py:9-11 | row i is 1 exactly when some feature holds -9999, else 0 |
| AnomalyDetector.Stage1Column | backend/services/feature_engineering/anomaly_detector.py:8-11 | in the labelled copy the `anomaly` column holds the forced labels and every other column is the input's |
| AnomalyDetector.ScoredRows | backend/services/feature_engineering/anomaly_detector.py:14-16 | exactly the unforced rows with every feature present, increasing |
| AnomalyDetector.ScoringError | backend/services/feature_engineering/anomaly_detector.py:17-19 | scoring can raise only when some row is left to score |
| AnomalyDetector.WriteBack | backend/services/feature_engineering/anomaly_detector.py:23 | the k-th scored row receives the k-th label; every other row keeps its value |
| AnomalyDetector.RowHasSentinel | backend/services/feature_engineering/anomaly_detector.py:9 | the feature loop says whether the row holds -9999 in some feature |
| AnomalyDetector.ForcedColumn | backend/services/feature_engineering/anomaly_detector.py:10-11 | a fresh array holding the forced labels |
| AnomalyDetector.ValidIndex | backend/services/feature_engineering/anomaly_detector.py:14-16 | the loop collects the rows still labelled 0 with all features present |
| AnomalyDetector.WriteLabels | backend/services/feature_engineering/anomaly_detector.py:23 | the array becomes the write-back of the labels at the scored rows |
| AnomalyDetector.DetectAnomalies | backend/services/feature_engineering/anomaly_detector.py:7-24 | the imperative detector returns exactly the specified result |
| AnomalyDetector.LabelsAreBinary | backend/services/feature_engineering/anomaly_detector.py:7-24 | on success rows keep their number and every label is 0 or 1 |
| AnomalyDetector.SentinelRowsFlagged | backend/services/feature_engineering/anomaly_detector.py:9-11 | a row with -9999 in a feature is never scored and is labelled 1 |
| AnomalyDetector.ScoredRowsTakeVerdict | backend/services/feature_engineering/anomaly_detector.py:20-23 | the k-th scored row takes the model's k-th verdict, mapped |
| AnomalyDetector.IncompleteRowsDefault | backend/services/feature_engineering/anomaly_detector.py:15-16 | an unforced row with a missing feature is dropped and keeps label 0 |
| AnomalyDetector.NothingToScore | backend/services/feature_engineering/anomaly_detector.py:17 | with no row to score the model is not consulted and the forced labels are final |
| AnomalyDetector.OtherColumnsUnchanged | backend/services/feature_engineering/anomaly_detector.py:8-23 | only the `anomaly` column is written, appended when absent |
| AnomalyDetector.LabelsDependOnlyOnFeatures | backend/services/feature_engineering/anomaly_detector.py:9-23 | two tables equal on the features get the same outcome and the same labels |
| TechnicalFeatures.Obv | backend/services/feature_engineering/historical_stock_data_feature_engineering.py:43-52 | one value per row starting at 0; a table without rows fails |
| TechnicalFeatures.ObvRecurrence | backend/services/feature_engineering/historical_stock_data_feature_engineering.py:45-51 | each value is the previous one plus, minus or without the row's volume as the close rose, fell or stayed |
| TechnicalFeatures.ObvFlat | backend/services/feature_engineering/historical_stock_data_feature_engineering.py:50-51 | over unchanged closes the OBV is constant |
| TechnicalFeatures.ObvRising | backend/services/feature_engineering/historical_stock_data_feature_engineering.py:46-47 | over rising closes with positive volume the OBV strictly increases |
| TechnicalFeatures.ObvIntegral | backend/services/feature_engineering/historical_stock_data_feature_engineering.py:43-52 | whole-number volumes give whole-number OBV values |
| TechnicalFeatures.ObvReadsMovedVolumes | backend/services/feature_engineering/historical_stock_data_feature_engineering.py:46-51 | volumes of rows whose close did not move do not matter |
| TechnicalFeatures.ComputeObv | backend/services/feature_engineering/historical_stock_data_feature_engineering.py:43-52 | the appending loop computes exactly `Obv` |
| TechnicalFeatures.Alpha | backend/services/feature_engineering/historical_stock_data_feature_engineering.py:19-20 | the smoothing factor lies in (0, 1] |
| TechnicalFeatures.EmaRecurrence | backend/services/feature_engineering/historical_stock_data_feature_engineering.py:19-20 | the first value is the first price; each later one is (1-α)·previous + α·price |
| TechnicalFeatures.EmaBounded | backend/services/feature_engineering/historical_stock_data_feature_engineering.py:19-20 | the average stays within any bounds of the prices |
| TechnicalFeatures.EmaOfConstant | backend/services/feature_engineering/historical_stock_data_feature_engineering.py:19-20 | a constant series averages to itself |
| TechnicalFeatures.Macd | backend/services/feature_engineering/historical_stock_data_feature_engineering.py:22-25 | each value is the 12-span EMA minus the 26-span EMA |
| TechnicalFeatures.MacdOfConstant | backend/services/feature_engineering/historical_stock_data_feature_engineering.py:22-27 | a flat price gives a zero MACD line and signal line |
| TechnicalFeatures.RollingMean | backend/services/feature_engineering/historical_stock_data_feature_engineering.py:58-60 | NaN exactly before the window fills, then the window mean |
| TechnicalFeatures.RollingStd | backend/services/feature_engineering/historical_stock_data_feature_engineering.py:38 | NaN exactly before the window fills, then the window's sample deviation |
| TechnicalFeatures.StochasticWarmUp | backend/services/feature_engineering/historical_stock_data_feature_engineering.py:29-34 | %K is NaN for the first 13 rows and %D for the first 15 |
| TechnicalFeatures.StochasticBounds | backend/services/feature_engineering/historical_stock_data_feature_engineering.py:29-34 | with closes inside their ranges, %K and %D are percentages or NaN, and %K is NaN exactly in warm-up or on a flat range |
| TechnicalFeatures.BollingerOrdered | backend/services/feature_engineering/historical_stock_data_feature_engineering.py:36-41 | the bands are NaN exactly for 19 rows, then lower ≤ mean ≤ upper with width four deviations |
| TechnicalFeatures.RsiBounds | backend/services/feature_engineering/historical_stock_data_feature_engineering.py:9-17 | NaN for 14 rows, else in [0, 100], and 100 exactly when there are gains but no losses |
| TechnicalFeatures.VolatilityWarmUp | backend/services/feature_engineering/historical_stock_data_feature_engineering.py:56-57 | NaN for the first 21 rows, and a number after them when no close is zero |
| TechnicalFeatures.FeatureNamesDistinct | backend/services/feature_engineering/historical_stock_data_feature_engineering.py:56-67 | the fifteen assigned names are distinct |
| TechnicalFeatures.SetColumnsNames | backend/services/feature_engineering/historical_stock_data_feature_engineering.py:56-67 | assigning columns one by one appends the new names in order |
| TechnicalFeatures.FeaturesFailure | backend/services/feature_engineering/historical_stock_data_feature_engineering.py:54-68 | the feature step fails exactly when a price column is absent, the table is empty, or the volume is absent and some close moved |
| TechnicalFeatures.FeaturesOnlyAdded | backend/services/feature_engineering/historical_stock_data_feature_engineering.py:54-68 | on success rows and untouched columns are kept and each feature column holds its indicator |
| TechnicalFeatures.AddTechnicalFeatures | backend/services/feature_engineering/historical_stock_data_feature_engineering.py:54-68 | the column-by-column method returns exactly `TechnicalFeatures` |
| TechnicalFeatures.Filled | backend/services/feature_engineering/historical_stock_data_feature_engineering.py:72 | `fillna(0)` removes NaN and keeps every other cell |
| TechnicalFeatures.MapAfterPredict | backend/services/feature_engineering/historical_stock_data_feature_engineering.py:74-75 | writing the prediction then mapping it gives 1 exactly for an outlier |
| TechnicalFeatures.HistoricalLabels | backend/services/feature_engineering/historical_stock_data_feature_engineering.py:70-76 | on success every row gets the mapped verdict, NaN features are scored as 0, other columns are kept |
| TechnicalFeatures.DetectAnomalies | backend/services/feature_engineering/historical_stock_data_feature_engineering.py:70-76 | the method returns exactly `HistoricalDetection` |
| TechnicalFeatures.ScoredColumns | backend/services/feature_engineering/historical_stock_data_feature_engineering.py:80 | the five scored features are the returns, volatility, RSI, MACD and %K columns |
| TechnicalFeatures.EngineerSucceeds | backend/services/feature_engineering/historical_stock_data_feature_engineering.py:78-82 | with volumes and sane prices the whole stage succeeds and labels every row 0 or 1 |
| TechnicalFeatures.DetectionSucceeds | backend/services/feature_engineering/historical_stock_data_feature_engineering.py:70-76 | a numeric filled matrix is always scored, with 0/1 labels |
| Backtests.Hi | backend/services/feature_engineering/enhanced_hypothesis_testing.py:14 | the index range is empty, or ends exactly where the look-ahead reaches the last row |
| Backtests.TestRsiEffect | backend/services/feature_engineering/enhanced_hypothesis_testing.py:12-19 | the loop's counts are the numbers of RSI signals and of successes |
| Backtests.TestMacdCross | backend/services/feature_engineering/enhanced_hypothesis_testing.py:22-29 | the loop's counts are the numbers of MACD crossings and of successes two rows later |
| Backtests.TestEmaCross | backend/services/feature_engineering/enhanced_hypothesis_testing.py:32-41 | the loop's counts are the numbers of golden crosses and of successes seven rows later |
| Backtests.TestStoch | backend/services/feature_engineering/enhanced_hypothesis_testing.py:44-52 | the loop's counts are the numbers of %K crossings below 20 and of successes |
| Backtests.TestBands | backend/services/feature_engineering/enhanced_hypothesis_testing.py:55-62 | the loop's counts are the numbers of closes under the lower band and of successes |
| Backtests.TestObvDivergence | backend/services/feature_engineering/enhanced_hypothesis_testing.py:65-74 | the loop's counts are the numbers of OBV divergences and of successes three rows after the window |
| Backtests.SignalsCountIndices | backend/services/feature_engineering/enhanced_hypothesis_testing.py:13-18 | the signal count is the number of distinct signalling indices |
| Backtests.CountsBounded | backend/services/feature_engineering/enhanced_hypothesis_testing.py:13-18 | successes ≤ signals ≤ indices looked at |
| Backtests.NoSignals | backend/services/feature_engineering/enhanced_hypothesis_testing.py:13-18 | the count is 0 exactly when no index of the loop signals |
| Backtests.GoldenCross | backend/services/feature_engineering/enhanced_hypothesis_testing.py:35-37 | the sign test on the EMA difference is the crossing of the 50-bar EMA above the 200-bar EMA |
| Backtests.ObvCheck | backend/services/feature_engineering/enhanced_hypothesis_testing.py:68-73 | one index signals exactly when the OBV trend exceeds 2% while the price trend stays at most 1%, and succeeds when the close three rows after the window is higher |
| Backtests.FilledFrom | backend/services/feature_engineering/enhanced_hypothesis_testing.py:68-69 | the forward fill behind `pct_change` is NaN only over an all-NaN prefix and otherwise repeats an earlier cell |
| Backtests.FlatTrend | backend/services/feature_engineering/enhanced_hypothesis_testing.py:68-69 | a window of one nonzero value has a zero `pct_change().sum()` |
| Backtests.MissingTrend | backend/services/feature_engineering/enhanced_hypothesis_testing.py:68-69 | an all-NaN window sums to zero |
| Backtests.FlatObvNoDivergence | backend/services/feature_engineering/enhanced_hypothesis_testing.py:68-70 | a flat OBV never signals a divergence |
| Backtests.Summary | backend/services/feature_engineering/enhanced_hypothesis_testing.py:77-85 | the counts are kept; no p exactly when there are no signals; otherwise p is a probability |
| Backtests.BuildResult | backend/services/feature_engineering/enhanced_hypothesis_testing.py:77-85 | a one-key dictionary under the test's name |
| Backtests.NoSuccessesNoEvidence | backend/services/feature_engineering/enhanced_hypothesis_testing.py:80-84 | signals never followed by a rise give p = 1 |
| Backtests.MoreSuccessesSmallerP | backend/services/feature_engineering/enhanced_hypothesis_testing.py:80-84 | for equal signals, more successes never raise the p-value |
| Backtests.Report | backend/services/feature_engineering/enhanced_hypothesis_testing.py:88-97 | a test's report counts distinct signalling indices, bounded by the loop's range |
| Backtests.RunAllTests | backend/services/feature_engineering/enhanced_hypothesis_testing.py:88-97 | the result maps exactly the six test names to their reports |
| Binomial.RowTotal | backend/services/feature_engineering/enhanced_hypothesis_testing.py:80 | a row of binomial coefficients sums to 2^n |
| Binomial.TailSplit | backend/services/feature_engineering/enhanced_hypothesis_testing.py:80 | outcomes below k and from k on make up all 2^n |
| Binomial.PGreater | backend/services/feature_engineering/enhanced_hypothesis_testing.py:80 | the one-sided p-value is a probability |
| Binomial.PGreaterOfZero | backend/services/feature_engineering/enhanced_hypothesis_testing.py:80 | at least zero successes has probability 1 |
| Binomial.PGreaterOfAll | backend/services/feature_engineering/enhanced_hypothesis_testing.py:80 | all n successes has probability 1/2^n |
| Binomial.PGreaterMonotone | backend/services/feature_engineering/enhanced_hypothesis_testing.py:80 | more successes are never more likely |
| Binomial.RoundingError | backend/services/feature_engineering/enhanced_hypothesis_testing.py:84 | rounding to six places moves a value by at most 5·10^-7 |
| Binomial.RoundedProbability | backend/services/feature_engineering/enhanced_hypothesis_testing.py:84 | a rounded probability is a probability |
| Binomial.RoundIdempotent | backend/services/feature_engineering/enhanced_hypothesis_testing.py:84 | rounding twice is rounding once |
| IndicatorFetch.ExtractList | backend/services/feature_engineering/taapi_hypothesis_test_data.py:78-89 | the list under the key when there is one, and nothing otherwise |
| IndicatorFetch.Failure | backend/services/feature_engineering/taapi_hypothesis_test_data.py:55-71 | none exactly when all eight requests answered; else the first failed one, with every earlier one answered |
| IndicatorFetch.Series | backend/services/feature_engineering/taapi_hypothesis_test_data.py:91-102 | twelve series are extracted |
| IndicatorFetch.Shortest | backend/services/feature_engineering/taapi_hypothesis_test_data.py:105-109 | the row count is the least of 90 and every series length |
| IndicatorFetch.MinLength | backend/services/feature_engineering/taapi_hypothesis_test_data.py:105-109 | the lowering loop computes `Shortest` |
| IndicatorFetch.RowAt | backend/services/feature_engineering/taapi_hypothesis_test_data.py:118-137 | a row's timestamp is always null |
| IndicatorFetch.BuildRows | backend/services/feature_engineering/taapi_hypothesis_test_data.py:118-140 | one row per index below the count, each built from element i of every series |
| IndicatorFetch.FetchAll | backend/services/feature_engineering/taapi_hypothesis_test_data.py:50-153 | re-raises only a first-failure 401; gives a table exactly when all answered and no series is empty, with 1..90 aligned rows |
| IndicatorFetch.FetchAllIndicators | backend/services/feature_engineering/taapi_hypothesis_test_data.py:50-153 | the sequential method returns exactly `FetchAll` |
| IndicatorFetch.AttemptOf | backend/services/feature_engineering/taapi_hypothesis_test_data.py:176-216 | an HTTP error exactly for a raised fetch; a fetched table exactly for a non-empty one |
| IndicatorFetch.FateAt | backend/services/feature_engineering/taapi_hypothesis_test_data.py:173-216 | a permanent error ends in a hard failure, a table ends the loop, anything else moves to the next attempt |
| IndicatorFetch.RetriableExhausts | backend/services/feature_engineering/taapi_hypothesis_test_data.py:185-198 | retriable failures on every attempt use up all attempts |
| IndicatorFetch.TryTicker | backend/services/feature_engineering/taapi_hypothesis_test_data.py:169-216 | the loop ends in the ticker's fate; it sleeps once after each attempt before the deciding one, the j-th wait being the j-th delay; all attempts are used exactly when exhausted |
| IndicatorFetch.DecidedAt | backend/services/feature_engineering/taapi_hypothesis_test_data.py:173-216 | the deciding attempt is the first that fetches a table or meets a permanent HTTP error; it gives the fate (saved, save failed, hard), and with no such attempt the ticker is exhausted |
| IndicatorFetch.Doubling | backend/services/feature_engineering/taapi_hypothesis_test_data.py:191 | each delay doubles the previous one |
| IndicatorFetch.RunForTickers | backend/services/feature_engineering/taapi_hypothesis_test_data.py:163-223 | the two returned lists are those recorded ticker by ticker |
| IndicatorFetch.HardFailures | backend/services/feature_engineering/taapi_hypothesis_test_data.py:181-184 | a ticker is a hard failure exactly when one of its runs met a permanent HTTP error |
| IndicatorFetch.FailedTickers | backend/services/feature_engineering/taapi_hypothesis_test_data.py:208-219 | a ticker is listed failed exactly when a run failed to save, or ran out while not yet a hard failure |
| IndicatorFetch.SaveFailureListedTwice | backend/services/feature_engineering/taapi_hypothesis_test_data.py:208-219 | a ticker whose save fails is listed twice |
| IndicatorFetch.ListedAreGiven | backend/services/feature_engineering/taapi_hypothesis_test_data.py:163-223 | only given tickers are listed |
| IndicatorFetch.Retryable | backend/services/feature_engineering/taapi_hypothesis_test_data.py:250 | exactly the failed tickers that are not hard failures |
| IndicatorFetch.RetryUntilSuccess | backend/services/feature_engineering/taapi_hypothesis_test_data.py:242-259 | the loop ends in the outcome of the round-by-round definition; at most max rounds; pending and inactive tickers come from the input and never overlap; pending ones remain only after every round |
| IndicatorFetch.TraceLinks | backend/services/feature_engineering/taapi_hypothesis_test_data.py:242-250 | the first round runs on the given tickers, each later one on what the round before left retryable; no round runs on an empty list or past max rounds |
| IndicatorFetch.LastRound | backend/services/feature_engineering/taapi_hypothesis_test_data.py:242-257 | the tickers left pending are the retryable failures of the last round run; the counter counts the rounds run, less the one that left nothing pending |
| IndicatorFetch.InactiveAreHard | backend/services/feature_engineering/taapi_hypothesis_test_data.py:248-249 | a ticker is inactive exactly when it met a permanent HTTP error in one of the rounds run |
| IndicatorFetch.HardInTraceCons | backend/services/feature_engineering/taapi_hypothesis_test_data.py:242-249 | a hard failure in a sequence of rounds is one in its first round or in the rounds after it |
| CompanyStore.Matches | backend/services/company_data_store.py:35 | exactly the anomaly rows whose ticker and period equal the ratio row's |
| CompanyStore.JoinKeepsMatches | backend/services/company_data_store.py:35 | the join holds a pair of rows exactly when their keys agree |
| CompanyStore.RowPairsAreMatches | backend/services/company_data_store.py:35 | one ratio row contributes a pair for exactly each anomaly row with the same ticker and period |
| CompanyStore.SuffixOnClash | backend/services/company_data_store.py:35 | an anomaly column shared with the ratio table gets the `_anomaly` suffix; others keep their name |
| CompanyStore.Merge | backend/services/company_data_store.py:35 | fails exactly on a missing key or clashing names; otherwise the ratio columns then the suffixed anomaly columns, one row per matching pair |
| CompanyStore.Unique | backend/services/company_data_store.py:37 | distinct, with the same members as the column |
| CompanyStore.UniqueCells | backend/services/company_data_store.py:37 | the distinct tickers are exactly the tickers found at the join's rows |
| CompanyStore.RecordAt | backend/services/company_data_store.py:38 | a record maps each column name to the row's cell |
| CompanyStore.Financials | backend/services/company_data_store.py:38 | the records of the rows whose ticker equals the given one; none for NaN |
| CompanyStore.FinancialsAreTickerRows | backend/services/company_data_store.py:38 | the records are those of exactly the joined rows with the ticker, each once, in joined order |
| CompanyStore.TableRecords | backend/services/company_data_store.py:44-45 | nothing for an absent or empty table, else its records |
| CompanyStore.CompanyOf | backend/services/company_data_store.py:39-46 | financials, the results file or `{}`, the stock and historical records |
| CompanyStore.BuildCompanyData | backend/services/company_data_store.py:32-47 | a merge error is passed on; otherwise one company per distinct ticker of the join |
| CompanyStore.CollectCompanies | backend/services/company_data_store.py:37-46 | the loop keys one company by each ticker, and each company is the record built for that ticker |
| CompanyStore.AsWrittenFailsOnAnyCompany | backend/services/company_data_store.py:45 | as written, the store is built only from a join without rows |
| PromptInputs.StrLtTransitive | backend/services/prompt_generator.py:10 | the period string order is transitive |
| PromptInputs.StrLtTotal | backend/services/prompt_generator.py:10 | two different period strings are ordered one way or the other |
| PromptInputs.NewerAsymmetric | backend/services/prompt_generator.py:10 | "newer" is asymmetric |
| PromptInputs.NewerSplits | backend/services/prompt_generator.py:10 | "newer" is a strict weak order: any b lies below a or above c when a is newer than c |
| PromptInputs.Insert | backend/services/prompt_generator.py:10 | insertion adds exactly one index |
| PromptInputs.InsertNewestFirst | backend/services/prompt_generator.py:10 | inserting into a newest-first list keeps it newest-first |
| PromptInputs.SortNewestFirst | backend/services/prompt_generator.py:10 | the descending sort is a permutation and newest-first |
| PromptInputs.MetricNames | backend/services/prompt_generator.py:14 | exactly the columns other than ticker and period |
| PromptInputs.Latest | backend/services/prompt_generator.py:10 | at most n rows of the ticker, newest first |
| PromptInputs.TickerRows | backend/services/prompt_generator.py:10 | the ticker's rows, each once, newest first |
| PromptInputs.LatestAreMostRecent | backend/services/prompt_generator.py:10 | a ticker row left out means n rows were kept, none older than it |
| PromptInputs.Metrics | backend/services/prompt_generator.py:13-17 | each metric name with the row's cell |
| PromptInputs.ReadMetrics | backend/services/prompt_generator.py:16-17 | the loop reads exactly `Metrics` |
| PromptInputs.GenerateRatioPrompt | backend/services/prompt_generator.py:8-19 | one year block per latest row, in order |
| PromptInputs.ReadBlocks | backend/services/prompt_generator.py:12-17 | the loop reads one year block per selected row, in order |
| PromptInputs.Present | backend/services/prompt_generator.py:29-30 | exactly the non-identifier, non-anomaly columns not null in the row |
| PromptInputs.Flagged | backend/services/prompt_generator.py:23 | exactly the rows whose label equals 1, in order |
| PromptInputs.GenerateAnomalyPrompt | backend/services/prompt_generator.py:22-33 | one line per flagged row, in order |
| PromptInputs.Reported | backend/services/prompt_generator.py:45-56 | no more entries than results |
| PromptInputs.ReportedTests | backend/services/prompt_generator.py:45-56 | a test is reported exactly when it has a p-value; each entry's two counts are non-negative, add up to that test's signals, and its p is the test's |
| PromptInputs.GenerateHypothesisPrompt | backend/services/prompt_generator.py:36-57 | a missing file gives the not-found message; otherwise the reported entries |
| PromptInputs.ReportedWhenSignalled | backend/services/prompt_generator.py:46-47 | a back-test has a p-value exactly when it saw a signal |
| PromptInputs.OfTicker | backend/services/prompt_generator.py:96 | exactly the sorted rows of the ticker |
| PromptInputs.OfTickerFirst | backend/services/prompt_generator.py:96 | the first row kept is the ticker's first row in the sorted order: no earlier sorted row belongs to the ticker |
| PromptInputs.BothSorted | backend/services/prompt_generator.py:90-92 | every row of either ticker, newest first |
| PromptInputs.SectionFor | backend/services/prompt_generator.py:96-103 | at most one section, none exactly when the ticker has no row |
| PromptInputs.SectionsForStep | backend/services/prompt_generator.py:95-103 | each ticker of the loop appends its own section |
| PromptInputs.ReadSection | backend/services/prompt_generator.py:96-103 | the loop body reads exactly `SectionFor` |
| PromptInputs.GenerateComparisonPrompt | backend/services/prompt_generator.py:89-103 | the loop over the two tickers builds exactly `Comparison` |
| PromptInputs.SectionIsNewest | backend/services/prompt_generator.py:90-103 | a ticker with a row gets a section from one of its rows, and no row of it is newer |
| PromptInputs.ComparisonAlwaysFails | backend/services/prompt_generator.py:105 | as written, formatting the comparison always fails |
| Chatbot.Trim | frontend/src/pages/Chatbot/Chatbot.jsx:13-14 | empty, or no whitespace at either end |
| Chatbot.TrimSurroundings | frontend/src/pages/Chatbot/Chatbot.jsx:13-14 | the trimmed text is a slice of the input with only whitespace around it |
| Chatbot.TrimIdempotent | frontend/src/pages/Chatbot/Chatbot.jsx:14 | trimming twice is trimming once |
| Chatbot.TrimEmpty | frontend/src/pages/Chatbot/Chatbot.jsx:13 | the trim is empty exactly when the input is all whitespace |
| Chatbot.TrimStartDropsSpace | frontend/src/pages/Chatbot/Chatbot.jsx:13-14 | what trimming the start removes is whitespace |
| Chatbot.TrimEndDropsSpace | frontend/src/pages/Chatbot/Chatbot.jsx:13-14 | what trimming the end removes is whitespace |
| Chatbot.PromptTypeIsFirstKeyword | frontend/src/pages/Chatbot/Chatbot.jsx:20-34 | the chain picks the first listed keyword the lowered input contains |
| Chatbot.DefaultWhenNoKeyword | frontend/src/pages/Chatbot/Chatbot.jsx:20-34 | the default is chosen exactly when no keyword occurs |
| Chatbot.AnomalyWins | frontend/src/pages/Chatbot/Chatbot.jsx:22-23 | a message mentioning "anomaly" is always of type anomalies |
| Chatbot.PromptTypeIgnoresCase | frontend/src/pages/Chatbot/Chatbot.jsx:21 | upper-casing keeps the prompt type |
| Chatbot.PromptTypeIgnoresPadding | frontend/src/pages/Chatbot/Chatbot.jsx:21-34 | surrounding whitespace does not change the prompt type |
| Chatbot.ChatState.constructor | frontend/src/pages/Chatbot/Chatbot.jsx:8-10 | no messages, empty input, not started |
| Chatbot.ChatState.Type | frontend/src/pages/Chatbot/Chatbot.jsx:118 | only the input text changes |
| Chatbot.ChatState.HandleKeyDown | frontend/src/pages/Chatbot/Chatbot.jsx:12-54 | nothing changes unless Enter is pressed on non-blank input; then the trimmed text and its prompt type are sent, the user and bot messages appended, the input cleared |
| Chatbot.ChatState.Post | frontend/src/pages/Chatbot/Chatbot.jsx:15-17 | the user's message and then the answer are appended, the input cleared and the greeting hidden, and the conversation still alternates |
| Chatbot.ChatState.NewChat | frontend/src/pages/Chatbot/Chatbot.jsx:58-62 | back to the initial state |
| Chatbot.ExchangesExtend | frontend/src/pages/Chatbot/Chatbot.jsx:14-15 | appending a trimmed user message and an answer keeps the conversation alternating |
| Chatbot.Answer | frontend/src/pages/Chatbot/Chatbot.jsx:45-52 | the backend's reply when there is one |

## Left out

- File reading and writing, CSV and JSON parsing, `print`, `time.sleep` and the HTTP client are not modelled. Their results are parameters: tables, `Response` values, attempt outcomes, the chat reply. The sleeps appear only as the list of delays `TryTicker` returns.
- `process_all_tickers`, `process_all_successful_tickers`, `main`, `save_failed_tickers` and the scripts' `__main__` blocks are not modelled; they are file-system drivers around the modelled functions.
- `generate_stock_trend_prompt` (prompt_generator.py:60-87) is not modelled; it is not part of the core that builds prompt inputs from the modelled tables.
- The text of the prompt templates, the `:.2f` number formatting and the joining strings are not modelled. The prompt generators return the selected data (year blocks, anomaly lines, hypothesis entries, sections) rather than strings.
- Floating point is modelled as exact reals. Overflow, rounding of intermediate results and signed zero are not captured. A division by zero gives ±inf, or NaN for 0/0, as in numpy.
- The isolation forest and its random state are an oracle (`Forest`). The square root behind `std()` and the scaler's scale is an oracle (`Root`), assumed exact only in the unit-variance lemmas.
- Backtests: a text cell in a compared column would raise a `TypeError` in pandas. The model treats it as comparing false.
- Backtests.Summary: the p-value is exact rational arithmetic, not scipy's floating-point evaluation.
- TechnicalFeatures.TechnicalFeatures: the `pd.to_numeric(errors='coerce')` step before it (historical_stock_data_feature_engineering.py:101-103) can leave NaN cells, and a file can hold infinite prices; prices and volumes that are NaN, infinite or text are excluded by `PricesNumeric` and not modelled.
- TechnicalFeatures.FeaturesFailure: stated only for tables whose prices and volumes are all numbers, as for `TechnicalFeatures`.
- TechnicalFeatures.FeaturesOnlyAdded: stated only for tables whose prices and volumes are all numbers, as for `TechnicalFeatures`.
- TechnicalFeatures.AddTechnicalFeatures: stated only for tables whose prices and volumes are all numbers, as for `TechnicalFeatures`.
- TechnicalFeatures.ComputeObv: the source reads rows by label (`df.loc[i]`), which matches position only for the default index the CSV reader gives; the model reads by position.
- CompanyStore.Merge: a join whose suffixed names would still clash is an error, as in current pandas; older pandas versions built the duplicate columns instead. Only the ratio-table columns of the joined rows are stated cell by cell; the anomaly columns are stated by name and count.
- PromptInputs.SortNewestFirst: the relative order of rows with equal periods is not specified, as pandas' default sort is not stable. A period that is not text sorts last, as a missing value does.
- Chatbot.LowerChar: only ASCII letters change case. JavaScript's full Unicode case mapping, which also affects characters such as the Kelvin sign, is not modelled.
- Chatbot.ChatState.HandleKeyDown: the request and the reply are one atomic step. Interleaving with other key presses while the request is pending is not modelled. A response without a `reply` field is not modelled either.
- IndicatorFetch.RetryUntilSuccess: the contents of the log files, the final log and the sorted inactive list are not modelled, and `pause_seconds` is not returned.
- IndicatorFetch.FetchAll: connection errors, timeouts and every other exception are one `Broken` response, because the source handles them all alike.

## Findings

| source | as written | input that shows it | evidently intended | confidence | as-written member | corrected member |
|---|---|---|---|---|---|---|
| backend/services/feature_engineering/taapi_hypothesis_test_data.py:142-153 | `fetch_all_indicators` catches every HTTP error and re-raises only 401. A 403, 404 or 422 becomes `None`, so the permanent-failure branch at lines 181-184 only ever sees 401, and a delisted ticker is retried and logged as failed. | eight responses whose first failure is HTTP 404 | the HTTP error reaches `run_for_tickers`, which makes the ticker a hard failure on its first attempt | not executed | IndicatorFetch.DelistedTickerRetried | IndicatorFetch.DelistedTickerHardWhenPropagated |
| backend/services/company_data_store.py:45 | builds each company's record from `hist_features`, a name that is never assigned (`load_historical_features` is never called) | any ratio and anomaly tables whose join has a row | `hist_features = load_historical_features(ticker)` before the record is built | not executed | CompanyStore.AsWrittenFailsOnAnyCompany | CompanyStore.BuildCompanyData |
| backend/services/prompt_generator.py:105 | formats `COMPARE_TEMPLATE`, which the import at line 5 does not bring in, so every call raises `NameError` | any two tickers and any ratio table | `COMPARE_TEMPLATE` imported from `prompts` with the other templates | not executed | PromptInputs.ComparisonAlwaysFails | PromptInputs.GenerateComparisonPrompt |
