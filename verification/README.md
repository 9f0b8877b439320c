# Stock-Data-Scraper core, modelled in Dafny

Stock-Data-Scraper collects Taiwanese stock data and news. This project models four parts of it and proves what each promises.

1. **The technical-indicator engine**, `apply_technical_indicators`. It copies a price table and appends 15 derived columns in a fixed order: MA_5, MA_20, MA_60, RSI_14, MACD_Line, MACD_Signal, MACD_Hist, HV_20, BB_MID, BB_UP, BB_DOWN, ATR_14, OBV, VWAP and Divergence_20.
2. **The yfinance exporter**, `get_yfinance_data` and `yfinance_data`. It assembles the `daily`, `1m_7d` and `intraday` tables. The intraday table is split by its `Interval` tag and each group goes through the engine on its own. The groups are put back in the fixed order 5m, 15m, 30m, 60m, and one CSV file is written per label.
3. **The Bing news scraper**, `bing_scrape_stock_news`. It covers the bounded retry loop `_fetch_with_retry`, the Latin-1 header sanitiser, the search-page offsets, the per-card loop, the article-text filter and the date normaliser `parse_bing_date`.
4. **The Google News scraper**, `google_scrape_stock_news`. It covers the page loop with its early stop, the per-item loop, the domain dispatch and paragraph filter of `get_full_article_content`, and the date normaliser `parse_news_date`.

Modules, in dependency order:

- Values and tables:
  - `Results`: `Option` and `Result`.
  - `Values`: a pandas cell, `Undef | Fin(r) | PosInf | NegInf`, with its arithmetic.
  - `Tables`: the table value and the `Frame` class that `apply_technical_indicators` mutates.
- The indicator engine:
  - `Smoothing`: `ewm(adjust=False)`.
  - `Windows`: `rolling(w)` mean, standard deviation and max, and `shift(1)`.
  - `Indicator`: the eight `calculate_*` and `detect_divergence` functions.
  - `Pipeline`: `apply_technical_indicators`.
- The yfinance exporter:
  - `Regroup`: `groupby('Interval')`, and concatenation.
  - `Intraday`: the per-group engine run and the reordering.
  - `Yfinance`: both exporter functions.
- The news scrapers:
  - `Text`: `strip`, `split`, `join` and the line filters.
  - `Calendar`: Python's proleptic Gregorian `date` and `datetime`, by day ordinal.
  - `NewsDates`: both date normalisers.
  - `Articles`: both `get_full_article_content` functions.
  - `Scraping`: the `Record` of a scraper row, and how the rows gathered so far meet the outcome of the rest.
  - `Bing`, `Google`: the two scrapers.
  - `NewsFiles`: the CSV file name the scrapers write to.

Code that loops or mutates in the source is a `method` proved against a specification function:
- the OBV loop;
- the 15 column assignments on the copied frame;
- the per-group loop that fills `temp_processed_dfs`;
- the interval loop that fills `intraday`;
- the per-label export loop;
- the retry loop;
- the paragraph collection loop;
- the page and card/item loops of both scrapers.

The vectorised pandas expressions are recursive functions over sequences.

Whatever the program receives from outside is a parameter:
- what `Ticker.history` returned, or that it raised;
- the HTTP replies of each attempt;
- the cards or items found in a page;
- an article's text;
- the clock reading `now`;
- `ln` and `sqrt`.

`src/yf_client.py` repeats `src/yfinance.py` apart from a debug probe. One model covers both, and the rows below cite either file.

## Model

| member | source | states |
|---|---|---|
| Values.RowMax | src/Indicator.py:80 | The row maximum that skips missing cells is missing only when every cell is. It is never below any cell, and otherwise it is one of the cells. |
| Values.Add | src/Indicator.py:63 | `a + b` on float cells: NaN exactly when an operand is NaN or the sum is inf + (−inf); finite exactly when both operands are. |
| Values.Sub | src/Indicator.py:36-38 | `a - b`: NaN exactly when an operand is NaN or the difference is inf − inf of one sign; finite exactly when both operands are. |
| Values.Mul | src/Indicator.py:63-64 | `a * b`: NaN exactly when an operand is NaN or the product is 0 · inf; finite exactly when both operands are. |
| Values.Div | src/Indicator.py:21-22 | `a / b`: NaN exactly when an operand is NaN, both are infinite, or it is 0 / 0; finite exactly when `a` is finite and `b` is neither NaN nor zero. |
| Values.MaxSkipNa | src/Indicator.py:80 | The larger of two cells, skipping NaN: NaN only when both are, always one of the two, and never below either. |
| Smoothing.SpanAlpha | src/Indicator.py:34-35 | `2/(span+1)` lies in (0, 1], and below 1 for a span above 1. |
| Smoothing.WilderAlpha | src/Indicator.py:19-20 | `1/period` lies in (0, 1], and below 1 for a period above 1. |
| Smoothing.Ema | src/Indicator.py:19-20 | The smoothed column has one value per input row. |
| Smoothing.EmaPrefix | src/Indicator.py:34-35 | The smoothing is causal: its first k values are the smoothing of the first k inputs. |
| Smoothing.EmaRecurrence | src/Indicator.py:34-37 | With `adjust=False`, y[0] = x[0] and y[t] = α·x[t] + (1−α)·y[t−1]. |
| Smoothing.EmaAtLeast | src/Indicator.py:19-20 | A lower bound on the inputs up to t bounds the smoothed value at t. |
| Smoothing.EmaAtMost | src/Indicator.py:34-35 | An upper bound on the inputs up to t bounds the smoothed value at t. |
| Smoothing.EmaConstant | src/Indicator.py:37 | A constant column smooths to itself. |
| Smoothing.EmaZeroIff | src/Indicator.py:19-20 | For non-negative inputs and 0 < α < 1, the smoothed value at t is 0 exactly when every input up to t is 0. |
| Windows.Largest | src/Indicator.py:123-124 | The maximum of a non-empty window bounds every element and is one of them. |
| Windows.Window | src/Indicator.py:61 | A full window ending at t holds the w finite values of rows t−w+1 … t, in order. |
| Windows.RollingMean | src/Indicator.py:61 | `rolling(w).mean()` has one value per row. |
| Windows.RollingStd | src/Indicator.py:62 | `rolling(w).std()` has one value per row. |
| Windows.RollingMax | src/Indicator.py:123 | `rolling(w).max()` has one value per row. |
| Windows.Shift | src/Indicator.py:76 | `shift(1)` moves each value one row down and leaves row 0 missing. |
| Windows.FullGapFree | src/Indicator.py:61 | On a gap-free column, a window of w rows is available at t exactly when 1 ≤ w ≤ t+1, and it is the slice of rows t−w+1 … t. |
| Windows.RollingMaxGapFree | src/Indicator.py:123 | On a gap-free column, the rolling max at t is the largest of the last w rows from row w−1 on, and missing before. |
| Windows.MeanBetween | src/Indicator.py:137-139 | A moving average lies between any bounds of the values it averages. |
| Windows.VarianceNonNeg | src/Indicator.py:62 | The sample variance is never negative. |
| Windows.ConstantWindow | src/Indicator.py:61-62 | A constant window has that constant as its mean and zero sample variance. |
| Tables.Column | src/Indicator.py:135 | `df[name]` has one cell per row: the cell of that row under that name. |
| Tables.Numbers | src/Indicator.py:135 | A column reads as numbers exactly when every cell is a number, and then it reads as those numbers. |
| Tables.Resolve | src/Indicator.py:74-76 | `df.get(a, df.get(b))` picks a column exactly when one of the aliases is present, and then it picks the first alias present. |
| Tables.WithColumn | src/Indicator.py:137 | Assigning a column gives a well-formed table with the same number of rows. |
| Tables.WithColumnShape | src/Indicator.py:137-160 | `df[name] = col` appends `name` if it is new, keeps the row labels, sets that column and leaves every other column alone. |
| Tables.AssignUnchanged | src/Indicator.py:137-160 | Assigning a column the value it already holds leaves the table unchanged. |
| Tables.StackRowsAppend | src/yfinance.py:78 | Concatenating two lists of tables gives the rows of the first list, then the rows of the second. |
| Tables.Stack | src/yfinance.py:47 | `pd.concat` of tables sharing their columns. It has no contract of its own; it is the specification that StackRowsAppend, StackWellFormed and Regroup.GroupStack are about. |
| Tables.StackWellFormed | src/yfinance.py:47 | `pd.concat` of well-formed tables with the same columns is well-formed and holds all their rows. |
| Tables.Frame.Copy | src/Indicator.py:134 | `df.copy()` gives a fresh frame holding the same table. |
| Tables.Frame.Assign | src/Indicator.py:137 | An in-place column assignment leaves the frame holding the table with that column set. |
| Indicator.Diff | src/Indicator.py:15 | `diff()` has one value per row. |
| Indicator.Gains | src/Indicator.py:16 | The gain column has one value per row. |
| Indicator.Losses | src/Indicator.py:17 | The loss column has one value per row. |
| Indicator.Rsi | src/Indicator.py:8-23 | RSI has one value per row. |
| Indicator.GainLossAt | src/Indicator.py:15-17 | Gain and loss are non-negative. From row 1 on, their difference is the price step. Both are 0 exactly at row 0 or on an unchanged price. |
| Indicator.RsiValueCases | src/Indicator.py:21-22 | With a positive average loss, RSI is 100·g/(g+l) and lies in [0, 100). With no loss but some gain, it is 100. With neither, it is 0/0 and missing. |
| Indicator.GainsLossesNonNeg | src/Indicator.py:16-17 | Every gain and every loss is non-negative. |
| Indicator.QuietIff | src/Indicator.py:15-17 | All gains and losses up to t are 0 exactly when the price has not moved by row t. |
| Indicator.RsiAverages | src/Indicator.py:19-22 | RSI at t is computed from the two Wilder averages. Both are non-negative, and both are 0 exactly when the price has not moved by t. |
| Indicator.RsiDefinedIff | src/Indicator.py:15-22 | RSI at t is defined exactly when the price has moved by row t. So row 0 is always undefined and there is no longer warm-up. Every defined value lies in [0, 100]. |
| Indicator.RsiAllGains | src/Indicator.py:21-22 | On prices that never fall and have risen, RSI is exactly 100. |
| Indicator.Macd | src/Indicator.py:25-39 | The MACD line, the signal and the histogram each have one value per row. |
| Indicator.MacdConstant | src/Indicator.py:34-38 | On constant prices the MACD line, the signal and the histogram are 0 in every row. |
| Indicator.MacdFirstRow | src/Indicator.py:34-38 | In row 0 the MACD line, the signal and the histogram are 0. |
| Indicator.MacdLineBounded | src/Indicator.py:34-36 | With prices in [lo, hi], the MACD line lies in [lo−hi, hi−lo]. |
| Indicator.LogReturns | src/Indicator.py:49 | The log-return column has one value per row. |
| Indicator.Hv | src/Indicator.py:41-51 | HV has one value per row. |
| Indicator.HvDefinedIff | src/Indicator.py:49-51 | HV is missing before row `window`, because the log-return of row 0 is missing. With positive prices it is defined from row `window` on. |
| Indicator.Bollinger | src/Indicator.py:53-65 | The three bands each have one value per row. |
| Indicator.BollingerShape | src/Indicator.py:61-64 | Each band is defined exactly from row window−1 on. There, the middle band is the mean of the window, and both outer bands lie k standard deviations from it. That deviation is non-negative whenever `sqrt` is. |
| Indicator.BollingerConstant | src/Indicator.py:61-65 | On constant prices all three bands equal the price once the window is full. |
| Indicator.TrueRange | src/Indicator.py:77-80 | The true range has one value per row. |
| Indicator.Atr | src/Indicator.py:67-82 | ATR has one value per row. |
| Indicator.TrueRangeAt | src/Indicator.py:77-80 | The true range is defined in every row and is at least high−low. In row 0 it is exactly high−low, because the missing previous close is skipped. Later it is the largest of the three candidates. |
| Indicator.TrueRangeNonNeg | src/Indicator.py:77-80 | On a bar with low ≤ high, the true range is defined and non-negative. |
| Indicator.AtrDefinedIff | src/Indicator.py:81 | ATR at t is defined exactly when t ≥ period−1, and it is then the mean of the last `period` true ranges. |
| Indicator.AtrNonNeg | src/Indicator.py:77-81 | When every bar has low ≤ high, ATR is defined and non-negative once the window is full. |
| Indicator.AtrFlatBars | src/Indicator.py:77-81 | On flat bars at one price, ATR is 0 once the window is full. |
| Indicator.ObvList | src/Indicator.py:92-99 | The OBV list has one entry per row, and the single starting 0 when there are no rows. |
| Indicator.CalculateObv | src/Indicator.py:84-100 | The loop builds exactly the OBV list. It raises exactly on an empty table, where the one-element list does not fit the empty index. |
| Indicator.ObvPrefix | src/Indicator.py:92-99 | OBV is causal: its first k entries are the OBV of the first k rows. |
| Indicator.ObvStep | src/Indicator.py:93-99 | obv[0] = 0. Each later entry adds +vol[i], −vol[i] or 0 to the previous one, as close[i] is above, below or equal to close[i−1]. |
| Indicator.ObvFirst | src/Indicator.py:92 | OBV starts at 0. |
| Indicator.ObvNext | src/Indicator.py:93-99 | Each step of OBV adds that row's signed volume. |
| Indicator.ObvIsSignedVolume | src/Indicator.py:92-99 | OBV at t is the sum of the signed volumes of rows 1 … t. |
| Indicator.ObvMonotone | src/Indicator.py:94-99 | Over a stretch of prices that never fall, with non-negative volume, OBV never decreases. |
| Indicator.CumSum | src/Indicator.py:110-111 | `cumsum()` has one value per row. |
| Indicator.CumSumIsPrefixSum | src/Indicator.py:110-111 | `cumsum()` at t is the sum of rows 0 … t. |
| Indicator.Vwap | src/Indicator.py:102-112 | VWAP has one value per row. |
| Indicator.VwapAt | src/Indicator.py:110-112 | VWAP at t is the turnover of rows 0 … t divided by the volume of rows 0 … t. It accumulates from row 0 and never resets. |
| Indicator.VwapConstantVolume | src/Indicator.py:110-112 | With a constant non-zero volume, VWAP at t is the running mean of the closes up to t. |
| Indicator.VwapNoVolume | src/Indicator.py:112 | Where the cumulative volume is 0, VWAP has no finite value. |
| Indicator.WeightedSumBetween | src/Indicator.py:110-111 | With prices in [lo, hi] and non-negative volumes, the cumulative turnover lies between lo and hi times the cumulative volume. |
| Indicator.VwapBetween | src/Indicator.py:110-112 | With non-negative volumes and some volume traded by t, VWAP is finite and lies between the lowest and highest close up to t. |
| Indicator.Divergence | src/Indicator.py:114-126 | The divergence flag has one value per row. |
| Indicator.PriorHighs | src/Indicator.py:123-124 | The shifted rolling maxima have one value per row. |
| Indicator.DivergenceIff | src/Indicator.py:123-126 | The flag at t holds exactly when t ≥ window, the close beats the highest close of rows t−window … t−1, and OBV is below the highest OBV of those rows. |
| Indicator.PriorHigh | src/Indicator.py:123 | The shifted rolling max at t is the highest of rows t−window … t−1 (row t excluded), and missing before row `window`. |
| Indicator.AbovePriorHigh | src/Indicator.py:123-126 | The price side of the flag holds exactly when t ≥ window and the close exceeds the highest close of rows t−window … t−1. |
| Indicator.BelowPriorHigh | src/Indicator.py:124-126 | The OBV side of the flag holds exactly when t ≥ window and OBV is under the highest OBV of rows t−window … t−1. |
| Indicator.NoDivergenceAtObvHigh | src/Indicator.py:124-126 | There is no divergence where OBV is at least its previous window high. |
| Indicator.NoDivergenceOnRisingPrices | src/Indicator.py:122-126 | On prices that never fall, with non-negative volume, the engine's OBV never diverges. |
| Indicator.NoDivergenceOnFallingPrices | src/Indicator.py:126 | On prices that never rise, no close breaks its previous high, so there is no divergence. |
| Indicator.DetectDivergence | src/Indicator.py:114-126 | `detect_divergence` gives the flag column computed from the engine's OBV, and raises exactly on an empty table (the OBV step). |
| Pipeline.Field | src/Indicator.py:74-76 | A price field is missing exactly when none of its aliases is a column. Otherwise it is read from the first alias present, or it fails as non-numeric. |
| Pipeline.Inputs | src/Indicator.py:135 | The engine's inputs are read through the alias lists: `close`>`Close`, `max`>`High`, `min`>`Low`, `Trading_Volume`>`Volume`. In the model it fails exactly when one of the four fields fails or the table is empty. A missing close is the first failure, and an empty table fails with the OBV length mismatch. |
| Pipeline.MovingAverageColumns | src/Indicator.py:137-139 | MA_5, MA_20 and MA_60 each have one cell per row. |
| Pipeline.MacdColumns | src/Indicator.py:143-146 | The three MACD columns each have one cell per row. |
| Pipeline.BollingerColumns | src/Indicator.py:150-153 | The three band columns each have one cell per row. |
| Pipeline.PriceColumns | src/Indicator.py:137-153 | The eleven columns computed from the close alone each have one cell per row. |
| Pipeline.VolumeColumns | src/Indicator.py:157-160 | OBV, VWAP and Divergence_20 each have one cell per row. |
| Pipeline.IndicatorColumns | src/Indicator.py:135-160 | There is one derived column per indicator name, and each has one cell per row. |
| Pipeline.AssignAll | src/Indicator.py:137-160 | Assigning the derived columns in turn keeps the table well-formed and keeps its row count. |
| Pipeline.AssignAllSnoc | src/Indicator.py:137-160 | Assigning one more column is one more `df[name] = col` on the table built so far. |
| Pipeline.AssignAllShape | src/Indicator.py:137-160 | After distinct assignments the row labels are unchanged, each assigned name holds its column, and every column not assigned is kept. |
| Pipeline.NamesAfterAllFresh | src/Indicator.py:137-160 | New names are appended at the end, in assignment order. |
| Pipeline.NamesAfterAllPresent | src/Indicator.py:137-160 | Assigning names that are all present leaves the column order unchanged. |
| Pipeline.AssignAllUnchanged | src/Indicator.py:137-160 | Re-assigning columns their current values leaves the table unchanged. |
| Pipeline.IndicatorNamesDistinct | src/Indicator.py:137-160 | The 15 derived names are distinct, and none of them is an alias of an input field. |
| Pipeline.AugmentShape | src/Indicator.py:134-161 | On success, the row count, row labels and order are unchanged, and every input column is kept. The 15 derived columns are set, and on a fresh table they are appended after the input columns in the order MA_5 … Divergence_20. |
| Pipeline.Augment | src/Indicator.py:128-161 | `apply_technical_indicators` on a table. It has no contract of its own; it is the specification that AugmentShape, AugmentIdempotent, ApplyTechnicalIndicators and Intraday.AugmentKeepsShape are about. |
| Pipeline.FieldKept | src/Indicator.py:135 | A field reads the same from two tables that agree on which aliases are present and on their columns. |
| Pipeline.ResolveKept | src/Indicator.py:74-76 | Alias resolution depends only on which aliases are present. |
| Pipeline.AugmentIdempotent | src/Indicator.py:128-161 | Running the engine on its own output gives the same table again. |
| Pipeline.NamesAfterAllKeeps | src/Indicator.py:137-160 | After the assignments, the columns are the old ones together with the assigned ones. |
| Pipeline.ApplyTechnicalIndicators | src/Indicator.py:128-161 | Copying the frame and assigning the 15 columns one after another gives exactly the engine's result, including its failures. The caller's table is not touched. |
| Pipeline.ApplyRangeIndicators | src/Indicator.py:155 | Once the close-price columns are in place, assigning ATR_14 and then the volume columns completes the engine's result. |
| Pipeline.ApplyVolumeIndicators | src/Indicator.py:157-160 | Once ATR_14 is in place, the volume columns complete the engine's result, or the engine's failure is returned. |
| Pipeline.AssignPriceIndicators | src/Indicator.py:137-153 | The frame ends up holding the input table with the eleven close-price columns assigned in order. |
| Pipeline.AssignVolumeIndicators | src/Indicator.py:157-160 | On an empty table the OBV step raises. Otherwise OBV, VWAP and Divergence_20 are assigned in that order. |
| Pipeline.AssignMovingAverages | src/Indicator.py:137-139 | The frame ends up holding the input table with MA_5, MA_20 and MA_60 assigned. |
| Pipeline.AssignMacd | src/Indicator.py:143-146 | MACD_Line, MACD_Signal and MACD_Hist are assigned after RSI_14. |
| Pipeline.AssignBollinger | src/Indicator.py:150-153 | BB_MID, BB_UP and BB_DOWN are assigned after HV_20. |
| Pipeline.Put | src/Indicator.py:137 | One assignment adds the next derived name with its column to the frame. |
| Regroup.GroupMembers | src/yfinance.py:68 | A group holds exactly the rows that carry its tag. |
| Regroup.GroupTable | src/yfinance.py:68 | `get_group(iv)` is a well-formed table with the same columns. |
| Regroup.GroupAppend | src/yfinance.py:68 | Grouping distributes over concatenation, so each group keeps the rows' original relative order. |
| Regroup.GroupSnoc | src/yfinance.py:68 | One more row joins the end of its own group and no other. |
| Regroup.GroupAllTagged | src/yfinance.py:68 | A block whose rows all carry one tag is that tag's whole group. |
| Regroup.GroupNoneTagged | src/yfinance.py:68 | A block none of whose rows carries a tag has an empty group for it. |
| Regroup.Tags | src/yfinance.py:68 | The groupby keys are distinct, and they are exactly the tags some row carries. |
| Regroup.GroupOfTag | src/yf_client.py:55 | A tag is a groupby key exactly when its group is not empty. |
| Regroup.GroupStack | src/yfinance.py:78 | In a concatenation of blocks with distinct tags, each tag's group is its block, and a tag of no block has an empty group. |
| Regroup.Present | src/yfinance.py:72-77 | The comprehension keeps exactly the listed intervals that have a processed group. For a list without repeats it has none either, and it lists them in the list's order: an earlier position in the result is an earlier position in the list. |
| Regroup.IndexOf | src/yfinance.py:72 | The position of an interval in the fixed list: the first place it occurs. |
| Regroup.Ordered | src/yfinance.py:73-77 | The reordered list holds the processed table of each present interval, in the fixed order. |
| Intraday.IntervalOrderDistinct | src/yfinance.py:72 | The fixed order lists each interval once. |
| Intraday.IntervalNotDerived | src/yfinance.py:69 | The engine never writes the `Interval` column, so tags survive it. |
| Intraday.AugmentKeepsShape | src/yfinance.py:69 | On success the engine keeps every row with its label and `Interval` tag, and adds its derived columns. It never succeeds on a table without rows. |
| Intraday.Engine | src/yfinance.py:69 | `apply_technical_indicators(group_df.copy())` as a function value: it is the engine on every well-formed table, and it keeps shape. |
| Intraday.ProcessGroupsFails | src/yfinance.py:68-70 | Filling `temp_processed_dfs` fails exactly when the engine fails on some group. |
| Intraday.ProcessGroupsEntries | src/yfinance.py:67-70 | On success, `temp_processed_dfs` has one entry per tag, and each entry is the engine's output on that tag's group alone. |
| Intraday.ProcessedGroup | src/yf_client.py:55-57 | A processed group has the engine's columns, its group's row count and only rows of its own tag. |
| Intraday.OrderedGroups | src/yfinance.py:72-77 | The reordered list holds the processed groups of exactly the listed intervals that occur, each once, in the order 5m, 15m, 30m, 60m. Each is non-empty, has the engine's columns and carries its own tag. |
| Intraday.IntradayRegroup | src/yfinance.py:68-78 | In the reassembled table, the rows of each listed interval that occurs are exactly the engine's output on that interval's group alone. So a derived value depends only on rows with the same tag. |
| Intraday.IntradayDropsOthers | src/yf_client.py:58-61 | A tag that is not listed, or does not occur, has no rows in the reassembled table. |
| Intraday.IntradayRowsListed | src/yfinance.py:73-78 | Every reassembled row carries one of the four listed intervals. |
| Intraday.IntradayOrder | src/yfinance.py:72-78 | In the reassembled table every row of an earlier listed interval comes before every row of a later one: all 5m rows, then 15m, then 30m, then 60m. |
| Intraday.StackRowsOrdered | src/yfinance.py:78 | In a concatenation of blocks wholly tagged with distinct tags, the rows follow the order of the blocks' tags. |
| Intraday.TagOrderTransfer | src/yfinance.py:72-78 | Rows in the order of the present intervals are in the order of the fixed list, because the present intervals follow that list. |
| Intraday.ProcessGroups | src/yfinance.py:67-70 | `temp_processed_dfs`. It has no contract of its own; it is the specification that ProcessGroupsFails, ProcessGroupsEntries and ProcessAll are about. |
| Intraday.IntradaySpec | src/yfinance.py:65-81 | The intraday branch. It has no contract of its own; it is the specification that IntradayRegroup, IntradayOrder, IntradayDropsOthers, IntradayRowsListed, IntradayFails, IntradaySkips and RegroupIntraday are about. |
| Intraday.StackRowsTagged | src/yfinance.py:78 | Every row of a concatenation carries the tag of the block it came from. |
| Intraday.IntradayFails | src/yfinance.py:68-70 | The intraday label raises exactly when there is no `Interval` column or the engine fails on some group. |
| Intraday.IntradaySkips | src/yfinance.py:78-81 | The reassembled table is empty, and the label is skipped, exactly when processing succeeds and none of the listed intervals occurs. |
| Intraday.ProcessGroupsStep | src/yfinance.py:68-70 | One more loop iteration keeps the first failure, or records the next group's output, or fails with it. |
| Intraday.ProcessAll | src/yfinance.py:67-70 | The loop over the groups fills `temp_processed_dfs` exactly as specified, stopping at the first exception. |
| Intraday.RegroupIntraday | src/yfinance.py:65-81 | The intraday branch computes exactly the specified regrouping: the first failure, nothing to write, or the reordered concatenation. |
| Intraday.PrefixFailure | src/yf_client.py:55-57 | Once one group fails, the later groups do not change the outcome. |
| Yfinance.OrEmpty | src/yfinance.py:24-28 | A failed fetch becomes an empty table, and a successful one is kept as it is. |
| Yfinance.Tag | src/yfinance.py:42 | Tagging keeps the rows and adds or overwrites the `Interval` column. |
| Yfinance.TagShape | src/yfinance.py:42 | After tagging, every row carries the interval, the row labels are kept and every other column is unchanged. |
| Yfinance.UsableAt | src/yfinance.py:40-41 | The kept fetches are exactly the usable ones (successful and not empty), in increasing interval order. |
| Yfinance.TaggedFetchesAt | src/yfinance.py:38-45 | The list `intraday` holds one tagged table per usable fetch, in interval order, each tagged with its own interval. |
| Yfinance.TaggedFetchesShape | src/yf_client.py:28-35 | The tables in `intraday` are well-formed, non-empty, share their columns, and carry their own tag in every row. |
| Yfinance.IntradayTable | src/yfinance.py:47 | `pd.concat(intraday) if intraday else pd.DataFrame()` is a well-formed table. |
| Yfinance.UsableIntervals | src/yfinance.py:38-43 | The tags in the assembled table are the intervals of the usable fetches, in order. |
| Yfinance.UsableIntervalsDistinct | src/yfinance.py:38-43 | Those tags are distinct, and an interval appears among them exactly when its fetch is usable. |
| Yfinance.IntradayTableGroup | src/yfinance.py:47 | Grouping the assembled table by an interval gives back that interval's tagged block, or nothing if it was not kept. |
| Yfinance.IntradayTableRegroup | src/yf_client.py:36 | For a usable fetch, the assembled table is not empty, has the `Interval` column, and its group for that interval is exactly the tagged fetch. |
| Yfinance.IntradayTableDrops | src/yfinance.py:38-47 | A failed or empty intraday fetch contributes no rows. |
| Yfinance.IntradayEndToEnd | src/yfinance.py:38-81 | For each interval, the exported intraday rows are the engine's output on that interval's own fetch, tagged, or none when the fetch was unusable. |
| Yfinance.TagIntraday | src/yfinance.py:36-45 | The interval loop builds exactly the list of tagged usable fetches. |
| Yfinance.GetYfinanceData | src/yfinance.py:11-48 | The result always has the keys `daily`, `1m_7d` and `intraday`, in that order. A failed daily or 1m fetch is an empty table, and `intraday` is the concatenation of the tagged usable fetches. |
| Yfinance.FileNameInjective | src/yfinance.py:87 | `yfinance_{stock_id}_{label}.csv` gives distinct labels of one stock distinct files. |
| Yfinance.WholeLabel | src/yfinance.py:61-63 | An empty `daily` or `1m_7d` table is skipped. Otherwise the engine runs on the whole table, and its output is written to that label's file exactly when the engine succeeds. |
| Yfinance.IntradayLabelWritten | src/yfinance.py:65-81 | The intraday file is written exactly when the table is not empty, has the `Interval` column, every group processes, and some listed interval occurs. |
| Yfinance.ExportLabel | src/yfinance.py:60-92 | One pass of the label loop gives exactly that label's outcome. An exception is caught and logged as `Failed`. |
| Yfinance.LabelOutcome | src/yfinance.py:60-92 | The outcome of one label. It has no contract of its own; it is the specification that WholeLabel, IntradayLabelWritten, OutcomeAt and ExportLabel are about. |
| Yfinance.Outcomes | src/yfinance.py:59-92 | There is one outcome per label. |
| Yfinance.OutcomeAt | src/yf_client.py:48-73 | Each label's outcome depends on that label's table alone, so a failure on one label does not stop the others. |
| Yfinance.ExportAll | src/yfinance.py:59-92 | The label loop gives exactly the outcomes of the labels, in order. |
| Yfinance.YfinanceData | src/yfinance.py:51-92 | `yfinance_data` handles the three labels in order: `daily` and `1m_7d` whole, and `intraday` by groups. |
| Calendar.FromOrdinal | src/bing_new.py:122 | `date.fromordinal(n)` is a valid date whose ordinal is n, for every n from 1 to the ordinal of 9999-12-31. |
| Calendar.OrdinalRange | src/bing_new.py:122 | Every valid date's ordinal lies between 1 and the ordinal of 9999-12-31. |
| Calendar.FromOrdinalOrdinal | src/bing_new.py:122 | `fromordinal(toordinal(d)) == d` for every valid date. |
| Calendar.OrdinalInjective | src/bing_new.py:122 | Distinct valid dates have distinct ordinals. |
| Calendar.DateBefore | src/bing_new.py:112 | `now - timedelta(...)` is a valid date whenever it does not raise `OverflowError`. |
| Calendar.DaysBefore | src/google_new.py:75 | Going back n whole days succeeds exactly when n is below today's ordinal, and lands n ordinals earlier. |
| Calendar.DateBeforeMonotone | src/bing_new.py:117 | Going back further never lands on a later day, and never succeeds where a shorter step fails. |
| Calendar.Padded | src/bing_new.py:113 | A zero-padded number has exactly the requested width and only decimal digits. |
| Calendar.Format | src/bing_new.py:113 | `strftime('%Y-%m-%d')` gives ten characters with `-` at positions 4 and 7. |
| NewsDates.DigitRun | src/bing_new.py:110 | `\d+` consumes the longest run of digits at the start. |
| NewsDates.SpaceRun | src/bing_new.py:110 | `\s*` consumes the longest run of white space. |
| NewsDates.DigitRunExact | src/bing_new.py:110 | Any all-digit prefix not followed by a digit is exactly the digit run. |
| NewsDates.SpaceRunExact | src/bing_new.py:110 | Any all-space prefix not followed by a space is exactly the space run. |
| NewsDates.ValuePadded | src/bing_new.py:127 | `int()` reads a zero-padded rendering of n back as n. |
| NewsDates.MatchCountIff | src/bing_new.py:110-111 | `re.match(r'(\d+)\s*' + unit)` succeeds exactly when the text starts with digits, optional white space and the unit. The group is the number those digits spell. |
| NewsDates.CountAtUnique | src/bing_new.py:110-111 | Such a match can be split in only one way, so its number is unique. |
| NewsDates.UnitsExclusive | src/bing_new.py:110-123 | Two unit words that start with different characters never both match one text. |
| NewsDates.ParseNewsDate | src/google_new.py:68-98 | `parse_news_date`. It has no contract of its own; it is the specification that UnrecognisedKept, RelativeAgree, DaysAgoDate, NewsNumeric and NewsDateIdempotent are about. |
| NewsDates.ParseBingDate | src/bing_new.py:104-130 | `parse_bing_date`. It has no contract of its own; it is the specification that BingCjkDate, BingCjkInvalid, BingExample and BingDateIdempotent are about. |
| NewsDates.NewsAbsolute | src/google_new.py:89-96 | The numeric stage of `parse_news_date`: both `strptime` calls on the whole stripped text. It is the specification that NewsNumeric is about. |
| NewsDates.BingAbsolute | src/bing_new.py:124-128 | The `年月日` stage of `parse_bing_date`: `datetime(y, m, d)`. It is the specification that BingCjkDate and BingCjkInvalid are about. |
| NewsDates.Strptime | src/google_new.py:93-95 | What `strptime` with `%Y<sep>%m<sep>%d` accepts is a real date, written exactly as the whole string: four year digits, `sep`, the month in one or two digits, `sep`, the day in one or two digits (or a space and one digit). Trailing text, the other separator and a non-existent day are refused. StrptimeWritten gives the converse. |
| NewsDates.AcceptedIsWritten | src/google_new.py:93-95 | A string `strptime` reads in full is the written form of the date it returns, with the format's separator in both places. |
| NewsDates.MonthCandidatesField | src/google_new.py:93 | Every alternative of `%m` that matches reads a month from 1 to 12, written in two digits or in one. |
| NewsDates.DayTokenField | src/google_new.py:93 | The alternative of `%d` that matches reads a day from 1 to 31 written in two digits, in one, or as a space and one digit. |
| NewsDates.MonthDaySound | src/google_new.py:93 | The month and day `strptime` settles on, when they end the string, are what is written after the year. |
| NewsDates.FieldValue | src/bing_new.py:127 | `int()` reads a written month or day back as its number. |
| NewsDates.PaddedValue | src/google_new.py:93 | Four digits read as a number and written back in four digits give the same digits. |
| NewsDates.MonthFieldFirst | src/google_new.py:93 | Where a month is written in digits and not followed by a digit, the first alternative of `%m` reads exactly it. A later alternative reads one digit where two were written. |
| NewsDates.DayField | src/google_new.py:93 | A day written at a position and not followed by a digit is read by `%d` as that day. |
| NewsDates.MonthDayNone | src/google_new.py:93-95 | When no month alternative is followed by the format's separator, `strptime` finds no match. |
| NewsDates.StrptimeAt | src/google_new.py:93-95 | On a string that starts with a written date and goes on without a digit, `strptime` returns the date exactly when nothing follows, both separators are the format's and the day exists. |
| NewsDates.StrptimeWritten | src/google_new.py:93-95 | `strptime` on a written date, with or without leading zeros, followed by text that does not start with a digit: the date exactly when nothing follows, both separators are the format's and the day exists, and `ValueError` otherwise. |
| NewsDates.NotRelativeAfterYear | src/google_new.py:72-88 | Text starting with four digits followed by neither white space nor a unit word's first character matches no relative pattern. |
| NewsDates.NumericRuns | src/google_new.py:90 | The digit runs of a written numeric date are the year's four digits, the month's and the day's. |
| NewsDates.NumericAtShape | src/google_new.py:72-90 | Text that starts with a written numeric date and goes on without a digit matches no relative pattern, not the `年月日` pattern, and does match the numeric prefix pattern. |
| NewsDates.NumericShape | src/google_new.py:69-90 | A written numeric date followed by text that neither starts with a digit nor ends in white space is already stripped and reaches the numeric stage. |
| NewsDates.NewsNumeric | src/google_new.py:68-98 | `parse_news_date` on a written numeric date followed by such text: its `YYYY-MM-DD` exactly when nothing follows, both separators agree and the day exists; `ValueError` otherwise. |
| NewsDates.NewsNumericDate | src/google_new.py:68-98 | `YYYY/M/D`, `YYYY-M-D` and their zero-padded forms (e.g. `2024/5/3`) become `YYYY-MM-DD`. |
| NewsDates.NewsTrailingRaises | src/google_new.py:90-95 | Text after the date that the prefix pattern accepts makes both `strptime` calls fail: `ValueError`. |
| NewsDates.NewsMixedRaises | src/google_new.py:90-95 | `YYYY/M-D` and `YYYY-M/D` pass the prefix pattern and then make both `strptime` calls fail: `ValueError`. |
| NewsDates.NumericIsFormat | src/google_new.py:96 | A date written with `-` separators in two-digit fields is its `%Y-%m-%d` rendering. |
| NewsDates.CjkRead | src/bing_new.py:110-125 | The `年月日` pattern reads text that starts with `YYYY年M月D日`, with or without leading zeros, as that year, month and day, and no relative pattern matches it. |
| NewsDates.BingCjkDate | src/bing_new.py:104-130 | `parse_bing_date` on `YYYY年M月D日`, with or without leading zeros and whatever follows: its `YYYY-MM-DD` when the day exists, `ValueError` otherwise. |
| NewsDates.BingExample | src/bing_new.py:124-128 | `2025年5月21日`, the form the source names, becomes `2025-05-21`. |
| NewsDates.NewsShortExample | src/google_new.py:89-96 | `2024/5/3`, without leading zeros, becomes `2024-05-03`. |
| NewsDates.NewsInvalidExample | src/google_new.py:90-95 | `2024/02/30` passes the prefix pattern and names no day: `ValueError`. |
| NewsDates.NewsMixedExample | src/google_new.py:90-95 | `2024/05-03` passes the prefix pattern and mixes the separators: `ValueError`. |
| NewsDates.UnitWords | src/bing_new.py:110-123 | 小時前, 分鐘前 and 天前 are unit words with distinct first characters. |
| NewsDates.NoRelative | src/bing_new.py:110-123 | Without a relative match, neither normaliser takes a relative branch. |
| NewsDates.FirstRelativeNone | src/google_new.py:72-88 | The relative stage matches nothing exactly when no unit matches. |
| NewsDates.FirstRelativeAt | src/google_new.py:72-88 | The relative stage answers with the first unit, in its own order, that matches. |
| NewsDates.OneRelative | src/bing_new.py:110-123 | Whichever unit matches, both normalisers go back by that count, despite trying the units in different orders. |
| NewsDates.RelativeAgree | src/google_new.py:72-88 | On a relative date, `parse_bing_date` and `parse_news_date` agree. |
| NewsDates.DaysAgoDate | src/google_new.py:72-76 | "N 天前" is today's date minus N days as `YYYY-MM-DD`, or `OverflowError` before year 1. |
| NewsDates.AgoDays | src/bing_new.py:120-123 | Going back N days names the day N ordinals earlier, or overflows before day 1. |
| NewsDates.AgoNotLater | src/bing_new.py:110-118 | "N 小時前" and "N 分鐘前" name today or an earlier day, never a later one. |
| NewsDates.UnrecognisedKept | src/bing_new.py:107-130 | Text that no pattern recognises comes back stripped and otherwise unchanged, from either normaliser. |
| NewsDates.BingCjkInvalid | src/bing_new.py:125-128 | A `年月日` date that names no real day raises `ValueError` rather than falling through. |
| NewsDates.FirstRelativeFormat | src/bing_new.py:113 | A relative date always comes out as the `YYYY-MM-DD` of some valid day. |
| NewsDates.NewsDateIdempotent | src/google_new.py:68-98 | Normalising the output of `parse_news_date` again changes nothing. |
| NewsDates.BingDateIdempotent | src/bing_new.py:104-130 | Normalising the output of `parse_bing_date` again changes nothing. |
| Text.StripLeftShape | src/bing_new.py:107 | `lstrip` removes a prefix of white space and leaves text that does not start with white space. |
| Text.StripRightShape | src/bing_new.py:107 | `rstrip` removes a suffix of white space and leaves text that does not end with white space. |
| Text.StripLeftRight | src/bing_new.py:107 | `strip` is `lstrip` followed by `rstrip`. |
| Text.Strip | src/google_new.py:69 | `str.strip()`. It has no contract of its own; it is the specification that StripShape, StripTrimmed, StripIdempotent, StripEmptyIff and StripSubset are about. |
| Text.LeftRightShape | src/bing_new.py:107 | The stripped text is an infix of the input with only white space on either side of it, and it neither starts nor ends with white space. |
| Text.StripShape | src/google_new.py:69 | `strip` leaves text that neither starts nor ends with white space. |
| Text.StripTrims | src/google_new.py:141-143 | Every stripped field is trimmed at both ends. |
| Text.StripTrimmed | src/google_new.py:69 | Text that is already trimmed is its own strip. |
| Text.StripIdempotent | src/google_new.py:69 | Stripping twice is stripping once. |
| Text.AllSpaceStripLeft | src/bing_new.py:98 | `lstrip` removes the whole of an all-white-space string. |
| Text.StripEmptyIff | src/google_new.py:144 | A stripped field is empty exactly when the field is all white space. |
| Text.Split | src/google_new.py:56 | `split` always gives at least one piece, and no piece holds the separator. |
| Text.JoinSplit | src/google_new.py:56 | Joining the pieces of a split gives back the text. |
| Text.Join | src/google_new.py:62 | `'\n'.join(lines)`. It has no contract of its own; it is the specification that JoinSplit, SplitJoin, JoinEnds and JoinTrimmed are about. |
| Text.SplitJoin | src/bing_new.py:102 | Splitting a join of separator-free pieces gives back the pieces. |
| Text.SplitFree | src/google_new.py:56 | Text without the separator is a single piece. |
| Text.SplitPrefix | src/google_new.py:56 | A separator-free prefix followed by the separator becomes the first piece. |
| Text.LongLinesMembers | src/google_new.py:61 | A line is kept exactly when it is one of the lines and is longer than 10 characters. |
| Text.LongLines | src/google_new.py:61 | `[line for line in content if len(line) > 10]`. It has no contract of its own; it is the specification that LongLinesMembers and LongLinesAppend are about. |
| Text.LongLinesAppend | src/bing_new.py:101 | The filter keeps order: filtering a concatenation concatenates the filtered parts. |
| Text.NonEmptyMembers | src/google_new.py:45-48 | A paragraph text is collected exactly when it is one of the texts and is not empty. |
| Text.CollectTexts | src/bing_new.py:89-92 | The paragraph loop collects exactly the non-empty texts, in order. |
| Text.StrippedLinesTrimmed | src/bing_new.py:98 | Every line of the Bing fallback is non-empty and trimmed. |
| Text.StripSubset | src/bing_new.py:98 | Stripping never adds a character. |
| Text.StrippedLinesFree | src/bing_new.py:98 | Stripped lines of pieces without a character are still without it. |
| Text.JoinEnds | src/bing_new.py:102 | A join of non-empty lines starts with the first line's first character and ends with the last line's last one. |
| Text.JoinTrimmed | src/bing_new.py:102 | Joining non-empty trimmed lines gives trimmed text, which the final `strip()` leaves alone. |
| Articles.AsciiLower | src/google_new.py:31 | Lower-casing keeps the length. |
| Articles.AsciiLowerIdempotent | src/google_new.py:31 | Lower-casing twice is lower-casing once. |
| Articles.ContainsIff | src/google_new.py:35 | `sub in s` holds exactly when `sub` occurs at some position of `s`. |
| Articles.SiteOf | src/google_new.py:35-42 | A netloc is dispatched to Yahoo exactly when its lower-cased form contains `stock.yahoo`, and to UDN exactly when it contains `money.udn.com` but not `stock.yahoo`. |
| Articles.SiteOfIgnoresCase | src/google_new.py:31 | The dispatch ignores letter case. |
| Articles.BingArticleText | src/bing_new.py:46-102 | The Bing article text is computed exactly as specified: empty on a failed download; otherwise the non-empty paragraph texts or, failing those, the stripped fallback lines, filtered to lines over 10 characters, joined and stripped. |
| Articles.GoogleArticleText | src/google_new.py:12-62 | The Google News article text is computed exactly as specified, with the site's selector or, failing it, the fallback's raw lines. |
| Articles.BingArticle | src/bing_new.py:46-102 | The Bing article text. It has no contract of its own; it is the specification that BingArticleText, ParagraphsWin, BingFallbackLines and NotFetched are about. |
| Articles.GoogleArticle | src/google_new.py:12-62 | The Google News article text. It has no contract of its own; it is the specification that GoogleArticleText, OtherSitesUseFallback, GoogleFallbackLines and NotFetched are about. |
| Articles.OtherSitesUseFallback | src/google_new.py:41-42 | A site other than Yahoo and UDN goes straight to the fallback, whatever the page holds. |
| Articles.ParagraphsWin | src/bing_new.py:89-93 | Once some paragraph text is non-empty, the fallback is never consulted, and the text is built from the paragraphs alone. |
| Articles.KeptLines | src/google_new.py:61 | Every kept line is longer than 10 characters and is one of the chosen lines. |
| Articles.BingFallbackLines | src/bing_new.py:93-102 | Without paragraphs, the Bing text is empty when no stripped fallback line is long enough. Otherwise splitting it at newlines gives back exactly the kept lines. |
| Articles.TrimmedLinesRoundTrip | src/bing_new.py:101-102 | Long lines that are trimmed and newline-free survive joining, the final strip, and splitting again. |
| Articles.KeptTrimmed | src/bing_new.py:101 | The length filter keeps lines non-empty, trimmed and newline-free. |
| Articles.GoogleFallbackLines | src/google_new.py:51-62 | Without selected paragraphs, the Google News text is the stripped join of the long raw fallback lines, and that join splits back into them. |
| Articles.NotFetched | src/bing_new.py:47-52 | A failed download gives empty text, in both scrapers. |
| Bing.SanitizeHeader | src/bing_new.py:24-29 | The header value always encodes as Latin-1. It is the argument unchanged exactly when the argument encodes, and `FALLBACK_REFERER` otherwise. |
| Bing.FetchWithRetry | src/bing_new.py:31-44 | The attempt loop yields exactly the specified outcome and sequence of requests and back-offs. |
| Bing.Retry | src/bing_new.py:31-44 | `_fetch_with_retry` as a function of the replies. It has no contract of its own; it is the specification that FetchWithRetry and RetrySuccess … RetryReads are about. |
| Bing.FirstSuccessUnique | src/bing_new.py:32-39 | There is at most one first successful attempt. |
| Bing.RetrySuccess | src/bing_new.py:32-39 | The call returns a response exactly when some attempt up to `max_retries` succeeds, and then it returns the response of the first such attempt. |
| Bing.RetryRaises | src/bing_new.py:40-42 | The call raises exactly when at least one attempt is allowed and every attempt fails. The exception raised is the one of attempt `max_retries`. |
| Bing.RetryNone | src/bing_new.py:32 | The call returns `None` without any request exactly when `max_retries` < 1. |
| Bing.RetryStep | src/bing_new.py:40-44 | A failed attempt below the limit is followed by its back-off, then by the remaining attempts. |
| Bing.RetryLength | src/bing_new.py:32-44 | Requests are made exactly when an attempt is allowed. The last event is a request, and at most `max_retries` requests are made. |
| Bing.RetryRequests | src/bing_new.py:34-37 | The even events are the requests of attempts 1, 2, …, in order. Each carries the sanitised `Referer` header, and only when the referer is non-empty. |
| Bing.RetryBackoffs | src/bing_new.py:41-44 | The odd events are back-offs, each right after a failed attempt that was not the last allowed. |
| Bing.SearchFirst | src/bing_new.py:140-141 | Page p asks for `first = p*10 + 1`. |
| Bing.SearchWindows | src/bing_new.py:140-141 | Consecutive pages ask for consecutive windows of 10 results, and distinct pages for distinct windows. |
| Bing.RetryReads | src/bing_new.py:32 | A fetch depends only on the replies to attempts 1 … `max_retries`. |
| Bing.ScrapeCard | src/bing_new.py:151-172 | One pass of the card loop gives exactly the card's record, or nothing for a card without a link. |
| Bing.ScrapeCards | src/bing_new.py:150-172 | The card loop appends exactly the records of the page's linked cards, in order. The first date that raises ends the scrape. |
| Bing.BingScrape | src/bing_new.py:132-173 | The page loop computes exactly the specified records over pages 0 … `max_pages`−1. A page whose fetch raises is skipped. |
| Bing.EmptyDate | src/bing_new.py:157-159 | A card without a dated span keeps empty `date` and `publish_date`. |
| Bing.CardRecordShape | src/bing_new.py:152-172 | A card gives a record exactly when it has a non-empty link. The record keeps the card's title and link, has its article text and its normalised date, and its date raises exactly when `parse_bing_date` raises. |
| Bing.CardRecord | src/bing_new.py:151-172 | The record of one card. It has no contract of its own; it is the specification that CardRecordShape and ScrapeCard are about. |
| Bing.CardsRecordsShape | src/bing_new.py:150-172 | A page gives at most one record per card, each built as the loop promises. |
| Bing.CardsRecordsErr | src/bing_new.py:160-164 | A page fails exactly when one of its linked cards has a date that raises. |
| Bing.BingPagesShape | src/bing_new.py:139-172 | Every record the scrape returns was built from a linked card. |
| Bing.BingPages | src/bing_new.py:139-173 | The page loop as a function of the replies. It has no contract of its own; it is the specification that BingScrape, BingPagesShape, PageSkipped, BingPagesReads and BingPagesSame are about. |
| Bing.PageSkipped | src/bing_new.py:142-147 | A search page whose three attempts all fail adds nothing, and the loop goes on. |
| Bing.BingPagesReads | src/bing_new.py:139-143 | The scrape reads only the replies to the three attempts at the pages `first = 1, 11, 21, …` below `max_pages`. |
| Bing.BingPagesSame | src/bing_new.py:139-173 | Two reply sources that agree on one page's fetch, and on the scrape after it, agree on the scrape from that page. |
| Google.NewsDateAt | src/google_new.py:148 | The normaliser the item loop applies is `parse_news_date` at the scrape's clock reading. |
| Google.ScrapeItem | src/google_new.py:140-155 | One pass of the item loop gives exactly the item's record, or nothing when its stripped link is empty. |
| Google.ScrapeItems | src/google_new.py:140-155 | The item loop appends exactly the records of the page's linked items, in order. The first date that raises ends the scrape. |
| Google.GoogleScrape | src/google_new.py:129-158 | The page loop computes exactly the specified records for pages `start_page` … `end_page`, stopping at the first page without results. |
| Google.ItemRecordSome | src/google_new.py:141-148 | An item gives a record exactly when its stripped link is non-empty, and it fails exactly when its stripped date raises. |
| Google.ItemRecordShape | src/google_new.py:141-155 | A record holds the stripped title, date and link, the article text of that link, and the normalised date. |
| Google.ItemRecord | src/google_new.py:141-155 | The record of one item. It has no contract of its own; it is the specification that ItemRecordSome, ItemRecordShape and ScrapeItem are about. |
| Google.ItemsRecordsCount | src/google_new.py:140-155 | A page gives exactly one record per linked item. |
| Google.ItemsRecordsShape | src/google_new.py:140-155 | Every record of a page is built as the loop promises. |
| Google.ItemsRecordsErr | src/google_new.py:148 | A page fails exactly when one of its linked items has a date that raises. |
| Google.GooglePagesShape | src/google_new.py:132-155 | Every record the scrape returns is built as the loop promises. |
| Google.GooglePages | src/google_new.py:132-158 | The page loop as a function of the results. It has no contract of its own; it is the specification that GoogleScrape, GooglePagesShape, GooglePagesSame, GooglePagesStop and GooglePagesStep are about. |
| Google.GooglePagesSame | src/google_new.py:132-138 | Two result sources that agree on one page, and on the scrape after it, agree on the scrape from that page. |
| Google.GooglePagesStop | src/google_new.py:136-138 | The loop stops at the first page without results. Pages after it are never consulted, and neither are pages beyond `end_page`. |
| Google.GooglePagesStep | src/google_new.py:132-155 | Without an empty page, the scrape is the page's records followed by those of the later pages. |
| NewsFiles.Underscored | src/bing_new.py:177 | `keyword.replace(' ', '_')` keeps the length, turns every space into `_` and leaves every other character alone. |
| NewsFiles.GoogleOutputFile | src/google_new.py:163-165 | The Google News output file is never empty. It is `output_file` when that is given and non-empty, and the default name otherwise. |
| NewsFiles.NewsFileShape | src/bing_new.py:177-178 | The default name is the keyword with spaces turned into `_`, then `_news.csv`, and it holds no space. |
| NewsFiles.NewsFileSame | src/google_new.py:164-165 | Two keywords share a default file exactly when they differ only by spaces versus underscores. |
| NewsFiles.NewsFileInjective | src/bing_new.py:177-178 | Keywords without underscores get distinct default files. |

## Left out

- Network, HTML and files are not modelled. This covers `requests`, `Ticker.history`, GoogleNews, BeautifulSoup, newspaper3k, `to_csv`, `os.makedirs` and logging. What they return is a parameter of the model: a table or `None`, a reply per attempt, the cards or items of a page, the paragraph texts and fallback text of an article. What they write is an `Outcome` or a list of `Record`s.
- `time.sleep` and `_sleep_backoff` (src/bing_new.py:18-20) are delays in floating point. A back-off is an event in the retry trace, and its length is not modelled.
- `DEFAULT_HEADERS` and the session's default `Referer` (src/bing_new.py:11-16, 135-137) are request metadata with no effect on the logic.
- Bing's site-specific selector chain (src/bing_new.py:58-87) is HTML selection. Its result, the selected paragraph texts, is an input. The Google News dispatch (src/google_new.py:35-42) is modelled.
- Bing's article download retries (src/bing_new.py:48) are folded into the article input: a download either gave HTML or failed.
- `urlparse(url).netloc` is an input, and `lower()` is modelled on ASCII letters only.
- `\d` is ASCII digits only. Python's `\d` and `int()` also accept other Unicode decimal digits. Python's limit on the number of digits `int()` accepts is not modelled.
- The clock is read once per scrape, as the parameter `now`. The source calls `datetime.now()` for each date.
- `%Y` in `strftime` is taken as four zero-padded digits. A platform that does not pad years below 1000 is not modelled.
- Floating point is modelled as exact real arithmetic. `ln` and `sqrt` are parameters, and the lemmas that need it assume `sqrt` is non-negative and maps 0 to 0. NaN and infinities appear only as the cell values `Undef`, `PosInf` and `NegInf`. An infinite input inside a rolling window is treated like a missing one.
- `pd.concat` is modelled only on tables with the same columns. The source would fill missing columns with NaN, but the tables it concatenates here always share their columns.
- `groupby` sorts its keys, and the model iterates them in order of first appearance. The order only affects which group's exception surfaces first, and the dictionary it fills is reordered by the fixed interval list anyway.
- Pipeline.Field: the raw price and volume columns are taken to be free of NaN. A NaN cell (`Value(Undef)`) in one of them makes the model fail with `NotNumeric`, where pandas would go on computing with NaN. Pipeline.Inputs inherits this: its failure cases are the model's, not the source's, for such a table.
- A non-numeric column and the `AttributeError` or `TypeError` raised on a missing field are single failure values. The exact exception class is not modelled.
- The debug probe of src/yf_client.py:41-46 only logs.
- GoogleNews's `set_period` and `search` setup (src/google_new.py:125-127) is folded into the results input.
- A Bing search fetch that returns no response is skipped like a failed one. With `max_retries=3` that cannot happen.
- src/finmind.py and src/main.py are not part of this model.
- Calendar.DateBefore: the sub-day part of `now - timedelta(hours=N)` only decides the day it lands on. The resulting time of day is not returned, because the source formats only the date.
- Smoothing.Ema, Windows.RollingMean, Windows.RollingStd and Windows.RollingMax state only their length in their own contract. Their values are pinned down by the lemmas listed beside them.
- Indicator.Diff, Indicator.Gains, Indicator.Losses, Indicator.Rsi, Indicator.Macd, Indicator.LogReturns, Indicator.Hv, Indicator.Bollinger, Indicator.TrueRange, Indicator.Atr, Indicator.ObvList, Indicator.CumSum, Indicator.Vwap, Indicator.Divergence and Indicator.PriorHighs state only their length in their own contract. Their values are pinned down by the lemmas listed beside them.
- Pipeline.MovingAverageColumns, Pipeline.MacdColumns, Pipeline.BollingerColumns, Pipeline.PriceColumns, Pipeline.VolumeColumns and Pipeline.IndicatorColumns state only the length of each column. The values are those of the Indicator functions they call.

Two warm-up periods are shorter than the indicators' textbook definitions, and the model follows the code:
- RSI is defined from row 1 on, wherever the price has moved, and not only after 14 rows.
- ATR_14 is defined from row 13 on, because the row maximum skips the missing previous close and so the true range of row 0 is high − low.
