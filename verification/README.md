# Stock performance dashboard — analytics core in Dafny

This project models the analytics behind the Streamlit stock performance
dashboard (`dashboard.py`) and proves properties about them. The dashboard
does the following:

- It ranks a listing of NSE symbols by market capitalisation, with a
  missing cap counted as 0.
- It cuts the ranking into groups of 200 and asks the price source for one
  group's symbols with the `.NS` suffix.
- It turns the closing prices into cumulative percentage returns.
- It appends four cross-sectional statistic columns: `mean_pct_chg`,
  `median_pct_change`, `std` and `2std`.
- It draws the ticker series that pass the chosen "Show stocks" filter,
  followed by four dashed reference lines.

Modules, in dependency order:

| module | file | models |
|---|---|---|
| `SeqUtil` | `seq_util.dfy` | sums, min/max, order-preserving filter, subsequence, descending insertion sort, flatten |
| `Frames` | `frames.dfy` | a labelled table of cells (`Cell = Num(real) \| NaN`) with the pandas operations used: `df[name] = …`, `drop(columns=…)` and column lookup |
| `Universe` | `universe.dfy` | `fillna(0)` and sort of the listing, `ceil(n / 200)` groups, the `iloc` slice of one group, the `.NS` symbols |
| `Returns` | `returns.dfy` | `pct_change()`, `fillna(0)`, `((1 + r).cumprod() - 1) * 100` per column |
| `Statistics` | `statistics.dfy` | row-wise mean, median and sample standard deviation, and the four statistic columns with their drops |
| `Selection` | `selection.dfy` | ticker columns vs. statistic columns, the five filter modes on the last row, trace order |
| `Dashboard` | `dashboard.dfy` | one pass: the empty-download stop, or the annotated table and its traces |
| `Scenario` | `scenario.dfy` | a worked three-ticker example carried through the whole pass |

External inputs are parameters:

- The downloaded price table is a `Frame` argument.
- The square root is a function argument `sqrt`. The predicate
  `Statistics.IsSqrt` says it is a true non-negative square root.

Missing values are the `NaN` cell:

- a missing price;
- a missing market cap;
- the first `pct_change` value;
- a statistic of a row without enough numbers.

The statistics skip `NaN` the way pandas does by default.

The standard deviation is the one the code computes:

- `dashboard.py:84-86` calls pandas' default `std`, with `ddof=1`. That is
  the sample standard deviation: it divides by n - 1 and is `NaN` for
  fewer than two tickers.
- `Statistics.Std` and `Statistics.SampleVariance` model it.
- In the three-ticker example (A 100 → 110, B 50 → 45, C 10 → 10) the std
  of the last-date returns 10, -10 and 0 is 10 (`Scenario.LastStd`).
- In exact reals A (at 10 %) therefore only ties the std, and the "Above
  std" filter draws nothing (`Scenario.ScenarioChart`). The dashboard
  computes in doubles: there the return of A comes out as
  10.000000000000009 and the std as about 10.000000000000004, so rounding
  decides the tie and the strict `>` at `dashboard.py:129` would draw A.

## Model

| member | source | states |
|---|---|---|
| Universe.FillCaps | dashboard.py:32 | every market cap becomes present; missing caps read as 0, present caps and symbols keep their value and position |
| Universe.RankByCap | dashboard.py:31-34 | the ranking is a permutation of the filled listing, every cap present, caps non-increasing from first to last |
| Universe.RankKeepsSymbols | dashboard.py:31-34 | every symbol occurs in the ranking exactly as often as in the listing |
| Universe.TotalGroups | dashboard.py:39-40 | the group count is the ceiling of n / 200: n fits in that many groups and not in one fewer |
| Universe.GroupEnd | dashboard.py:49-52 | the slice end is clamped to the listing length and to 200 past the start, and every selectable group starts before its end |
| Universe.Group | dashboard.py:44-52 | a selectable group holds 1 to 200 listings, namely the consecutive ranked listings from (g - 1) * 200 up to the clamped slice end |
| Universe.GroupsPartitionIndices | dashboard.py:40-52 | ranked index i lies in group g exactly when g = i / 200 + 1, and that group is selectable |
| Universe.GroupsFlatten | dashboard.py:40-52 | concatenating groups 1 … total in order gives back the whole ranking |
| Universe.Symbols | dashboard.py:60 | one symbol per listing, each ends in `.NS`, and removing the suffix gives back the listing's symbol |
| Universe.Request | dashboard.py:31-60 | a selectable group requests one symbol per listing of that group, in rank order: the i-th request is the exchange-suffixed symbol of ranked listing (g - 1) * 200 + i |
| Returns.PctChange | dashboard.py:76 | no change on the first date; a change exists exactly when both prices exist, and the previous price grown by it is the current price |
| Returns.FillZero | dashboard.py:76 | missing changes become 0 and present ones are kept |
| Returns.ReturnColumn | dashboard.py:76-77 | a ticker's cumulative return starts at 0, stays put across a date where either price is missing, and otherwise grows by the ratio of the two prices |
| Returns.CumPct | dashboard.py:77 | the first cumulative return is the first change in percent, and each next one compounds the previous by the day's change |
| Returns.FirstReturnIsZero | dashboard.py:76-77 | every ticker's cumulative return is 0 on the first date |
| Returns.MissingColumnIsFlat | dashboard.py:76-77 | a ticker with no prices at all has cumulative return 0 on every date |
| Returns.Telescoping | dashboard.py:76-77 | for a gap-free column the cumulative return is the percent change from the first price |
| Returns.ReturnsFrame | dashboard.py:76-77 | the return table keeps the price table's labels, order and dates, and each column is the cumulative return of the matching price column |
| Frames.EmptyHoldsNoCell | dashboard.py:69 | a table is empty exactly when none of its columns holds a cell |
| Frames.Lookup | dashboard.py:116-131 | the cells of a column with the label when one exists, none otherwise |
| Frames.Assign | dashboard.py:79 | a new label is appended after the existing columns, an existing label is overwritten in place, the label then reads back the assigned cells, and other labels are untouched |
| Frames.Drop | dashboard.py:80-81 | exactly the columns whose label is not dropped remain, in their order, with the same dates |
| Frames.DropAssigned | dashboard.py:80-86 | appending a column under a new label and then dropping that label gives the same frame as the drop without the assignment |
| Frames.LookupAssignOther | dashboard.py:88 | assigning one label leaves every other label's cells unchanged |
| Statistics.Values | dashboard.py:79-86 | the statistics see the numbers of the row: a value is kept exactly when some cell holds it, and a row without gaps is kept whole and in order |
| Statistics.ValuesKeepCounts | dashboard.py:79-86 | skipping NaN keeps every number exactly as many times as the row holds it, so the mean and median see each ticker once |
| Statistics.Average | dashboard.py:79 | the count of values times the average is their sum |
| Statistics.Mean | dashboard.py:79 | the mean is a number exactly when the row has a number; it is then the average of the row's numbers, between their minimum and maximum |
| Statistics.Median | dashboard.py:80-82 | the median is a number exactly when the row has a number; it is the middle of every descending ordering of the row's numbers (the mean of the two middle ones for an even count), lies between the minimum and maximum, and has at least half the values on each side |
| Statistics.SampleVariance | dashboard.py:84-86 | the sample variance of two or more values is non-negative |
| Statistics.ConstantRowHasNoVariance | dashboard.py:84-86 | a row of equal values has sample variance 0 |
| Statistics.Std | dashboard.py:84-86 | the std is a number exactly when the row has at least two numbers, and then it is the non-negative square root of the sample variance |
| Statistics.Twice | dashboard.py:88 | doubling keeps NaN as NaN and doubles numbers |
| Statistics.WithMean | dashboard.py:79 | the mean column holds, for every date, the mean over every column of the table |
| Statistics.WithMedian | dashboard.py:80-82 | the median column holds, for every date, the median over every column except the mean column |
| Statistics.WithStd | dashboard.py:84-86 | the std column holds, for every date, the sample std over every column except the mean and median columns |
| Statistics.WithStd2 | dashboard.py:88 | the 2std column holds, for every date, twice the std column |
| Statistics.Annotate | dashboard.py:79-88 | the annotated table keeps the dates and carries all four statistic labels |
| Statistics.AnnotateAppendsStatistics | dashboard.py:79-88 | annotating a table of tickers appends the four statistic columns in the order mean, median, std, 2std, and leaves the ticker columns untouched |
| Statistics.StatisticsOverTickersOnly | dashboard.py:79-86 | on every date the mean, the median and the std are computed over the ticker values only, never over an earlier statistic |
| Statistics.TwiceStdColumn | dashboard.py:88 | on every date the 2std cell is twice the std cell |
| Selection.Threshold | dashboard.py:124-131 | each filter mode other than "All stocks" compares against one of the four statistic columns |
| Selection.ThresholdLabels | dashboard.py:124-131 | above mean compares against the mean column, above median against the median, above std against the std and above 2 std against the 2std column |
| Selection.StockCols | dashboard.py:113-114 | the ticker columns are exactly the labels that are not statistic labels, in table order |
| Selection.LastValueOnLastDate | dashboard.py:116 | a present label's last value is its column's cell on the last date; an absent label reads as NaN |
| Selection.MissingNeverShown | dashboard.py:121-131 | under a filter, a ticker whose last value or whose statistic is missing is not drawn |
| Selection.Plotted | dashboard.py:116-141 | a ticker is drawn exactly when its last value is strictly above the mode's statistic on the last date (always under "All stocks"), in table order |
| Selection.AllStocksPlotsEveryTicker | dashboard.py:121-122 | "All stocks" draws every ticker column |
| Selection.NothingAbove | dashboard.py:121-141 | when the mode's statistic ends at or above every ticker's last value, no ticker is drawn |
| Selection.TiesExcluded | dashboard.py:124-131 | a ticker whose last value equals the statistic is not drawn |
| Selection.Traces | dashboard.py:133-172 | the drawn tickers come first, each named after its column, followed by the four reference lines |
| Selection.ReferenceLinesAlwaysLast | dashboard.py:146-172 | the last four traces are the same for every filter mode, and no ticker trace draws a statistic column |
| Selection.StockColsOfAnnotated | dashboard.py:113-114 | on tickers followed by the statistic columns, the ticker columns are exactly the tickers |
| Dashboard.Run | dashboard.py:69-172 | an empty download stops with no chart; otherwise the annotated table has the download's dates, the chart draws one trace per plotted ticker, in table order, and then the four reference lines |
| Dashboard.SuffixedIsNotStatistic | dashboard.py:60-114 | a symbol with the exchange suffix is never mistaken for a statistic column |
| Dashboard.RunChart | dashboard.py:76-141 | for a non-empty download of requested symbols: the table is the tickers then the statistics, every ticker starts at 0 %, the plotted tickers are exactly the downloaded tickers the filter keeps, in download order, judged on the table whose cells `Dashboard.RunTable`, `RunMean`, `RunMedian` and `RunStd` fix; and the ticker traces of the chart draw exactly those tickers |
| Dashboard.RunTable | dashboard.py:76-77 | each ticker column of the chart's table is the cumulative return column of that ticker's prices |
| Dashboard.RunMean | dashboard.py:79 | on every date the table's mean cell is the mean of that date's ticker returns |
| Dashboard.RunMedian | dashboard.py:80-82 | on every date the table's median cell is the median of that date's ticker returns |
| Dashboard.RunStd | dashboard.py:84-88 | on every date the table's std cell is the sample std of that date's ticker returns, and the 2std cell is twice it |
| Dashboard.ReturnsStartAtZero | dashboard.py:76-88 | in the annotated table every ticker column starts at 0 % on the first date |
| Dashboard.RequestedSymbolsAreTickers | dashboard.py:60-67 | any table whose labels are requested symbols passes the ticker-label condition of `Dashboard.RunChart` |
| Scenario.LastReturns | dashboard.py:76-77 | in the example, the last-date returns are A 10 %, B -10 %, C 0 % |
| Scenario.LastMedian | dashboard.py:80-82 | the median of 10, -10, 0 is 0 |
| Scenario.LastStd | dashboard.py:84-88 | the sample std of 10, -10, 0 is 10 and twice it is 20 |
| Scenario.ScenarioChart | dashboard.py:76-131 | for the example: "All stocks" draws A, B and C; above mean and above median draw only A; above std and above 2 std draw nothing; the chart above the mean has one ticker trace (A) before the reference lines, and the chart above the std has only the reference lines. All of it holds in exact reals |

## Left out

- Streamlit widgets are not modelled: the page setup, the date-range picker, the group selectbox, the filter radio and the optional table display (dashboard.py:11-26, 42-47, 54-55, 90-108). The chosen group and filter are parameters. The selectbox's range of options is the `1 <= g <= TotalGroups` precondition.
- Universe.Group and Universe.Request: an empty listing is excluded by `1 <= g <= TotalGroups`, which has no solution when `TotalGroups` is 0. In the code the selectbox then has no option and returns `None`, and `(group_no - 1)` at dashboard.py:49 fails with a type error. The model does not represent that failure.
- Reading `stock_list.csv` and the yfinance download are I/O. The listing and the price table are parameters. The column order of the download is taken as given.
- Plotly figure construction is reduced to the ordered list of traces, each with its legend name and column. Colours, dash styles, opacity and the layout are not modelled.
- Prices and returns are exact reals, not IEEE doubles. Rounding and infinities are not modelled.
- Statistics.Std: the square root is a parameter. Its contract holds when that parameter is a true square root (`IsSqrt`).
- Returns.PctChange: pandas' internal forward fill inside `pct_change` is not modelled. This behaviour depends on the pandas version. A change is present only when both adjacent prices are present; otherwise it is 0 after `fillna(0)`.
- Returns.PctChange: a zero price is excluded by requiring present prices to be positive. With a zero price pandas produces `inf`, and `fillna` does not clear it.
- Universe.RankByCap: the order among equal market caps is left open, because pandas' default sort is not stable. The contract states the permutation and the non-increasing order only.
- Frames.Lookup: a duplicated label is read from its first column. pandas would return a sub-frame instead.
- Selection.LastValue: an absent label reads as NaN, where pandas' `last_vals[col]` raises `KeyError`. Every label the code reads at dashboard.py:116-131 is present, so no call reaches this case.
- Frames.Drop: a label that no column carries is skipped. pandas raises `KeyError` for it. At `dashboard.py:80-86` every dropped label has just been assigned, so the results there are the same.
- Universe.FillCaps: `fillna(0)` at `dashboard.py:32` also fills a missing symbol with 0, and `s + ".NS"` at `dashboard.py:60` then fails with a type error. A `Listing` always carries a symbol, so that path is not modelled.
