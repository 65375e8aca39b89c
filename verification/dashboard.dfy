/** The whole dashboard pass for one choice of (group, filter mode): the
    symbols requested for the group, and, for the price table the download
    returns, either the "no data" stop or the annotated return table together
    with the ordered list of chart traces. The download itself and the square
    root are supplied from outside. */
module Dashboard {
  import opened SeqUtil
  import opened Frames
  import opened Universe
  import opened Returns
  import opened Statistics
  import opened Selection

  /** Result of one pass: the empty-download warning, or a chart. */
  datatype Outcome = NoData | Chart(table: Frame, traces: seq<Trace>)

  /** One pass over a downloaded price table. */
  function Run(prices: Frame, mode: FilterMode, sqrt: real -> real): (r: Outcome)
    requires WellFormed(prices) && PositiveFrame(prices)
    ensures r.NoData? <==> IsEmpty(prices)
    ensures r.Chart? ==> Annotated(r.table) && r.table.rows == prices.rows
    ensures r.Chart? ==> |r.traces| >= |ReferenceTraces| &&
                         r.traces[|r.traces| - |ReferenceTraces|..] == ReferenceTraces
    ensures r.Chart? ==> |r.traces| == |Plotted(r.table, mode)| + |ReferenceTraces| &&
                         forall i :: 0 <= i < |Plotted(r.table, mode)| ==>
                           r.traces[i].column == Plotted(r.table, mode)[i]
  {
    if IsEmpty(prices) then NoData
    else
      var table := Annotate(ReturnsFrame(prices), sqrt);
      Chart(table, Traces(table, mode))
  }

  /** A symbol carrying the exchange suffix is never a statistic label. */
  lemma SuffixedIsNotStatistic(s: string)
    requires HasSuffix(s)
    ensures s !in StatsCols
  {
    assert s[|s| - 1] == ExchangeSuffix[2] == 'S';
  }

  /** The columns of a download keyed by requested symbols. */
  predicate SuffixedColumns(prices: Frame)
  {
    forall i :: 0 <= i < |prices.cols| ==> HasSuffix(prices.cols[i].name)
  }

  /** End to end: for a non-empty download whose columns are requested
      symbols, the table is the ticker columns followed by the four
      statistics; every ticker starts at 0% on the first date; the drawn
      tickers are exactly the downloaded tickers the filter keeps, in
      download order; and the four reference lines come last. */
  lemma RunChart(prices: Frame, mode: FilterMode, sqrt: real -> real)
    requires WellFormed(prices) && PositiveFrame(prices) && !IsEmpty(prices)
    requires SuffixedColumns(prices)
    ensures Run(prices, mode, sqrt).Chart?
    ensures Names(Run(prices, mode, sqrt).table) == Names(prices) + StatsCols
    ensures forall i :: 0 <= i < |prices.cols| ==>
              Run(prices, mode, sqrt).table.cols[i].cells[0] == Num(0.0)
    ensures StockCols(Run(prices, mode, sqrt).table) == Names(prices)
    ensures IsSubsequence(Plotted(Run(prices, mode, sqrt).table, mode), Names(prices))
    ensures forall c :: c in Plotted(Run(prices, mode, sqrt).table, mode) <==>
              c in Names(prices) && Show(Run(prices, mode, sqrt).table, mode, c)
    ensures forall c :: (exists i :: 0 <= i < |Run(prices, mode, sqrt).traces| - |ReferenceTraces| &&
                                     Run(prices, mode, sqrt).traces[i].column == c) <==>
              c in Names(prices) && Show(Run(prices, mode, sqrt).table, mode, c)
  {
    var cum := ReturnsFrame(prices);
    var table := Annotate(cum, sqrt);
    TickersAreNotStatistics(prices);
    AnnotateAppendsStatistics(cum, sqrt);
    ReturnsStartAtZero(prices, sqrt);
    StockColsOfAnnotated(Names(prices));
    DrawnAreTickers(Run(prices, mode, sqrt), mode);
  }

  /** The ticker traces of a chart draw exactly the plotted labels. */
  lemma DrawnAreTickers(r: Outcome, mode: FilterMode)
    requires r.Chart? && Annotated(r.table)
    requires |r.traces| == |Plotted(r.table, mode)| + |ReferenceTraces|
    requires forall i :: 0 <= i < |Plotted(r.table, mode)| ==> r.traces[i].column == Plotted(r.table, mode)[i]
    ensures forall c :: (exists i :: 0 <= i < |r.traces| - |ReferenceTraces| && r.traces[i].column == c) <==>
              c in Plotted(r.table, mode)
  {
    var p := Plotted(r.table, mode);
    forall c | c in p
      ensures exists i :: 0 <= i < |r.traces| - |ReferenceTraces| && r.traces[i].column == c
    {
      var i :| 0 <= i < |p| && p[i] == c;
      assert r.traces[i].column == c;
    }
  }

  /** For a non-empty download of requested symbols, each ticker column of
      the table is the cumulative return column of its prices. */
  lemma RunTable(prices: Frame, mode: FilterMode, sqrt: real -> real)
    requires WellFormed(prices) && PositiveFrame(prices) && !IsEmpty(prices)
    requires SuffixedColumns(prices)
    ensures Run(prices, mode, sqrt).Chart?
    ensures forall i :: 0 <= i < |prices.cols| ==>
              Run(prices, mode, sqrt).table.cols[i].cells == Nums(ReturnColumn(prices.cols[i].cells))
  {
    var cum := ReturnsFrame(prices);
    TickersAreNotStatistics(prices);
    AnnotateAppendsStatistics(cum, sqrt);
    var table := Run(prices, mode, sqrt).table;
    assert table == Annotate(cum, sqrt);
    forall i | 0 <= i < |prices.cols|
      ensures table.cols[i].cells == Nums(ReturnColumn(prices.cols[i].cells))
    {
      assert table.cols[i] == cum.cols[i];
    }
  }

  /** On every date the mean column of the table is the mean of that date's
      ticker returns. */
  lemma RunMean(prices: Frame, mode: FilterMode, sqrt: real -> real, t: nat)
    requires WellFormed(prices) && PositiveFrame(prices) && SuffixedColumns(prices)
    requires !IsEmpty(prices) && t < prices.rows
    ensures Run(prices, mode, sqrt).Chart?
    ensures |Lookup(Run(prices, mode, sqrt).table.cols, MeanCol)| == prices.rows
    ensures Lookup(Run(prices, mode, sqrt).table.cols, MeanCol)[t] == Mean(Row(ReturnsFrame(prices), t))
  {
    TickersAreNotStatistics(prices);
    StatsAt(ReturnsFrame(prices), sqrt, t);
  }

  /** On every date the median column of the table is the median of that
      date's ticker returns. */
  lemma RunMedian(prices: Frame, mode: FilterMode, sqrt: real -> real, t: nat)
    requires WellFormed(prices) && PositiveFrame(prices) && SuffixedColumns(prices)
    requires !IsEmpty(prices) && t < prices.rows
    ensures Run(prices, mode, sqrt).Chart?
    ensures |Lookup(Run(prices, mode, sqrt).table.cols, MedianCol)| == prices.rows
    ensures Lookup(Run(prices, mode, sqrt).table.cols, MedianCol)[t] == Median(Row(ReturnsFrame(prices), t))
  {
    TickersAreNotStatistics(prices);
    StatsAt(ReturnsFrame(prices), sqrt, t);
  }

  /** On every date the std column of the table is the sample standard
      deviation of that date's ticker returns, and the 2std column twice it. */
  lemma RunStd(prices: Frame, mode: FilterMode, sqrt: real -> real, t: nat)
    requires WellFormed(prices) && PositiveFrame(prices) && SuffixedColumns(prices)
    requires !IsEmpty(prices) && t < prices.rows
    ensures Run(prices, mode, sqrt).Chart?
    ensures |Lookup(Run(prices, mode, sqrt).table.cols, StdCol)| == prices.rows
    ensures |Lookup(Run(prices, mode, sqrt).table.cols, Std2Col)| == prices.rows
    ensures Lookup(Run(prices, mode, sqrt).table.cols, StdCol)[t] == Std(Row(ReturnsFrame(prices), t), sqrt)
    ensures Lookup(Run(prices, mode, sqrt).table.cols, Std2Col)[t] == Twice(Std(Row(ReturnsFrame(prices), t), sqrt))
  {
    TickersAreNotStatistics(prices);
    StatsAt(ReturnsFrame(prices), sqrt, t);
  }

  lemma StatsAt(cum: Frame, sqrt: real -> real, t: nat)
    requires WellFormed(cum) && NoStatLabels(cum) && t < cum.rows
    ensures |Lookup(Annotate(cum, sqrt).cols, MeanCol)| == cum.rows
    ensures |Lookup(Annotate(cum, sqrt).cols, MedianCol)| == cum.rows
    ensures |Lookup(Annotate(cum, sqrt).cols, StdCol)| == cum.rows
    ensures |Lookup(Annotate(cum, sqrt).cols, Std2Col)| == cum.rows
    ensures Lookup(Annotate(cum, sqrt).cols, MeanCol)[t] == Mean(Row(cum, t))
    ensures Lookup(Annotate(cum, sqrt).cols, MedianCol)[t] == Median(Row(cum, t))
    ensures Lookup(Annotate(cum, sqrt).cols, StdCol)[t] == Std(Row(cum, t), sqrt)
    ensures Lookup(Annotate(cum, sqrt).cols, Std2Col)[t] == Twice(Std(Row(cum, t), sqrt))
  {
    StatisticsOverTickersOnly(cum, sqrt, t);
    TwiceStdColumn(cum, sqrt, t);
  }

  /** No suffixed label of the download is a statistic label, before or
      after the returns are computed. */
  lemma TickersAreNotStatistics(prices: Frame)
    requires WellFormed(prices) && PositiveFrame(prices) && SuffixedColumns(prices)
    ensures NoStatLabels(ReturnsFrame(prices))
    ensures forall i :: 0 <= i < |Names(prices)| ==> Names(prices)[i] !in StatsCols
  {
    var cum := ReturnsFrame(prices);
    forall i | 0 <= i < |prices.cols|
      ensures cum.cols[i].name !in StatsCols && Names(prices)[i] !in StatsCols
    {
      assert cum.cols[i].name == Names(prices)[i] == prices.cols[i].name;
      SuffixedIsNotStatistic(prices.cols[i].name);
    }
  }

  /** In the annotated table every ticker column starts at 0 %. */
  lemma ReturnsStartAtZero(prices: Frame, sqrt: real -> real)
    requires WellFormed(prices) && PositiveFrame(prices) && !IsEmpty(prices)
    requires NoStatLabels(ReturnsFrame(prices))
    ensures forall i :: 0 <= i < |prices.cols| ==>
              Annotate(ReturnsFrame(prices), sqrt).cols[i].cells[0] == Num(0.0)
  {
    AnnotateAppendsStatistics(ReturnsFrame(prices), sqrt);
    ReturnsFrameStartsAtZero(prices);
  }

  lemma ReturnsFrameStartsAtZero(prices: Frame)
    requires WellFormed(prices) && PositiveFrame(prices) && prices.rows > 0
    ensures forall i :: 0 <= i < |prices.cols| ==> ReturnsFrame(prices).cols[i].cells[0] == Num(0.0)
  {
    forall i | 0 <= i < |prices.cols|
      ensures ReturnsFrame(prices).cols[i].cells[0] == Num(0.0)
    {
      var c := prices.cols[i];
      assert c in prices.cols;
      FirstReturnIsZero(c.cells);
    }
  }

  /** The symbols a dashboard pass asks the price source for: group `g` of
      the listing ranked by market cap, with the exchange suffix. Any table
      whose columns are among them passes the label check of `RunChart`. */
  lemma RequestedSymbolsAreTickers(list: seq<Listing>, g: nat, prices: Frame)
    requires 1 <= g <= TotalGroups(|list|)
    requires forall i :: 0 <= i < |prices.cols| ==> prices.cols[i].name in Request(list, g)
    ensures SuffixedColumns(prices)
    ensures NoStatLabels(prices)
  {
    forall i | 0 <= i < |prices.cols|
      ensures HasSuffix(prices.cols[i].name) && prices.cols[i].name !in StatsCols
    {
      var syms := Request(list, g);
      var j :| 0 <= j < |syms| && syms[j] == prices.cols[i].name;
      SuffixedIsNotStatistic(syms[j]);
    }
  }
}
