/** Which series the chart draws: the columns are split by label into
    ticker columns and statistic columns, the filter mode picks ticker
    columns by comparing their last value with the matching statistic's
    last value, and the four statistic series are always drawn after them. */
module Selection {
  import opened SeqUtil
  import opened Frames
  import opened Statistics

  /** The five choices of the "Show stocks" filter. */
  datatype FilterMode = AllStocks | AboveMean | AboveMedian | AboveStd | Above2Std

  /** The statistic column a filter mode compares against. */
  function Threshold(m: FilterMode): (s: string)
    requires m != AllStocks
    ensures s in StatsCols
  {
    match m
    case AboveMean => MeanCol
    case AboveMedian => MedianCol
    case AboveStd => StdCol
    case Above2Std => Std2Col
  }

  /** The statistic label each filter mode compares against. */
  lemma ThresholdLabels()
    ensures Threshold(AboveMean) == MeanCol && Threshold(AboveMedian) == MedianCol
    ensures Threshold(AboveStd) == StdCol && Threshold(Above2Std) == Std2Col
  {
  }

  predicate IsStockLabel(name: string)
  {
    name !in StatsCols
  }

  /** Ticker columns: every label that is not a statistic label, in column order. */
  function StockCols(f: Frame): (r: seq<string>)
    ensures forall c :: c in r <==> c in Names(f) && c !in StatsCols
    ensures IsSubsequence(r, Names(f))
  {
    FilterIsSubsequence(Names(f), IsStockLabel);
    Filter(Names(f), IsStockLabel)
  }

  /** `total_pct_df.iloc[-1][name]`: the value of column `name` on the last date. */
  function LastValue(f: Frame, name: string): Cell
  {
    var cells := Lookup(f.cols, name);
    if |cells| == 0 then NaN else cells[|cells| - 1]
  }

  /** The last value of a present label is that column's cell on the last
      date; an absent label reads as NaN. */
  lemma LastValueOnLastDate(f: Frame, name: string)
    requires WellFormed(f) && f.rows > 0
    ensures name !in Names(f) ==> LastValue(f, name) == NaN
    ensures name in Names(f) ==>
              exists i :: 0 <= i < |f.cols| && f.cols[i].name == name &&
                          LastValue(f, name) == f.cols[i].cells[f.rows - 1]
  {
    if name in Names(f) {
      LookupLength(f, name);
      var i :| 0 <= i < |f.cols| && f.cols[i].name == name && Lookup(f.cols, name) == f.cols[i].cells;
      assert f.cols[i] in f.cols;
    } else {
      assert forall i :: 0 <= i < |f.cols| ==> f.cols[i].name != name by {
        forall i | 0 <= i < |f.cols|
          ensures f.cols[i].name != name
        {
          assert Names(f)[i] == f.cols[i].name;
        }
      }
    }
  }

  /** Strict `>` on cells; any comparison with NaN is false. */
  predicate Greater(a: Cell, b: Cell)
  {
    a.Num? && b.Num? && a.v > b.v
  }

  /** Whether the ticker column `col` is drawn under mode `m`. */
  predicate Show(f: Frame, m: FilterMode, col: string)
  {
    m == AllStocks || Greater(LastValue(f, col), LastValue(f, Threshold(m)))
  }

  /** Under a filter, a ticker whose last value or whose statistic is
      missing is never drawn: every comparison with NaN is false. */
  lemma MissingNeverShown(f: Frame, m: FilterMode, col: string)
    requires m != AllStocks
    requires LastValue(f, col) == NaN || LastValue(f, Threshold(m)) == NaN
    ensures !Show(f, m, col)
  {
  }

  /** The frame carries all four statistic columns and at least one date. */
  predicate Annotated(f: Frame)
  {
    WellFormed(f) && f.rows > 0 && forall s :: s in StatsCols ==> s in Names(f)
  }

  /** The ticker columns drawn under mode `m`, in column order. */
  function Plotted(f: Frame, m: FilterMode): (r: seq<string>)
    requires Annotated(f)
    ensures forall c :: c in r <==> c in StockCols(f) && Show(f, m, c)
    ensures IsSubsequence(r, StockCols(f))
  {
    var p := (c: string) => Show(f, m, c);
    FilterIsSubsequence(StockCols(f), p);
    Filter(StockCols(f), p)
  }

  /** "All stocks" draws every ticker column. */
  lemma AllStocksPlotsEveryTicker(f: Frame)
    requires Annotated(f)
    ensures Plotted(f, AllStocks) == StockCols(f)
  {
    FilterAll(StockCols(f), (c: string) => Show(f, AllStocks, c));
  }

  /** A ticker whose last value equals the statistic is not drawn. */
  lemma TiesExcluded(f: Frame, m: FilterMode, col: string)
    requires Annotated(f) && m != AllStocks
    requires LastValue(f, col) == LastValue(f, Threshold(m))
    ensures col !in Plotted(f, m)
  {
  }

  /** When the statistic ends at or above every ticker, nothing is drawn. */
  lemma NothingAbove(f: Frame, m: FilterMode)
    requires Annotated(f) && m != AllStocks
    requires forall i :: 0 <= i < |StockCols(f)| ==>
               !Greater(LastValue(f, StockCols(f)[i]), LastValue(f, Threshold(m)))
    ensures Plotted(f, m) == []
  {
    FilterNone(StockCols(f), (c: string) => Show(f, m, c));
  }

  /** One line of the chart: its legend label and the column it draws. */
  datatype Trace = Trace(legend: string, column: string)

  /** The dashed reference lines, in drawing order. */
  const ReferenceTraces: seq<Trace> :=
    [Trace("Mean", MeanCol), Trace("Median", MedianCol),
     Trace("Std Dev", StdCol), Trace("2 Std Dev", Std2Col)]

  /** Every trace of the chart, in the order they are added to the figure. */
  function Traces(f: Frame, m: FilterMode): (r: seq<Trace>)
    requires Annotated(f)
    ensures |r| == |Plotted(f, m)| + |ReferenceTraces|
    ensures r[|Plotted(f, m)|..] == ReferenceTraces
    ensures forall i :: 0 <= i < |Plotted(f, m)| ==>
              r[i].column == Plotted(f, m)[i] && r[i].legend == Plotted(f, m)[i]
  {
    var tickers := Plotted(f, m);
    seq(|tickers|, i requires 0 <= i < |tickers| => Trace(tickers[i], tickers[i])) + ReferenceTraces
  }

  /** Whatever the filter, the chart ends with the same four reference lines,
      and no ticker trace draws a statistic column. */
  lemma ReferenceLinesAlwaysLast(f: Frame, m1: FilterMode, m2: FilterMode)
    requires Annotated(f)
    ensures Traces(f, m1)[|Traces(f, m1)| - 4..] == Traces(f, m2)[|Traces(f, m2)| - 4..]
    ensures forall i :: 0 <= i < |Traces(f, m1)| - 4 ==> Traces(f, m1)[i].column !in StatsCols
  {
    var p := Plotted(f, m1);
    forall i | 0 <= i < |p|
      ensures p[i] !in StatsCols
    {
      assert p[i] in p;
    }
  }

  /** On a frame of ticker columns followed by the statistic columns, the
      ticker columns are exactly the original columns. */
  lemma StockColsOfAnnotated(tickers: seq<string>)
    requires forall i :: 0 <= i < |tickers| ==> tickers[i] !in StatsCols
    ensures Filter(tickers + StatsCols, IsStockLabel) == tickers
  {
    FilterAppend(tickers, StatsCols, IsStockLabel);
    FilterAll(tickers, IsStockLabel);
    FilterNone(StatsCols, IsStockLabel);
  }
}
