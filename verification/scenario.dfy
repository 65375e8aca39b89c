/** A worked three-ticker example: A rises from 100 to 110, B falls from 50
    to 45 and C stays at 10, over two dates. */
module Scenario {
  import opened SeqUtil
  import opened Frames
  import opened Returns
  import opened Statistics
  import opened Selection
  import opened Universe
  import opened Dashboard

  /** The example download: closing prices of A, B and C on two dates. */
  predicate IsExample(prices: Frame)
  {
    prices == Frame(2, [Column("A.NS", [Num(100.0), Num(110.0)]),
                        Column("B.NS", [Num(50.0), Num(45.0)]),
                        Column("C.NS", [Num(10.0), Num(10.0)])])
  }

  /** Last-date cumulative returns: A = 10%, B = -10%, C = 0%. */
  lemma LastReturns(prices: Frame)
    requires IsExample(prices)
    ensures WellFormed(prices) && PositiveFrame(prices)
    ensures ReturnColumn(prices.cols[0].cells)[1] == 10.0
    ensures ReturnColumn(prices.cols[1].cells)[1] == -10.0
    ensures ReturnColumn(prices.cols[2].cells)[1] == 0.0
  {
    assert PositivePrices(prices.cols[0].cells);
    assert PositivePrices(prices.cols[1].cells);
    assert PositivePrices(prices.cols[2].cells);
    Telescoping(prices.cols[0].cells, 1);
    Telescoping(prices.cols[1].cells, 1);
    Telescoping(prices.cols[2].cells, 1);
  }

  /** The last-date row of cumulative returns. */
  function LastRow(): seq<Cell>
  {
    [Num(10.0), Num(-10.0), Num(0.0)]
  }

  lemma LastRowValues()
    ensures Values(LastRow()) == [10.0, -10.0, 0.0]
  {
    var row := LastRow();
    assert row[..2] == [Num(10.0), Num(-10.0)] && row[..2][..1] == [Num(10.0)];
  }

  lemma SumOfLastRow()
    ensures Sum([10.0, -10.0, 0.0]) == 0.0
  {
    var xs := [10.0, -10.0, 0.0];
    var a, b := xs[..2], xs[..1];
    assert a[..1] == b && b[..0] == [];
    assert Sum(b) == 10.0;
    assert Sum(a) == 0.0;
  }

  /** On the last date the mean is 0. */
  lemma LastMean()
    ensures Mean(LastRow()) == Num(0.0)
  {
    LastRowValues();
    SumOfLastRow();
  }

  /** On the last date the median is 0: the middle of 10, 0, -10. */
  lemma LastMedian()
    ensures Median(LastRow()) == Num(0.0)
  {
    LastRowValues();
    var xs := Values(LastRow());
    var d := SortDesc(xs, Id);
    SortedPermutationOfThree(xs, d);
  }

  /** The sample variance of 10, -10, 0: squared deviations 100 + 100 + 0
      over 3 - 1. */
  lemma VarianceOfLastRow()
    ensures SampleVariance([10.0, -10.0, 0.0]) == 100.0
  {
    var xs := [10.0, -10.0, 0.0];
    SumOfLastRow();
    assert Sum(xs) / 3.0 == 0.0;
    var a, b := xs[..2], xs[..1];
    assert a[..1] == b && b[..0] == [];
    assert SumSquares(b, 0.0) == 100.0;
    assert SumSquares(a, 0.0) == 200.0;
    assert SumSquares(xs, 0.0) == 200.0;
  }

  /** With a true square root the sample standard deviation on the last date
      is 10, and twice it is 20. */
  lemma LastStd(sqrt: real -> real)
    requires IsSqrt(sqrt)
    ensures Std(LastRow(), sqrt) == Num(10.0)
    ensures Twice(Std(LastRow(), sqrt)) == Num(20.0)
  {
    LastRowValues();
    VarianceOfLastRow();
    SquareRootOfHundred(sqrt(100.0));
  }

  lemma SquareRootOfHundred(s: real)
    requires s >= 0.0 && s * s == 100.0
    ensures s == 10.0
  {
    assert (s - 10.0) * (s + 10.0) == 0.0;
    assert s + 10.0 > 0.0;
  }

  /** The only descending arrangement of 10, -10 and 0. */
  lemma SortedPermutationOfThree(xs: seq<real>, d: seq<real>)
    requires xs == [10.0, -10.0, 0.0]
    requires SortedDesc(d, Id) && multiset(d) == multiset(xs)
    ensures d == [10.0, 0.0, -10.0]
  {
    assert |d| == |multiset(d)| == 3;
    assert d[0] in multiset(xs) && d[1] in multiset(xs) && d[2] in multiset(xs);
    assert multiset(xs)[10.0] == 1 && multiset(xs)[0.0] == 1 && multiset(xs)[-10.0] == 1;
    assert 10.0 in multiset(d) && 0.0 in multiset(d) && -10.0 in multiset(d);
  }

  /** Filtering a three-element sequence keeps each element on its own merit. */
  lemma FilterOfThree<T(!new)>(a: T, b: T, c: T, p: T -> bool)
    ensures Filter([a, b, c], p) ==
            (if p(a) then [a] else []) + (if p(b) then [b] else []) + (if p(c) then [c] else [])
  {
    assert [a, b, c][1..] == [b, c] && [b, c][1..] == [c] && [c][1..] == [];
    var fc := Filter([c], p);
    assert fc == if p(c) then [c] else [];
    var fb := Filter([b, c], p);
    assert fb == (if p(b) then [b] else []) + fc;
  }

  /** The cumulative returns of the example, before any statistic. */
  lemma CumulativeTable(prices: Frame)
    requires IsExample(prices)
    ensures ThreeTickers(ReturnsFrame(prices))
  {
    LastReturns(prices);
    var cum := ReturnsFrame(prices);
    assert Names(cum) == Names(prices);
    assert Names(prices) == ["A.NS", "B.NS", "C.NS"];
    assert cum.cols[0].cells[1] == Num(10.0);
    assert cum.cols[1].cells[1] == Num(-10.0);
    assert cum.cols[2].cells[1] == Num(0.0);
  }

  /** A two-date return table for A, B and C ending at 10, -10 and 0. */
  predicate ThreeTickers(cum: Frame)
  {
    WellFormed(cum) && cum.rows == 2 &&
    Names(cum) == ["A.NS", "B.NS", "C.NS"] && Row(cum, 1) == LastRow()
  }

  /** The three tickers carry the exchange suffix, so none is a statistic label. */
  lemma ExampleLabels(cum: Frame)
    requires Names(cum) == ["A.NS", "B.NS", "C.NS"]
    ensures NoStatLabels(cum)
  {
    forall i | 0 <= i < |cum.cols|
      ensures cum.cols[i].name !in StatsCols
    {
      var s := cum.cols[i].name;
      assert s == Names(cum)[i];
      assert s[|s| - |ExchangeSuffix|..] == ExchangeSuffix;
      SuffixedIsNotStatistic(s);
    }
  }

  /** The labels of the annotated example table are pairwise distinct. */
  lemma LabelsDistinct(n: seq<string>)
    requires n == ["A.NS", "B.NS", "C.NS"] + StatsCols
    ensures forall i, j :: 0 <= i < j < |n| ==> n[i] != n[j]
  {
    forall i, j | 0 <= i < j < |n|
      ensures n[i] != n[j]
    {
      if j < 3 {
        assert n[i][0] != n[j][0];
      } else if i < 3 {
        assert n[i][|n[i]| - |ExchangeSuffix|..] == ExchangeSuffix;
        SuffixedIsNotStatistic(n[i]);
        assert n[j] in StatsCols;
      } else {
        assert |n[i]| != |n[j]|;
      }
    }
  }

  /** The annotated table's labels are the tickers then the statistics, all distinct. */
  lemma TableLabels(cum: Frame, sqrt: real -> real)
    requires ThreeTickers(cum)
    ensures Names(Annotate(cum, sqrt)) == ["A.NS", "B.NS", "C.NS"] + StatsCols
    ensures forall i :: 0 <= i < 3 ==> Annotate(cum, sqrt).cols[i] == cum.cols[i]
    ensures forall i, j :: 0 <= i < j < |Annotate(cum, sqrt).cols| ==>
              Annotate(cum, sqrt).cols[i].name != Annotate(cum, sqrt).cols[j].name
  {
    ExampleLabels(cum);
    AnnotateAppendsStatistics(cum, sqrt);
    DistinctColumns(Annotate(cum, sqrt));
  }

  lemma DistinctColumns(table: Frame)
    requires Names(table) == ["A.NS", "B.NS", "C.NS"] + StatsCols
    ensures forall i, j :: 0 <= i < j < |table.cols| ==> table.cols[i].name != table.cols[j].name
  {
    var n := Names(table);
    LabelsDistinct(n);
    forall i, j | 0 <= i < j < |table.cols|
      ensures table.cols[i].name != table.cols[j].name
    {
      assert table.cols[i].name == n[i] && table.cols[j].name == n[j];
    }
  }

  /** Last-date value of each ticker column: its cumulative return. */
  lemma LastTickerValue(cum: Frame, sqrt: real -> real, k: nat)
    requires ThreeTickers(cum) && k < 3
    ensures LastValue(Annotate(cum, sqrt), Names(cum)[k]) == LastRow()[k]
  {
    TableLabels(cum, sqrt);
    var table := Annotate(cum, sqrt);
    assert table.cols[k].name == Names(cum)[k];
    LookupDistinct(table.cols, k);
    assert Row(cum, 1)[k] == cum.cols[k].cells[1];
  }

  /** Last-date values of the statistic columns: mean 0, median 0, std 10, 2std 20. */
  lemma LastStatValues(cum: Frame, sqrt: real -> real)
    requires ThreeTickers(cum) && IsSqrt(sqrt)
    ensures LastValue(Annotate(cum, sqrt), MeanCol) == Num(0.0)
    ensures LastValue(Annotate(cum, sqrt), MedianCol) == Num(0.0)
    ensures LastValue(Annotate(cum, sqrt), StdCol) == Num(10.0)
    ensures LastValue(Annotate(cum, sqrt), Std2Col) == Num(20.0)
  {
    ExampleLabels(cum);
    StatisticsOverTickersOnly(cum, sqrt, 1);
    TwiceStdColumn(cum, sqrt, 1);
    LastMean();
    LastMedian();
    LastStd(sqrt);
  }

  /** Under a filter mode whose statistic ends at `v`, the tickers of the
      example ending above `v` are drawn, in table order. */
  lemma PlottedAgainst(table: Frame, m: FilterMode, v: real)
    requires Annotated(table) && StockCols(table) == ["A.NS", "B.NS", "C.NS"]
    requires m != AllStocks && LastValue(table, Threshold(m)) == Num(v)
    requires LastValue(table, "A.NS") == Num(10.0)
    requires LastValue(table, "B.NS") == Num(-10.0)
    requires LastValue(table, "C.NS") == Num(0.0)
    ensures Plotted(table, m) ==
            (if 10.0 > v then ["A.NS"] else []) +
            (if -10.0 > v then ["B.NS"] else []) +
            (if 0.0 > v then ["C.NS"] else [])
  {
    ShowAgainst(table, m, "A.NS", 10.0, v);
    ShowAgainst(table, m, "B.NS", -10.0, v);
    ShowAgainst(table, m, "C.NS", 0.0, v);
    FilterOfThree("A.NS", "B.NS", "C.NS", (c: string) => Show(table, m, c));
  }

  /** A ticker ending at `x` is drawn exactly when `x` exceeds the statistic's `v`. */
  lemma ShowAgainst(table: Frame, m: FilterMode, col: string, x: real, v: real)
    requires m != AllStocks
    requires LastValue(table, col) == Num(x) && LastValue(table, Threshold(m)) == Num(v)
    ensures Show(table, m, col) <==> x > v
  {
  }

  /** An annotated table of A, B and C with the example's last-date values. */
  predicate ExampleTable(table: Frame)
  {
    Annotated(table) && StockCols(table) == ["A.NS", "B.NS", "C.NS"] &&
    LastValue(table, "A.NS") == Num(10.0) &&
    LastValue(table, "B.NS") == Num(-10.0) &&
    LastValue(table, "C.NS") == Num(0.0) &&
    LastValue(table, MeanCol) == Num(0.0) &&
    LastValue(table, MedianCol) == Num(0.0) &&
    LastValue(table, StdCol) == Num(10.0) &&
    LastValue(table, Std2Col) == Num(20.0)
  }

  /** Annotating the example's returns gives the example table. */
  lemma AnnotatedExample(cum: Frame, sqrt: real -> real)
    requires ThreeTickers(cum) && IsSqrt(sqrt)
    ensures ExampleTable(Annotate(cum, sqrt))
  {
    var table := Annotate(cum, sqrt);
    TableLabels(cum, sqrt);
    StockColsOfAnnotated(Names(cum));
    LastTickerValue(cum, sqrt, 0);
    LastTickerValue(cum, sqrt, 1);
    LastTickerValue(cum, sqrt, 2);
    LastStatValues(cum, sqrt);
  }

  /** Which tickers each filter draws from the example table. */
  lemma FilterModes(table: Frame)
    requires ExampleTable(table)
    ensures Plotted(table, AllStocks) == ["A.NS", "B.NS", "C.NS"]
    ensures Plotted(table, AboveMean) == ["A.NS"]
    ensures Plotted(table, AboveMedian) == ["A.NS"]
    ensures Plotted(table, AboveStd) == []
    ensures Plotted(table, Above2Std) == []
  {
    AllStocksPlotsEveryTicker(table);
    AboveMeanExample(table);
    AboveMedianExample(table);
    AboveStdExample(table);
    Above2StdExample(table);
  }

  /** Only A ends above the mean, 0. */
  lemma AboveMeanExample(table: Frame)
    requires ExampleTable(table)
    ensures Plotted(table, AboveMean) == ["A.NS"]
  {
    ThresholdLabels();
    PlottedAgainst(table, AboveMean, 0.0);
  }

  /** Only A ends above the median, 0. */
  lemma AboveMedianExample(table: Frame)
    requires ExampleTable(table)
    ensures Plotted(table, AboveMedian) == ["A.NS"]
  {
    ThresholdLabels();
    PlottedAgainst(table, AboveMedian, 0.0);
  }

  /** No ticker ends above the std, 10: in exact reals A only ties it. */
  lemma AboveStdExample(table: Frame)
    requires ExampleTable(table)
    ensures Plotted(table, AboveStd) == []
  {
    ThresholdLabels();
    PlottedAgainst(table, AboveStd, 10.0);
  }

  /** No ticker ends above twice the std, 20. */
  lemma Above2StdExample(table: Frame)
    requires ExampleTable(table)
    ensures Plotted(table, Above2Std) == []
  {
    ThresholdLabels();
    PlottedAgainst(table, Above2Std, 20.0);
  }

  /** The chart of the example under each filter, in exact reals. The mean
      and the median are 0, so only A is above them; the sample standard
      deviation is 10, which A only equals, so nothing is above it or above
      twice it. Each drawn label has its own trace ahead of the four
      reference lines. */
  lemma ScenarioChart(prices: Frame, sqrt: real -> real)
    requires IsExample(prices) && IsSqrt(sqrt)
    ensures Run(prices, AboveMean, sqrt).Chart?
    ensures Plotted(Run(prices, AllStocks, sqrt).table, AllStocks) == ["A.NS", "B.NS", "C.NS"]
    ensures Plotted(Run(prices, AboveMean, sqrt).table, AboveMean) == ["A.NS"]
    ensures Plotted(Run(prices, AboveMedian, sqrt).table, AboveMedian) == ["A.NS"]
    ensures Plotted(Run(prices, AboveStd, sqrt).table, AboveStd) == []
    ensures Plotted(Run(prices, Above2Std, sqrt).table, Above2Std) == []
    ensures |Run(prices, AboveMean, sqrt).traces| == 5 &&
            Run(prices, AboveMean, sqrt).traces[0].column == "A.NS"
    ensures Run(prices, AboveStd, sqrt).traces == ReferenceTraces
  {
    LastReturns(prices);
    CumulativeTable(prices);
    AnnotatedExample(ReturnsFrame(prices), sqrt);
    FilterModes(Annotate(ReturnsFrame(prices), sqrt));
  }
}
