/** Cross-sectional statistics of the cumulative return table: for every
    date, the mean, median and sample standard deviation across the ticker
    columns, and twice the standard deviation. Each statistic is appended as
    a new column, and each later statistic drops the earlier statistic
    columns by name before it is computed. */
module Statistics {
  import opened SeqUtil
  import opened Frames

  const MeanCol: string := "mean_pct_chg"
  const MedianCol: string := "median_pct_change"
  const StdCol: string := "std"
  const Std2Col: string := "2std"

  /** The labels of the statistic columns, in the order they are added. */
  const StatsCols: seq<string> := [MeanCol, MedianCol, StdCol, Std2Col]

  /** The numbers of a row, NaN cells skipped (pandas' `skipna`). */
  function Values(cells: seq<Cell>): (r: seq<real>)
    ensures |r| <= |cells|
    ensures forall x :: x in r <==> Num(x) in cells
    ensures (forall i :: 0 <= i < |cells| ==> cells[i].Num?) ==>
              |r| == |cells| && forall i :: 0 <= i < |r| ==> r[i] == cells[i].v
  {
    if |cells| == 0 then []
    else
      var init := cells[..|cells| - 1];
      var rest := Values(init);
      assert cells == init + [cells[|cells| - 1]];
      match cells[|cells| - 1]
      case Num(v) => rest + [v]
      case NaN => rest
  }

  /** Skipping NaN keeps every number as often as the row holds it. */
  lemma {:induction false} ValuesKeepCounts(cells: seq<Cell>)
    ensures forall x :: multiset(Values(cells))[x] == multiset(cells)[Num(x)]
  {
    if |cells| > 0 {
      var init := cells[..|cells| - 1];
      var last := cells[|cells| - 1];
      ValuesKeepCounts(init);
      assert cells == init + [last];
      assert multiset(cells) == multiset(init) + multiset{last};
      match last
      case Num(v) =>
        assert Values(cells) == Values(init) + [v];
        assert multiset(Values(cells)) == multiset(Values(init)) + multiset{v};
      case NaN =>
        assert Values(cells) == Values(init);
    }
  }

  function Id(x: real): real { x }

  /** The arithmetic mean: n copies of it add up to the sum. */
  function Average(xs: seq<real>): (a: real)
    requires |xs| > 0
    ensures a * (|xs| as real) == Sum(xs)
  {
    Unscale(Sum(xs), |xs| as real);
    Sum(xs) / (|xs| as real)
  }

  lemma Unscale(s: real, n: real)
    requires n > 0.0
    ensures (s / n) * n == s
  {
  }

  /** Row mean; NaN when the row holds no number. */
  function Mean(cells: seq<Cell>): (m: Cell)
    ensures m.Num? <==> |Values(cells)| > 0
    ensures m.Num? ==> m.v == Average(Values(cells))
    ensures m.Num? ==> Min(Values(cells)) <= m.v <= Max(Values(cells))
  {
    var xs := Values(cells);
    if |xs| == 0 then NaN
    else
      MeanWithinRange(xs, Min(xs), Max(xs));
      Num(Average(xs))
  }

  /** An average of values in [lo, hi] is in [lo, hi]. */
  lemma MeanWithinRange(xs: seq<real>, lo: real, hi: real)
    requires |xs| > 0
    requires forall i :: 0 <= i < |xs| ==> lo <= xs[i] <= hi
    ensures lo <= Sum(xs) / (|xs| as real) <= hi
  {
    var n, total := |xs| as real, Sum(xs);
    SumBounds(xs, lo, hi);
    DivBounds(total, n, lo, hi);
  }

  lemma DivBounds(s: real, n: real, lo: real, hi: real)
    requires n > 0.0 && n * lo <= s <= n * hi
    ensures lo <= s / n <= hi
  {
  }

  /** Middle element of a sorted sequence, or the average of the two
      middle elements when the length is even. */
  function Middle(d: seq<real>): real
    requires |d| > 0
  {
    if |d| % 2 == 1 then d[|d| / 2] else (d[|d| / 2 - 1] + d[|d| / 2]) / 2.0
  }

  /** Row median; NaN when the row holds no number. Sorting largest first
      leaves the middle elements where ascending order puts them. */
  function Median(cells: seq<Cell>): (m: Cell)
    ensures m.Num? <==> |Values(cells)| > 0
    ensures m.Num? ==> Min(Values(cells)) <= m.v <= Max(Values(cells))
    ensures m.Num? ==>
              2 * |Filter(Values(cells), (x: real) => x >= m.v)| >= |Values(cells)| &&
              2 * |Filter(Values(cells), (x: real) => x <= m.v)| >= |Values(cells)|
    ensures m.Num? ==> forall d :: SortedDesc(d, Id) && multiset(d) == multiset(Values(cells)) ==>
              |d| > 0 && m.v == Middle(d)
  {
    var xs := Values(cells);
    if |xs| == 0 then NaN
    else
      var d := SortDesc(xs, Id);
      MedianSplits(xs, d);
      MiddleOfAnySort(xs, d);
      Num(Middle(d))
  }

  /** Every descending ordering of the row has the same middle. */
  lemma MiddleOfAnySort(xs: seq<real>, d0: seq<real>)
    requires |xs| > 0 && d0 == SortDesc(xs, Id)
    ensures forall d :: SortedDesc(d, Id) && multiset(d) == multiset(xs) ==>
              |d| > 0 && Middle(d) == Middle(d0)
  {
    forall d | SortedDesc(d, Id) && multiset(d) == multiset(xs)
      ensures |d| > 0 && Middle(d) == Middle(d0)
    {
      assert |d| == |multiset(d)| == |multiset(xs)| == |xs|;
      SortedDescUnique(d, d0);
    }
  }

  /** Two descending orderings of the same values are the same sequence. */
  lemma {:induction false} SortedDescUnique(a: seq<real>, b: seq<real>)
    requires SortedDesc(a, Id) && SortedDesc(b, Id)
    requires multiset(a) == multiset(b)
    ensures a == b
  {
    assert |a| == |multiset(a)| == |multiset(b)| == |b|;
    if |a| > 0 {
      HeadsAgree(a, b);
      TailsAgree(a, b);
      TailSorted(a);
      TailSorted(b);
      SortedDescUnique(a[1..], b[1..]);
      assert a == [a[0]] + a[1..] && b == [b[0]] + b[1..];
    }
  }

  /** Both orderings start with the largest value. */
  lemma HeadsAgree(a: seq<real>, b: seq<real>)
    requires SortedDesc(a, Id) && SortedDesc(b, Id)
    requires multiset(a) == multiset(b) && |a| > 0 && |b| > 0
    ensures a[0] == b[0]
  {
    assert a[0] in multiset(b) && b[0] in multiset(a);
    var j :| 0 <= j < |b| && b[j] == a[0];
    var i :| 0 <= i < |a| && a[i] == b[0];
    if j > 0 {
      assert Id(b[0]) >= Id(b[j]);
    }
    if i > 0 {
      assert Id(a[0]) >= Id(a[i]);
    }
  }

  lemma TailsAgree(a: seq<real>, b: seq<real>)
    requires multiset(a) == multiset(b) && |a| > 0 && |b| > 0 && a[0] == b[0]
    ensures multiset(a[1..]) == multiset(b[1..])
  {
    assert a == [a[0]] + a[1..] && b == [b[0]] + b[1..];
    assert multiset(a) == multiset{a[0]} + multiset(a[1..]);
    assert multiset(b) == multiset{b[0]} + multiset(b[1..]);
    forall z
      ensures multiset(a[1..])[z] == multiset(b[1..])[z]
    {
      assert multiset(a)[z] == multiset{a[0]}[z] + multiset(a[1..])[z];
      assert multiset(b)[z] == multiset{b[0]}[z] + multiset(b[1..])[z];
    }
  }

  lemma TailSorted(a: seq<real>)
    requires SortedDesc(a, Id) && |a| > 0
    ensures SortedDesc(a[1..], Id)
  {
    forall i, j | 0 <= i < j < |a| - 1
      ensures Id(a[1..][i]) >= Id(a[1..][j])
    {
      assert Id(a[i + 1]) >= Id(a[j + 1]);
    }
  }

  /** The middle of the sorted row is within range and has at least half of
      the row on each side. */
  lemma MedianSplits(xs: seq<real>, d: seq<real>)
    requires |xs| > 0
    requires d == SortDesc(xs, Id)
    ensures Min(xs) <= Middle(d) <= Max(xs)
    ensures 2 * |Filter(xs, (x: real) => x >= Middle(d))| >= |xs|
    ensures 2 * |Filter(xs, (x: real) => x <= Middle(d))| >= |xs|
  {
    assert |d| == |multiset(d)| == |multiset(xs)| == |xs|;
    var lo, hi := Min(xs), Max(xs);
    assert forall i :: 0 <= i < |d| ==> lo <= d[i] <= hi by {
      assert forall i :: 0 <= i < |d| ==> d[i] in multiset(xs);
    }
    MiddleWithinRange(d, lo, hi);
    MiddleSplitsSorted(d);
    FilterCountPermutation(xs, d, (x: real) => x >= Middle(d));
    FilterCountPermutation(xs, d, (x: real) => x <= Middle(d));
  }

  lemma MiddleWithinRange(d: seq<real>, lo: real, hi: real)
    requires |d| > 0
    requires forall i :: 0 <= i < |d| ==> lo <= d[i] <= hi
    ensures lo <= Middle(d) <= hi
  {
  }

  /** In a descending sequence at least half the elements are >= the middle
      and at least half are <= it. */
  lemma MiddleSplitsSorted(d: seq<real>)
    requires |d| > 0 && SortedDesc(d, Id)
    ensures 2 * |Filter(d, (x: real) => x >= Middle(d))| >= |d|
    ensures 2 * |Filter(d, (x: real) => x <= Middle(d))| >= |d|
  {
    var n, k, m := |d|, |d| / 2, Middle(d);
    var ge := (x: real) => x >= m;
    var le := (x: real) => x <= m;
    var top := if n % 2 == 1 then k + 1 else k;
    AboveMiddle(d, top);
    BelowMiddle(d);
    FilterCountRange(d, ge, 0, top);
    FilterCountRange(d, le, k, n);
  }

  /** The elements before the middle position(s) are at least the middle. */
  lemma AboveMiddle(d: seq<real>, top: nat)
    requires |d| > 0 && SortedDesc(d, Id)
    requires top == if |d| % 2 == 1 then |d| / 2 + 1 else |d| / 2
    ensures top <= |d|
    ensures forall i :: 0 <= i < top ==> d[i] >= Middle(d)
  {
    var k := |d| / 2;
    var pivot := if |d| % 2 == 1 then k else k - 1;
    assert d[pivot] >= Middle(d) by {
      if |d| % 2 == 0 {
        assert Id(d[k - 1]) >= Id(d[k]);
      }
    }
    forall i | 0 <= i < top
      ensures d[i] >= Middle(d)
    {
      if i < pivot {
        assert Id(d[i]) >= Id(d[pivot]);
      }
    }
  }

  /** The elements from position |d| / 2 on are at most the middle. */
  lemma BelowMiddle(d: seq<real>)
    requires |d| > 0 && SortedDesc(d, Id)
    ensures forall i :: |d| / 2 <= i < |d| ==> d[i] <= Middle(d)
  {
    var k := |d| / 2;
    assert d[k] <= Middle(d) by {
      if |d| % 2 == 0 {
        assert Id(d[k - 1]) >= Id(d[k]);
      }
    }
    forall i | k <= i < |d|
      ensures d[i] <= Middle(d)
    {
      if i > k {
        assert Id(d[k]) >= Id(d[i]);
      }
    }
  }

  /** At least as many survivors as there are indices in a range where
      the filter holds. */
  lemma {:induction false} FilterCountRange<T(!new)>(s: seq<T>, p: T -> bool, lo: nat, hi: nat)
    requires lo <= hi <= |s|
    requires forall i :: lo <= i < hi ==> p(s[i])
    ensures |Filter(s, p)| >= hi - lo
  {
    if lo < hi {
      if lo > 0 {
        FilterCountRange(s[1..], p, lo - 1, hi - 1);
      } else {
        FilterCountRange(s[1..], p, 0, hi - 1);
      }
    }
  }

  /** Sum of squared deviations from `mu`. */
  function SumSquares(xs: seq<real>, mu: real): (r: real)
    ensures r >= 0.0
    ensures r == 0.0 <== forall i :: 0 <= i < |xs| ==> xs[i] == mu
  {
    if |xs| == 0 then 0.0
    else
      var d := xs[|xs| - 1] - mu;
      SquareNonnegative(d);
      SumSquares(xs[..|xs| - 1], mu) + d * d
  }

  lemma SquareNonnegative(d: real)
    ensures d * d >= 0.0
  {
    if d < 0.0 {
      assert d * d == (-d) * (-d);
    }
  }

  /** Sample variance, `ddof=1`: squared deviations over n - 1. */
  function SampleVariance(xs: seq<real>): (v: real)
    requires |xs| >= 2
    ensures v >= 0.0
  {
    SumSquares(xs, Sum(xs) / (|xs| as real)) / ((|xs| - 1) as real)
  }

  /** A row of equal values has no spread. */
  lemma ConstantRowHasNoVariance(xs: seq<real>, c: real)
    requires |xs| >= 2
    requires forall i :: 0 <= i < |xs| ==> xs[i] == c
    ensures SampleVariance(xs) == 0.0
  {
    SumBounds(xs, c, c);
    assert Sum(xs) / (|xs| as real) == c;
  }

  /** What the model asks of the square root it is given. */
  ghost predicate IsSqrt(sqrt: real -> real)
  {
    forall v :: 0.0 <= v ==> 0.0 <= sqrt(v) && sqrt(v) * sqrt(v) == v
  }

  /** Row sample standard deviation; NaN with fewer than two numbers. */
  function Std(cells: seq<Cell>, sqrt: real -> real): (s: Cell)
    ensures s.Num? <==> |Values(cells)| >= 2
    ensures s.Num? && IsSqrt(sqrt) ==>
              s.v >= 0.0 && s.v * s.v == SampleVariance(Values(cells))
  {
    var xs := Values(cells);
    if |xs| < 2 then NaN else Num(sqrt(SampleVariance(xs)))
  }

  /** `2 * cell`; NaN stays NaN. */
  function Twice(c: Cell): (r: Cell)
    ensures r.Num? <==> c.Num?
    ensures r.Num? ==> r.v == 2.0 * c.v
  {
    match c
    case Num(v) => Num(2.0 * v)
    case NaN => NaN
  }

  function RowMeans(f: Frame): (r: seq<Cell>)
    requires WellFormed(f)
    ensures |r| == f.rows
    ensures forall t :: 0 <= t < f.rows ==> r[t] == Mean(Row(f, t))
  {
    seq(f.rows, t requires 0 <= t < f.rows => Mean(Row(f, t)))
  }

  function RowMedians(f: Frame): (r: seq<Cell>)
    requires WellFormed(f)
    ensures |r| == f.rows
    ensures forall t :: 0 <= t < f.rows ==> r[t] == Median(Row(f, t))
  {
    seq(f.rows, t requires 0 <= t < f.rows => Median(Row(f, t)))
  }

  function RowStds(f: Frame, sqrt: real -> real): (r: seq<Cell>)
    requires WellFormed(f)
    ensures |r| == f.rows
    ensures forall t :: 0 <= t < f.rows ==> r[t] == Std(Row(f, t), sqrt)
  {
    seq(f.rows, t requires 0 <= t < f.rows => Std(Row(f, t), sqrt))
  }

  function Doubled(cells: seq<Cell>): (r: seq<Cell>)
    ensures |r| == |cells|
    ensures forall t :: 0 <= t < |r| ==> r[t] == Twice(cells[t])
  {
    seq(|cells|, t requires 0 <= t < |cells| => Twice(cells[t]))
  }

  /** No column of the frame carries a statistic label. */
  predicate NoStatLabels(f: Frame)
  {
    forall i :: 0 <= i < |f.cols| ==> f.cols[i].name !in StatsCols
  }

  /** `df["mean_pct_chg"] = df.mean(axis=1)`: the mean over every column. */
  function WithMean(f: Frame): (r: Frame)
    requires WellFormed(f)
    ensures WellFormed(r) && r.rows == f.rows
    ensures MeanCol in Names(r)
    ensures forall t :: 0 <= t < f.rows ==> Lookup(r.cols, MeanCol)[t] == Mean(Row(f, t))
  {
    Assign(f, MeanCol, RowMeans(f))
  }

  /** The median over every column except the mean column. */
  function WithMedian(f: Frame): (r: Frame)
    requires WellFormed(f)
    ensures WellFormed(r) && r.rows == f.rows
    ensures MedianCol in Names(r)
    ensures forall t :: 0 <= t < f.rows ==>
              Lookup(r.cols, MedianCol)[t] == Median(Row(Drop(f, [MeanCol]), t))
  {
    Assign(f, MedianCol, RowMedians(Drop(f, [MeanCol])))
  }

  /** The sample std over every column except the mean and median columns. */
  function WithStd(f: Frame, sqrt: real -> real): (r: Frame)
    requires WellFormed(f)
    ensures WellFormed(r) && r.rows == f.rows
    ensures StdCol in Names(r)
    ensures forall t :: 0 <= t < f.rows ==>
              Lookup(r.cols, StdCol)[t] == Std(Row(Drop(f, [MeanCol, MedianCol]), t), sqrt)
  {
    Assign(f, StdCol, RowStds(Drop(f, [MeanCol, MedianCol]), sqrt))
  }

  /** `df["2std"] = 2 * df["std"]`. */
  function WithStd2(f: Frame): (r: Frame)
    requires WellFormed(f) && StdCol in Names(f)
    ensures WellFormed(r) && r.rows == f.rows
    ensures Std2Col in Names(r)
    ensures forall t :: 0 <= t < f.rows ==>
              |Lookup(f.cols, StdCol)| == f.rows && Lookup(r.cols, Std2Col)[t] == Twice(Lookup(f.cols, StdCol)[t])
  {
    LookupLength(f, StdCol);
    Assign(f, Std2Col, Doubled(Lookup(f.cols, StdCol)))
  }

  /** The four statistic columns, each assigned in turn. */
  function Annotate(f: Frame, sqrt: real -> real): (r: Frame)
    requires WellFormed(f)
    ensures WellFormed(r) && r.rows == f.rows
    ensures forall s :: s in StatsCols ==> s in Names(r)
  {
    StatsAssigned(f, sqrt);
    WithStd2(WithStd(WithMedian(WithMean(f)), sqrt))
  }

  /** The four labels differ from one another. */
  lemma StatLabelsDistinct()
    ensures MedianCol !in [MeanCol]
    ensures StdCol !in [MeanCol, MedianCol]
    ensures Std2Col !in [MeanCol, MedianCol, StdCol]
    ensures [MeanCol, MedianCol, StdCol] + [Std2Col] == StatsCols
  {
  }

  /** When no ticker carries a statistic label, annotating keeps the ticker
      columns in place and appends exactly the four statistic columns, in
      the order mean, median, std, 2std. */
  lemma AnnotateAppendsStatistics(f: Frame, sqrt: real -> real)
    requires WellFormed(f) && NoStatLabels(f)
    ensures Names(Annotate(f, sqrt)) == Names(f) + StatsCols
    ensures forall i :: 0 <= i < |f.cols| ==> Annotate(f, sqrt).cols[i] == f.cols[i]
  {
    FirstTwoLabels(f);
    LastTwoLabels(WithMedian(WithMean(f)), sqrt, Names(f));
  }

  lemma LastTwoLabels(f2: Frame, sqrt: real -> real, n: seq<string>)
    requires WellFormed(f2) && Names(f2) == n + [MeanCol, MedianCol]
    requires StdCol !in n && Std2Col !in n
    ensures Names(WithStd2(WithStd(f2, sqrt))) == n + StatsCols
    ensures forall i :: 0 <= i < |f2.cols| ==> WithStd2(WithStd(f2, sqrt)).cols[i] == f2.cols[i]
  {
    var f3 := WithStd(f2, sqrt);
    StatLabelsDistinct();
    AssignFresh(f2, StdCol, RowStds(Drop(f2, [MeanCol, MedianCol]), sqrt), n, [MeanCol, MedianCol]);
    assert Names(f3) == n + [MeanCol, MedianCol, StdCol];
    AssignFresh(f3, Std2Col, Doubled(Lookup(f3.cols, StdCol)), n, [MeanCol, MedianCol, StdCol]);
  }

  lemma FirstTwoLabels(f: Frame)
    requires WellFormed(f) && NoStatLabels(f)
    ensures Names(WithMedian(WithMean(f))) == Names(f) + [MeanCol, MedianCol]
    ensures forall i :: 0 <= i < |f.cols| ==> WithMedian(WithMean(f)).cols[i] == f.cols[i]
    ensures StdCol !in Names(f) && Std2Col !in Names(f)
  {
    var f1 := WithMean(f);
    var n := Names(f);
    StatLabelsDistinct();
    assert MeanCol !in n && MedianCol !in n && StdCol !in n && Std2Col !in n;
    assert n == n + [];
    AssignFresh(f, MeanCol, RowMeans(f), n, []);
    AssignFresh(f1, MedianCol, RowMedians(Drop(f1, [MeanCol])), n, [MeanCol]);
  }

  /** The statistic column `name` of the annotated frame. */
  function StatColumn(f: Frame, sqrt: real -> real, name: string): (r: seq<Cell>)
    requires WellFormed(f) && name in StatsCols
    ensures |r| == f.rows
  {
    LookupLength(Annotate(f, sqrt), name);
    Lookup(Annotate(f, sqrt).cols, name)
  }

  /** Every statistic label is present after the four assignments, whatever the input. */
  lemma StatsAssigned(f: Frame, sqrt: real -> real)
    requires WellFormed(f)
    ensures forall s :: s in StatsCols ==> s in Names(WithStd2(WithStd(WithMedian(WithMean(f)), sqrt)))
  {
    var f1 := WithMean(f);
    var f2 := WithMedian(f1);
    var f3 := WithStd(f2, sqrt);
    var f4 := WithStd2(f3);
    StatLabelsDistinct();
    assert MeanCol in Names(f2) && MeanCol in Names(f3) && MeanCol in Names(f4);
    assert MedianCol in Names(f3) && MedianCol in Names(f4);
    assert StdCol in Names(f4);
  }

  /** The statistics never see one another: when no ticker carries a
      statistic label, mean, median and std each range over exactly the
      ticker cells of the row. */
  lemma StatisticsOverTickersOnly(f: Frame, sqrt: real -> real, t: nat)
    requires WellFormed(f) && NoStatLabels(f) && t < f.rows
    ensures StatColumn(f, sqrt, MeanCol)[t] == Mean(Row(f, t))
    ensures StatColumn(f, sqrt, MedianCol)[t] == Median(Row(f, t))
    ensures StatColumn(f, sqrt, StdCol)[t] == Std(Row(f, t), sqrt)
  {
    MeanColumnOverTickers(f, sqrt);
    MedianColumnOverTickers(f, sqrt);
    StdColumnOverTickers(f, sqrt);
  }

  /** Median and std are computed on frames that, after their drops, hold
      exactly the ticker columns. */
  lemma DropsRecoverTickers(f: Frame, sqrt: real -> real)
    requires WellFormed(f) && NoStatLabels(f)
    ensures Drop(WithMean(f), [MeanCol]) == f
    ensures Drop(WithMedian(WithMean(f)), [MeanCol, MedianCol]) == f
  {
    var f1 := WithMean(f);
    StatLabelsDistinct();
    assert MeanCol !in Names(f) && MedianCol !in Names(f);
    DropNothing(f, [MeanCol]);
    DropAssigned(f, MeanCol, RowMeans(f), [MeanCol]);
    DropNothing(f, [MeanCol, MedianCol]);
    DropAssigned(f, MeanCol, RowMeans(f), [MeanCol, MedianCol]);
    assert MedianCol !in Names(f1) by {
      FirstTwoLabels(f);
    }
    DropAssigned(f1, MedianCol, RowMedians(f), [MeanCol, MedianCol]);
  }

  lemma MeanColumnOverTickers(f: Frame, sqrt: real -> real)
    requires WellFormed(f) && NoStatLabels(f)
    ensures StatColumn(f, sqrt, MeanCol) == RowMeans(f)
  {
    var f1 := WithMean(f);
    var f2 := WithMedian(f1);
    var f3 := WithStd(f2, sqrt);
    StatLabelsDistinct();
    DropsRecoverTickers(f, sqrt);
    LookupAssignOther(f1, MedianCol, RowMedians(f), MeanCol);
    LookupAssignOther(f2, StdCol, RowStds(f, sqrt), MeanCol);
    LookupLength(f3, StdCol);
    LookupAssignOther(f3, Std2Col, Doubled(Lookup(f3.cols, StdCol)), MeanCol);
  }

  lemma MedianColumnOverTickers(f: Frame, sqrt: real -> real)
    requires WellFormed(f) && NoStatLabels(f)
    ensures StatColumn(f, sqrt, MedianCol) == RowMedians(f)
  {
    var f2 := WithMedian(WithMean(f));
    var f3 := WithStd(f2, sqrt);
    StatLabelsDistinct();
    DropsRecoverTickers(f, sqrt);
    LookupAssignOther(f2, StdCol, RowStds(f, sqrt), MedianCol);
    LookupLength(f3, StdCol);
    LookupAssignOther(f3, Std2Col, Doubled(Lookup(f3.cols, StdCol)), MedianCol);
  }

  lemma StdColumnOverTickers(f: Frame, sqrt: real -> real)
    requires WellFormed(f) && NoStatLabels(f)
    ensures StatColumn(f, sqrt, StdCol) == RowStds(f, sqrt)
  {
    var f3 := WithStd(WithMedian(WithMean(f)), sqrt);
    StatLabelsDistinct();
    DropsRecoverTickers(f, sqrt);
    LookupLength(f3, StdCol);
    LookupAssignOther(f3, Std2Col, Doubled(Lookup(f3.cols, StdCol)), StdCol);
  }

  /** On every date the `2std` column is exactly twice the `std` column. */
  lemma TwiceStdColumn(f: Frame, sqrt: real -> real, t: nat)
    requires WellFormed(f) && t < f.rows
    ensures StatColumn(f, sqrt, Std2Col)[t] == Twice(StatColumn(f, sqrt, StdCol)[t])
  {
    var f3 := WithStd(WithMedian(WithMean(f)), sqrt);
    StatLabelsDistinct();
    LookupLength(f3, StdCol);
    LookupAssignOther(f3, Std2Col, Doubled(Lookup(f3.cols, StdCol)), StdCol);
  }
}
