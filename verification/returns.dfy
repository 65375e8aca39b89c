/** From closing prices to cumulative percentage returns: per column, the
    daily fractional change (`pct_change`), missing changes replaced by 0
    (`fillna(0)`), then compounded (`(1 + r).cumprod() - 1`) and scaled to
    percent. */
module Returns {
  import opened Frames

  /** Every present price is strictly positive, so no change divides by 0. */
  predicate PositivePrices(prices: seq<Cell>)
  {
    forall t :: 0 <= t < |prices| && prices[t].Num? ==> prices[t].v > 0.0
  }

  /** Every price column of the frame has only positive present prices. */
  predicate PositiveFrame(f: Frame)
  {
    forall c :: c in f.cols ==> PositivePrices(c.cells)
  }

  /** `pct_change()` without gap filling: no change on the first date, and a
      change only where both the price and the previous price are present. */
  function PctChange(prices: seq<Cell>): (r: seq<Cell>)
    requires PositivePrices(prices)
    ensures |r| == |prices|
    ensures |r| > 0 ==> r[0] == NaN
    ensures forall t {:trigger r[t]} :: 1 <= t < |r| ==> (r[t].Num? <==> prices[t].Num? && prices[t - 1].Num?)
    ensures forall t {:trigger r[t]} :: 1 <= t < |r| && r[t].Num? ==>
              prices[t - 1].v * (1.0 + r[t].v) == prices[t].v
  {
    seq(|prices|, t requires 0 <= t < |prices| =>
          if t > 0 && prices[t].Num? && prices[t - 1].Num?
          then Num((prices[t].v - prices[t - 1].v) / prices[t - 1].v)
          else NaN)
  }

  /** `fillna(0)`: a missing change counts as no change. */
  function FillZero(cells: seq<Cell>): (r: seq<real>)
    ensures |r| == |cells|
    ensures forall t :: 0 <= t < |r| ==> r[t] == if cells[t].Num? then cells[t].v else 0.0
  {
    seq(|cells|, t requires 0 <= t < |cells| => if cells[t].Num? then cells[t].v else 0.0)
  }

  /** Growth factor of a run of daily changes: the product of (1 + r). */
  function Growth(rs: seq<real>): real
  {
    if |rs| == 0 then 1.0 else Growth(rs[..|rs| - 1]) * (1.0 + rs[|rs| - 1])
  }

  /** `((1 + r).cumprod() - 1) * 100`: compounded percent return to each date. */
  function CumPct(rs: seq<real>): (c: seq<real>)
    ensures |c| == |rs|
    ensures |rs| > 0 ==> c[0] == rs[0] * 100.0
    ensures forall t {:trigger rs[t]} :: 1 <= t < |rs| ==>
              1.0 + c[t] / 100.0 == (1.0 + c[t - 1] / 100.0) * (1.0 + rs[t])
  {
    var c := seq(|rs|, t requires 0 <= t < |rs| => (Growth(rs[..t + 1]) - 1.0) * 100.0);
    forall t | 1 <= t < |rs|
      ensures 1.0 + c[t] / 100.0 == (1.0 + c[t - 1] / 100.0) * (1.0 + rs[t])
    {
      assert rs[..t + 1][..t] == rs[..t];
    }
    assert |rs| > 0 ==> rs[..1][..0] == [];
    assert |rs| > 0 ==> Growth(rs[..1]) == 1.0 + rs[0];
    c
  }

  /** A percent return `after` is `before` compounded by the growth `ratio`. */
  predicate Compounds(before: real, after: real, ratio: real)
  {
    1.0 + after / 100.0 == (1.0 + before / 100.0) * ratio
  }

  /** The cumulative percent return column of one price column. */
  function ReturnColumn(prices: seq<Cell>): (c: seq<real>)
    requires PositivePrices(prices)
    ensures |c| == |prices|
    ensures |c| > 0 ==> c[0] == 0.0
    ensures forall t :: 1 <= t < |c| && !(prices[t].Num? && prices[t - 1].Num?) ==> c[t] == c[t - 1]
    ensures forall t :: 1 <= t < |c| && prices[t].Num? && prices[t - 1].Num? ==>
              Compounds(c[t - 1], c[t], prices[t].v / prices[t - 1].v)
  {
    ReturnSteps(prices);
    CumPct(FillZero(PctChange(prices)))
  }

  /** Day by day, the cumulative return stays put across a missing price and
      otherwise grows by the ratio of the two prices. */
  lemma ReturnSteps(prices: seq<Cell>)
    requires PositivePrices(prices)
    ensures forall t :: 1 <= t < |prices| && !(prices[t].Num? && prices[t - 1].Num?) ==>
              CumPct(FillZero(PctChange(prices)))[t] == CumPct(FillZero(PctChange(prices)))[t - 1]
    ensures forall t :: 1 <= t < |prices| && prices[t].Num? && prices[t - 1].Num? ==>
              Compounds(CumPct(FillZero(PctChange(prices)))[t - 1], CumPct(FillZero(PctChange(prices)))[t],
                        prices[t].v / prices[t - 1].v)
  {
    forall t | 1 <= t < |prices|
      ensures !(prices[t].Num? && prices[t - 1].Num?) ==>
                CumPct(FillZero(PctChange(prices)))[t] == CumPct(FillZero(PctChange(prices)))[t - 1]
      ensures prices[t].Num? && prices[t - 1].Num? ==>
                Compounds(CumPct(FillZero(PctChange(prices)))[t - 1], CumPct(FillZero(PctChange(prices)))[t],
                          prices[t].v / prices[t - 1].v)
    {
      if prices[t].Num? && prices[t - 1].Num? {
        CompoundStep(prices, t);
      } else {
        CumPctStep(FillZero(PctChange(prices)), t);
      }
    }
  }

  lemma CompoundStep(prices: seq<Cell>, t: nat)
    requires PositivePrices(prices) && 1 <= t < |prices|
    requires prices[t].Num? && prices[t - 1].Num?
    ensures Compounds(CumPct(FillZero(PctChange(prices)))[t - 1], CumPct(FillZero(PctChange(prices)))[t],
                      prices[t].v / prices[t - 1].v)
  {
    CumPctStep(FillZero(PctChange(prices)), t);
    GrowthFactor(prices, t);
  }

  /** Where both prices exist, one plus the filled change is their ratio. */
  lemma GrowthFactor(prices: seq<Cell>, t: nat)
    requires PositivePrices(prices) && 1 <= t < |prices|
    requires prices[t].Num? && prices[t - 1].Num?
    ensures 1.0 + FillZero(PctChange(prices))[t] == prices[t].v / prices[t - 1].v
  {
    assert PctChange(prices)[t].Num?;
    OnePlusChange(prices[t - 1].v, prices[t].v);
  }

  lemma OnePlusChange(p: real, q: real)
    requires p > 0.0
    ensures 1.0 + (q - p) / p == q / p
  {
    var a, b := (q - p) / p, q / p;
    assert a * p == q - p;
    assert b * p == q;
    CancelPositive(1.0 + a, b, p);
  }

  lemma CancelPositive(x: real, y: real, p: real)
    requires p > 0.0 && x * p == y * p
    ensures x == y
  {
  }

  lemma CumPctStep(rs: seq<real>, t: nat)
    requires 1 <= t < |rs|
    ensures Compounds(CumPct(rs)[t - 1], CumPct(rs)[t], 1.0 + rs[t])
  {
  }

  /** On the first date every cumulative return is 0. */
  lemma FirstReturnIsZero(prices: seq<Cell>)
    requires PositivePrices(prices) && |prices| > 0
    ensures ReturnColumn(prices)[0] == 0.0
  {
  }

  /** A column with no prices at all has cumulative return 0 on every date. */
  lemma {:induction false} MissingColumnIsFlat(prices: seq<Cell>)
    requires forall t :: 0 <= t < |prices| ==> prices[t] == NaN
    ensures forall t :: 0 <= t < |prices| ==> ReturnColumn(prices)[t] == 0.0
  {
    var rs := FillZero(PctChange(prices));
    var c := ReturnColumn(prices);
    forall t | 0 <= t < |prices|
      ensures c[t] == 0.0
    {
      FlatGrowth(rs, t + 1);
      assert 1.0 + c[t] / 100.0 == 1.0 by {
        if t > 0 {
          assert 1.0 + c[t] / 100.0 == Growth(rs[..t + 1]) by {
            GrowthMatchesCumPct(rs, t);
          }
        }
      }
    }
  }

  /** With no change on any date the growth factor stays 1. */
  lemma {:induction false} FlatGrowth(rs: seq<real>, k: nat)
    requires k <= |rs|
    requires forall t :: 0 <= t < |rs| ==> rs[t] == 0.0
    ensures Growth(rs[..k]) == 1.0
  {
    if k > 0 {
      FlatGrowth(rs, k - 1);
      assert rs[..k][..k - 1] == rs[..k - 1];
    }
  }

  /** One plus the cumulative fraction is the growth factor to that date. */
  lemma {:induction false} GrowthMatchesCumPct(rs: seq<real>, t: nat)
    requires t < |rs|
    ensures 1.0 + CumPct(rs)[t] / 100.0 == Growth(rs[..t + 1])
  {
    var c := CumPct(rs);
    if t == 0 {
      assert rs[..1][..0] == [];
    } else {
      GrowthMatchesCumPct(rs, t - 1);
      assert rs[..t + 1][..t] == rs[..t];
    }
  }

  /** For a gap-free column of positive prices the daily changes telescope:
      the cumulative return is the change from the first price. */
  lemma Telescoping(prices: seq<Cell>, t: nat)
    requires PositivePrices(prices)
    requires forall k :: 0 <= k < |prices| ==> prices[k].Num?
    requires t < |prices|
    ensures ReturnColumn(prices)[t] == (prices[t].v / prices[0].v - 1.0) * 100.0
  {
    var rs := FillZero(PctChange(prices));
    GrowthTelescopes(prices, rs, t);
    GrowthMatchesCumPct(rs, t);
    var g := Growth(rs[..t + 1]);
    var c := ReturnColumn(prices)[t];
    assert 1.0 + c / 100.0 == g;
    assert c == (g - 1.0) * 100.0;
  }

  lemma {:induction false} GrowthTelescopes(prices: seq<Cell>, rs: seq<real>, t: nat)
    requires PositivePrices(prices)
    requires forall k :: 0 <= k < |prices| ==> prices[k].Num?
    requires rs == FillZero(PctChange(prices))
    requires t < |prices|
    ensures Growth(rs[..t + 1]) == prices[t].v / prices[0].v
  {
    if t == 0 {
      assert rs[..1][..0] == [];
      assert rs[0] == 0.0;
      DivSelf(prices[0].v);
    } else {
      GrowthTelescopes(prices, rs, t - 1);
      assert rs[..t + 1][..t] == rs[..t];
      assert Growth(rs[..t + 1]) == Growth(rs[..t]) * (1.0 + rs[t]);
      GrowthFactor(prices, t);
      RatioChain(prices[0].v, prices[t - 1].v, prices[t].v);
    }
  }

  lemma DivSelf(p: real)
    requires p > 0.0
    ensures p / p == 1.0
  {
  }

  lemma RatioChain(a: real, b: real, c: real)
    requires a > 0.0 && b > 0.0
    ensures (b / a) * (c / b) == c / a
  {
  }

  /** The cumulative return frame: one column per price column, same labels. */
  function ReturnsFrame(prices: Frame): (r: Frame)
    requires WellFormed(prices) && PositiveFrame(prices)
    ensures WellFormed(r)
    ensures r.rows == prices.rows
    ensures Names(r) == Names(prices)
    ensures forall i :: 0 <= i < |r.cols| ==> r.cols[i].cells == Nums(ReturnColumn(prices.cols[i].cells))
  {
    var cols := seq(|prices.cols|, i requires 0 <= i < |prices.cols| =>
                      Column(prices.cols[i].name, Nums(ReturnColumn(prices.cols[i].cells))));
    Frame(prices.rows, cols)
  }

  /** Numbers as frame cells. */
  function Nums(xs: seq<real>): (r: seq<Cell>)
    ensures |r| == |xs|
    ensures forall t :: 0 <= t < |r| ==> r[t] == Num(xs[t])
  {
    seq(|xs|, t requires 0 <= t < |xs| => Num(xs[t]))
  }
}
