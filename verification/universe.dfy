/** The stock universe: the listing of symbols with market capitalisations,
    ranked by capitalisation (missing caps counted as 0), cut into fixed
    groups of 200, and turned into exchange-suffixed ticker symbols for the
    price download. */
module Universe {
  import opened SeqUtil
  import opened Frames

  /** One line of the stock listing; a missing market cap is NaN. */
  datatype Listing = Listing(symbol: string, marketCap: Cell)

  /** Number of symbols per group. */
  const GroupSize: nat := 200

  /** Suffix selecting the National Stock Exchange of India listing. */
  const ExchangeSuffix: string := ".NS"

  /** Market cap as a number; NaN reads as 0 (only reached before filling). */
  function CapValue(l: Listing): real
  {
    match l.marketCap
    case Num(v) => v
    case NaN => 0.0
  }

  /** `fillna(0)` on the listing: every missing cap becomes 0. */
  function FillCaps(list: seq<Listing>): (r: seq<Listing>)
    ensures |r| == |list|
    ensures forall i :: 0 <= i < |r| ==> r[i].symbol == list[i].symbol && r[i].marketCap.Num?
    ensures forall i :: 0 <= i < |r| ==> CapValue(r[i]) == CapValue(list[i])
  {
    seq(|list|, i requires 0 <= i < |list| => Listing(list[i].symbol, Num(CapValue(list[i]))))
  }

  /** The filled listing sorted by market cap, largest first. The order
      among equal caps is whatever the sort produces. */
  function RankByCap(list: seq<Listing>): (r: seq<Listing>)
    ensures |r| == |list|
    ensures multiset(r) == multiset(FillCaps(list))
    ensures forall i :: 0 <= i < |r| ==> r[i].marketCap.Num?
    ensures forall i, j :: 0 <= i < j < |r| ==> CapValue(r[i]) >= CapValue(r[j])
  {
    var filled := FillCaps(list);
    var r := SortDesc(filled, CapValue);
    assert |r| == |multiset(r)| == |multiset(filled)| == |filled|;
    assert forall i :: 0 <= i < |r| ==> r[i] in multiset(filled);
    r
  }

  /** Every symbol of the listing appears in the ranking as often as before. */
  lemma RankKeepsSymbols(list: seq<Listing>, s: string)
    ensures |Filter(RankByCap(list), (l: Listing) => l.symbol == s)|
         == |Filter(list, (l: Listing) => l.symbol == s)|
  {
    var p := (l: Listing) => l.symbol == s;
    FilterCountPermutation(RankByCap(list), FillCaps(list), p);
    FillKeepsSymbols(list, s);
  }

  lemma {:induction false} FillKeepsSymbols(list: seq<Listing>, s: string)
    ensures |Filter(FillCaps(list), (l: Listing) => l.symbol == s)|
         == |Filter(list, (l: Listing) => l.symbol == s)|
  {
    if |list| > 0 {
      FillKeepsSymbols(list[1..], s);
      assert FillCaps(list)[1..] == FillCaps(list[1..]);
    }
  }

  /** `math.ceil(n / 200)`. */
  function TotalGroups(n: nat): (k: nat)
    ensures n <= k * GroupSize
    ensures k == 0 || (k - 1) * GroupSize < n
  {
    (n + GroupSize - 1) / GroupSize
  }

  /** First index of group `g` (1-based). */
  function GroupStart(g: nat): nat
    requires g >= 1
  {
    (g - 1) * GroupSize
  }

  /** One past the last index of group `g`: `iloc` clamps the slice end. */
  function GroupEnd(n: nat, g: nat): (e: nat)
    requires g >= 1
    ensures e <= n && e <= GroupStart(g) + GroupSize
    ensures g <= TotalGroups(n) ==> GroupStart(g) < e
  {
    if GroupStart(g) + GroupSize < n then GroupStart(g) + GroupSize else n
  }

  /** Group `g` of the ranked listing, `iloc[start_idx:end_idx]`. */
  function Group<T>(ranked: seq<T>, g: nat): (r: seq<T>)
    requires 1 <= g <= TotalGroups(|ranked|)
    ensures 0 < |r| <= GroupSize
    ensures GroupStart(g) + |r| == GroupEnd(|ranked|, g) <= |ranked|
    ensures forall i :: 0 <= i < |r| ==> r[i] == ranked[GroupStart(g) + i]
  {
    ranked[GroupStart(g)..GroupEnd(|ranked|, g)]
  }

  /** Every index of the ranked listing lies in exactly one group. */
  lemma GroupsPartitionIndices(n: nat, i: nat, g: nat)
    requires i < n
    requires 1 <= g <= TotalGroups(n)
    ensures GroupStart(g) <= i < GroupEnd(n, g) <==> g == i / GroupSize + 1
    ensures 1 <= i / GroupSize + 1 <= TotalGroups(n)
  {
  }

  /** All groups, in group order. */
  function Groups<T>(ranked: seq<T>): (r: seq<seq<T>>)
    ensures |r| == TotalGroups(|ranked|)
  {
    seq(TotalGroups(|ranked|), k requires 0 <= k < TotalGroups(|ranked|) => Group(ranked, k + 1))
  }

  /** Concatenating the groups in order gives back the ranked listing. */
  lemma GroupsFlatten<T>(ranked: seq<T>)
    ensures Flatten(Groups(ranked)) == ranked
  {
    var n := |ranked|;
    var gs := Groups(ranked);
    GroupsPrefix(ranked, |gs|);
    assert gs[..|gs|] == gs;
    if |gs| > 0 {
      assert GroupEnd(n, |gs|) == n;
    }
  }

  lemma {:induction false} GroupsPrefix<T>(ranked: seq<T>, k: nat)
    requires k <= TotalGroups(|ranked|)
    ensures k == 0 ==> Flatten(Groups(ranked)[..k]) == []
    ensures k > 0 ==> Flatten(Groups(ranked)[..k]) == ranked[..GroupEnd(|ranked|, k)]
  {
    var gs := Groups(ranked);
    if k > 0 {
      GroupsPrefix(ranked, k - 1);
      assert gs[..k][..k - 1] == gs[..k - 1];
      assert gs[..k][k - 1] == Group(ranked, k);
      if k > 1 {
        assert GroupEnd(|ranked|, k - 1) == GroupStart(k);
      }
      assert ranked[..GroupEnd(|ranked|, k)]
          == ranked[..GroupStart(k)] + ranked[GroupStart(k)..GroupEnd(|ranked|, k)];
    }
  }

  /** `s + ".NS"` for each symbol of the group. */
  function Symbols(group: seq<Listing>): (r: seq<string>)
    ensures |r| == |group|
    ensures forall i :: 0 <= i < |r| ==> HasSuffix(r[i]) && StripSuffix(r[i]) == group[i].symbol
  {
    seq(|group|, i requires 0 <= i < |group| => group[i].symbol + ExchangeSuffix)
  }

  predicate HasSuffix(s: string)
  {
    |s| >= |ExchangeSuffix| && s[|s| - |ExchangeSuffix|..] == ExchangeSuffix
  }

  function StripSuffix(s: string): string
    requires HasSuffix(s)
  {
    s[..|s| - |ExchangeSuffix|]
  }

  /** The symbols requested for group `g` of a listing. */
  function Request(list: seq<Listing>, g: nat): (r: seq<string>)
    requires 1 <= g <= TotalGroups(|list|)
    ensures 0 < |r| <= GroupSize
    ensures |r| == GroupEnd(|list|, g) - GroupStart(g)
    ensures forall i :: 0 <= i < |r| ==>
              HasSuffix(r[i]) && StripSuffix(r[i]) == RankByCap(list)[GroupStart(g) + i].symbol
  {
    Symbols(Group(RankByCap(list), g))
  }
}
