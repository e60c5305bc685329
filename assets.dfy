/**
 * The assets chart callback (`update_assets_graph`): the selected country's
 * asset rows as bars, ordered by a fixed vocabulary of sixteen asset classes.
 * Converting the Asset column to an ordered categorical turns any value
 * outside the vocabulary into a missing value, which sorts last.
 */
module Assets {
  import opened Wrappers
  import opened Seqs
  import opened Sorting
  import opened Tables

  /** The fixed display order of the asset classes. */
  const AssetOrder: seq<string> := [
    "CIU", "Cash", "Commodities", "Conv. Bonds", "Corp. Bonds", "Digital Assets", "L. EQ",
    "Loans", "Muni./Oth. Pub. Local Debt", "Other", "Oth. Asset Classes",
    "Real Estate", "Repo", "Sov. Bonds", "Str./Sec. Products", "UL EQ"
  ]

  /** A bar: its category (absent when the asset class is not in the vocabulary) and its height. */
  datatype AssetBar = AssetBar(asset: Option<string>, grossExposure: real)

  function InCountry(country: string): AssetRow -> bool
  {
    (r: AssetRow) => r.country == country
  }

  /** The asset rows of one country. */
  function Slice(ds: Dataset, country: string): seq<AssetRow>
  {
    Filter(ds.assets, InCountry(country))
  }

  /** A row with its Asset converted to the ordered category. */
  function Categorize(r: AssetRow): (bar: AssetBar)
    ensures bar.grossExposure == r.grossExposure
    ensures bar.asset.Some? <==> r.asset in AssetOrder
    ensures bar.asset.Some? ==> bar.asset.value == r.asset
  {
    AssetBar(if r.asset in AssetOrder then Some(r.asset) else None, r.grossExposure)
  }

  /**
   * The position of a category in the vocabulary; a missing category comes
   * after all sixteen.
   */
  function Rank(asset: Option<string>): (k: nat)
    ensures k <= |AssetOrder|
    ensures k < |AssetOrder| <==> asset.Some? && asset.value in AssetOrder
    ensures k < |AssetOrder| ==> AssetOrder[k] == asset.value
  {
    if asset.Some? && asset.value in AssetOrder then IndexOf(AssetOrder, asset.value)
    else |AssetOrder|
  }

  predicate ByRank(a: AssetBar, b: AssetBar)
  {
    Rank(a.asset) <= Rank(b.asset)
  }

  lemma ByRankTotalPreorder()
    ensures TotalPreorder(ByRank)
  {
  }

  /** Bars of equal rank show the same category. */
  lemma RankInjective(a: Option<string>, b: Option<string>)
    requires Rank(a) == Rank(b)
    requires a.Some? ==> a.value in AssetOrder
    requires b.Some? ==> b.value in AssetOrder
    ensures a == b
  {
  }

  function NoDataTitle(country: string): string
  {
    "No Asset data for " + country
  }

  /**
   * The placeholder titled for the country when it has no asset rows;
   * otherwise one bar per row of the country, categorized, ordered by the
   * vocabulary with unknown classes last.
   */
  function UpdateAssetsGraph(ds: Dataset, country: string): (chart: Chart<AssetBar>)
    ensures chart.Empty? <==> Slice(ds, country) == []
    ensures chart.Empty? ==> chart.title == "No Asset data for " + country
    ensures chart.Series? ==> multiset(chart.points) == multiset(MapSeq(Slice(ds, country), Categorize))
    ensures chart.Series? ==> Sorted(chart.points, ByRank)
  {
    var slice := Slice(ds, country);
    if slice == [] then Empty(NoDataTitle(country))
    else
      ByRankTotalPreorder();
      Series(SortBy(MapSeq(slice, Categorize), ByRank))
  }

  /** Every bar carries a vocabulary category or none at all. */
  lemma BarsCategorized(ds: Dataset, country: string)
    requires UpdateAssetsGraph(ds, country).Series?
    ensures var bars := UpdateAssetsGraph(ds, country).points;
      forall i :: 0 <= i < |bars| ==> bars[i].asset.Some? ==> bars[i].asset.value in AssetOrder
  {
    var bars := UpdateAssetsGraph(ds, country).points;
    var mapped := MapSeq(Slice(ds, country), Categorize);
    forall i | 0 <= i < |bars| && bars[i].asset.Some? ensures bars[i].asset.value in AssetOrder {
      assert bars[i] in multiset(mapped);
      var j :| 0 <= j < |mapped| && mapped[j] == bars[i];
    }
  }

  /** Bars outside the vocabulary come after every bar inside it. */
  lemma UnknownLast(ds: Dataset, country: string, i: nat, j: nat)
    requires UpdateAssetsGraph(ds, country).Series?
    requires i < j < |UpdateAssetsGraph(ds, country).points|
    requires UpdateAssetsGraph(ds, country).points[i].asset.None?
    ensures UpdateAssetsGraph(ds, country).points[j].asset.None?
  {
    var bars := UpdateAssetsGraph(ds, country).points;
    assert ByRank(bars[i], bars[j]);
    BarsCategorized(ds, country);
  }

  /**
   * Whatever order the rows were loaded in, the chart lists the same
   * categories in the same order.
   */
  lemma CategoriesIndependentOfLoadOrder(ds: Dataset, ds': Dataset, country: string)
    requires multiset(Slice(ds, country)) == multiset(Slice(ds', country))
    ensures UpdateAssetsGraph(ds, country).Empty? == UpdateAssetsGraph(ds', country).Empty?
    ensures var c, c' := UpdateAssetsGraph(ds, country), UpdateAssetsGraph(ds', country);
      c.Series? ==> (|c.points| == |c'.points| &&
        forall i :: 0 <= i < |c.points| ==> c.points[i].asset == c'.points[i].asset)
  {
    var c, c' := UpdateAssetsGraph(ds, country), UpdateAssetsGraph(ds', country);
    var s, s' := Slice(ds, country), Slice(ds', country);
    assert |s| == |multiset(s)| == |multiset(s')| == |s'|;
    if c.Series? {
      MapPermutation(s, s', Categorize);
      ByRankTotalPreorder();
      SortedTiesUnique(c.points, c'.points, ByRank);
      BarsCategorized(ds, country);
      BarsCategorized(ds', country);
      forall i | 0 <= i < |c.points| ensures c.points[i].asset == c'.points[i].asset {
        assert Tied(ByRank, c.points[i], c'.points[i]);
        RankInjective(c.points[i].asset, c'.points[i].asset);
      }
    }
  }
}
