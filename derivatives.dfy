/**
 * The derivatives chart callback (`update_derivatives_graph`): the selected
 * country's derivative rows as bars, in ascending order of the Derivative
 * category.
 */
module Derivatives {
  import opened Seqs
  import opened Sorting
  import opened Strings
  import opened Tables

  function InCountry(country: string): DerivativeRow -> bool
  {
    (r: DerivativeRow) => r.country == country
  }

  /** The derivative rows of one country. */
  function Slice(ds: Dataset, country: string): seq<DerivativeRow>
  {
    Filter(ds.derivatives, InCountry(country))
  }

  /** Rows ordered by their Derivative category, as Python orders strings. */
  predicate ByCategory(a: DerivativeRow, b: DerivativeRow)
  {
    StrLe(a.derivative, b.derivative)
  }

  lemma ByCategoryTotalPreorder()
    ensures TotalPreorder(ByCategory)
  {
    StrLeTotalPreorder();
  }

  function NoDataTitle(country: string): string
  {
    "No Derivatives data for " + country
  }

  /**
   * The placeholder titled for the country when it has no derivative rows;
   * otherwise all of its rows, and only those, in ascending category order.
   */
  function UpdateDerivativesGraph(ds: Dataset, country: string): (chart: Chart<DerivativeRow>)
    ensures chart.Empty? <==> Slice(ds, country) == []
    ensures chart.Empty? ==> chart.title == "No Derivatives data for " + country
    ensures chart.Series? ==> multiset(chart.points) == multiset(Slice(ds, country))
    ensures chart.Series? ==> Sorted(chart.points, ByCategory)
    ensures chart.Series? ==> forall i :: 0 <= i < |chart.points| ==> chart.points[i].country == country
  {
    var slice := Slice(ds, country);
    if slice == [] then Empty(NoDataTitle(country))
    else
      ByCategoryTotalPreorder();
      var sorted := SortBy(slice, ByCategory);
      assert forall i :: 0 <= i < |sorted| ==> sorted[i].country == country by {
        forall i | 0 <= i < |sorted| ensures sorted[i].country == country {
          assert sorted[i] in multiset(slice);
          assert InCountry(country)(sorted[i]);
        }
      }
      Series(sorted)
  }

  /**
   * Whatever order the rows were loaded in, the chart lists the same
   * categories in the same order.
   */
  lemma CategoriesIndependentOfLoadOrder(ds: Dataset, ds': Dataset, country: string)
    requires multiset(Slice(ds, country)) == multiset(Slice(ds', country))
    ensures UpdateDerivativesGraph(ds, country).Empty? == UpdateDerivativesGraph(ds', country).Empty?
    ensures var c, c' := UpdateDerivativesGraph(ds, country), UpdateDerivativesGraph(ds', country);
      c.Series? ==> (|c.points| == |c'.points| &&
        forall i :: 0 <= i < |c.points| ==> c.points[i].derivative == c'.points[i].derivative)
  {
    var c, c' := UpdateDerivativesGraph(ds, country), UpdateDerivativesGraph(ds', country);
    var s, s' := Slice(ds, country), Slice(ds', country);
    assert |s| == |multiset(s)| == |multiset(s')| == |s'|;
    if c.Series? {
      ByCategoryTotalPreorder();
      SortedTiesUnique(c.points, c'.points, ByCategory);
      forall i | 0 <= i < |c.points| ensures c.points[i].derivative == c'.points[i].derivative {
        assert Tied(ByCategory, c.points[i], c'.points[i]);
        StrLeAntisymmetric(c.points[i].derivative, c'.points[i].derivative);
      }
    }
  }
}
