/**
 * The two dropdowns: their options are the distinct non-missing fund types
 * and countries of the NAV table in order of first appearance, and each
 * starts on its first option.
 */
module Domains {
  import opened Wrappers
  import opened Seqs
  import opened Tables

  /** The fund-type dropdown's options (`FundType.dropna().unique()`). */
  function FundTypes(ds: Dataset): (options: seq<string>)
    ensures forall ft :: ft in options <==> Some(ft) in FundTypeColumn(ds.nav)
    ensures NoDup(options)
  {
    OptionsSpec(FundTypeColumn(ds.nav));
    Distinct(Present(FundTypeColumn(ds.nav)))
  }

  /** The jurisdiction dropdown's options (`Country.dropna().unique()`). */
  function Countries(ds: Dataset): (options: seq<string>)
    ensures forall c :: c in options <==> Some(c) in CountryColumn(ds.nav)
    ensures NoDup(options)
  {
    OptionsSpec(CountryColumn(ds.nav));
    Distinct(Present(CountryColumn(ds.nav)))
  }

  datatype Selection = Selection(fundType: string, country: string)

  /**
   * The initial selection: the first option of each dropdown. With no
   * fund type or no country in the table there is none.
   */
  function DefaultSelection(ds: Dataset): (sel: Option<Selection>)
    ensures sel.Some? ==> sel.value.fundType in FundTypes(ds) && sel.value.country in Countries(ds)
    ensures sel.None? ==> FundTypes(ds) == [] || Countries(ds) == []
  {
    var fundTypes, countries := FundTypes(ds), Countries(ds);
    if |fundTypes| > 0 && |countries| > 0 then Some(Selection(fundTypes[0], countries[0]))
    else None
  }

  /** The options of a column: its non-missing values, each once, in first-appearance order. */
  lemma OptionsSpec(col: seq<Option<string>>)
    ensures forall v :: v in Distinct(Present(col)) <==> Some(v) in col
    ensures NoDup(Distinct(Present(col)))
    ensures FirstAppearanceOrder(Present(col), Distinct(Present(col)))
  {
    DistinctSpec(Present(col));
  }

  /** The fund-type options are exactly the fund types that occur, each once. */
  lemma FundTypesSpec(ds: Dataset)
    ensures forall ft :: ft in FundTypes(ds) <==> exists i :: 0 <= i < |ds.nav| && ds.nav[i].fundType == Some(ft)
    ensures NoDup(FundTypes(ds))
    ensures FirstAppearanceOrder(Present(FundTypeColumn(ds.nav)), FundTypes(ds))
  {
    var col := FundTypeColumn(ds.nav);
    OptionsSpec(col);
    forall ft ensures ft in FundTypes(ds) <==> exists i :: 0 <= i < |ds.nav| && ds.nav[i].fundType == Some(ft) {
      if Some(ft) in col {
        var i :| 0 <= i < |col| && col[i] == Some(ft);
        assert ds.nav[i].fundType == Some(ft);
      }
    }
  }

  /** The country options are exactly the countries that occur, each once. */
  lemma CountriesSpec(ds: Dataset)
    ensures forall c :: c in Countries(ds) <==> exists i :: 0 <= i < |ds.nav| && ds.nav[i].country == Some(c)
    ensures NoDup(Countries(ds))
    ensures FirstAppearanceOrder(Present(CountryColumn(ds.nav)), Countries(ds))
  {
    var col := CountryColumn(ds.nav);
    OptionsSpec(col);
    forall c ensures c in Countries(ds) <==> exists i :: 0 <= i < |ds.nav| && ds.nav[i].country == Some(c) {
      if Some(c) in col {
        var i :| 0 <= i < |col| && col[i] == Some(c);
        assert ds.nav[i].country == Some(c);
      }
    }
  }

  /** The first option of a column is its first non-missing value. */
  lemma FirstOption(col: seq<Option<string>>, k: nat)
    requires k < |col| && col[k].Some?
    requires forall j :: 0 <= j < k ==> col[j].None?
    ensures |Distinct(Present(col))| > 0 && Distinct(Present(col))[0] == col[k].value
  {
    PresentFirst(col, k);
    DistinctFirst(Present(col));
  }

  /**
   * A column has options exactly when some value is present, and its first
   * option is the first value present.
   */
  lemma FirstOptionSpec(col: seq<Option<string>>)
    ensures |Distinct(Present(col))| > 0 <==> exists i :: 0 <= i < |col| && col[i].Some?
    ensures |Distinct(Present(col))| > 0 ==>
      exists k :: 0 <= k < |col| && col[k] == Some(Distinct(Present(col))[0]) &&
        forall j :: 0 <= j < k ==> col[j].None?
  {
    var d := Distinct(Present(col));
    if i :| 0 <= i < |col| && col[i].Some? {
      var k := FirstSome(col, i);
      FirstOption(col, k);
    } else {
      OptionsSpec(col);
    }
  }

  /** The fund-type dropdown has options exactly when some row has a fund type. */
  lemma FundTypesNonEmpty(ds: Dataset)
    ensures |FundTypes(ds)| > 0 <==> exists i :: 0 <= i < |ds.nav| && ds.nav[i].fundType.Some?
  {
    var col := FundTypeColumn(ds.nav);
    FirstOptionSpec(col);
    if i :| 0 <= i < |ds.nav| && ds.nav[i].fundType.Some? {
      assert col[i].Some?;
    }
    if |FundTypes(ds)| > 0 {
      var i :| 0 <= i < |col| && col[i].Some?;
      assert ds.nav[i].fundType.Some?;
    }
  }

  /** The jurisdiction dropdown has options exactly when some row has a country. */
  lemma CountriesNonEmpty(ds: Dataset)
    ensures |Countries(ds)| > 0 <==> exists i :: 0 <= i < |ds.nav| && ds.nav[i].country.Some?
  {
    var col := CountryColumn(ds.nav);
    FirstOptionSpec(col);
    if i :| 0 <= i < |ds.nav| && ds.nav[i].country.Some? {
      assert col[i].Some?;
    }
    if |Countries(ds)| > 0 {
      var i :| 0 <= i < |col| && col[i].Some?;
      assert ds.nav[i].country.Some?;
    }
  }

  /** There is a default selection exactly when some row has a fund type and some row a country. */
  lemma DefaultSelectionExists(ds: Dataset)
    ensures DefaultSelection(ds).Some? <==>
      (exists i :: 0 <= i < |ds.nav| && ds.nav[i].fundType.Some?) &&
      (exists i :: 0 <= i < |ds.nav| && ds.nav[i].country.Some?)
  {
    FundTypesNonEmpty(ds);
    CountriesNonEmpty(ds);
  }

  /** The default fund type is the fund type of the first row that has one. */
  lemma DefaultFundTypeIsFirst(ds: Dataset)
    ensures DefaultSelection(ds).Some? ==>
      exists k :: 0 <= k < |ds.nav| && ds.nav[k].fundType == Some(DefaultSelection(ds).value.fundType) &&
        forall j :: 0 <= j < k ==> ds.nav[j].fundType.None?
  {
    var col := FundTypeColumn(ds.nav);
    FirstOptionSpec(col);
    if DefaultSelection(ds).Some? {
      var sel := DefaultSelection(ds).value;
      assert sel.fundType == FundTypes(ds)[0];
      var k :| 0 <= k < |col| && col[k] == Some(sel.fundType) && forall j :: 0 <= j < k ==> col[j].None?;
      assert ds.nav[k].fundType == Some(sel.fundType);
    }
  }

  /** The default country is the country of the first row that has one. */
  lemma DefaultCountryIsFirst(ds: Dataset)
    ensures DefaultSelection(ds).Some? ==>
      exists k :: 0 <= k < |ds.nav| && ds.nav[k].country == Some(DefaultSelection(ds).value.country) &&
        forall j :: 0 <= j < k ==> ds.nav[j].country.None?
  {
    var col := CountryColumn(ds.nav);
    FirstOptionSpec(col);
    if DefaultSelection(ds).Some? {
      var sel := DefaultSelection(ds).value;
      assert sel.country == Countries(ds)[0];
      var k :| 0 <= k < |col| && col[k] == Some(sel.country) && forall j :: 0 <= j < k ==> col[j].None?;
      assert ds.nav[k].country == Some(sel.country);
    }
  }

  /** The position of the first non-missing value, given that `i` holds one. */
  lemma FirstSome(col: seq<Option<string>>, i: nat) returns (k: nat)
    requires i < |col| && col[i].Some?
    ensures k <= i && col[k].Some? && forall j :: 0 <= j < k ==> col[j].None?
  {
    k := 0;
    while col[k].None?
      invariant k <= i
      invariant forall j :: 0 <= j < k ==> col[j].None?
      decreases i - k
    {
      k := k + 1;
    }
  }
}
