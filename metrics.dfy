/**
 * The summary panel callback (`update_metrics`): totals for the selected
 * fund type, the selected country's part of them, the country's mean
 * leverage figures, the number of reporting jurisdictions and the fund-type
 * label.
 */
module Metrics {
  import opened Wrappers
  import opened Seqs
  import opened Tables

  /** The row mask `FundType == fundType`; a missing fund type never matches. */
  function HasFundType(fundType: string): NavRow -> bool
  {
    (r: NavRow) => r.fundType == Some(fundType)
  }

  /** The row mask `Country == country`; a missing country never matches. */
  function InCountry(country: string): NavRow -> bool
  {
    (r: NavRow) => r.country == Some(country)
  }

  /** The NAV rows of one fund type (`filtered`). */
  function FundTypeSlice(ds: Dataset, fundType: string): seq<NavRow>
  {
    Filter(ds.nav, HasFundType(fundType))
  }

  /** The selected country's rows within the fund-type slice (`country_df`). */
  function CountrySlice(ds: Dataset, fundType: string, country: string): seq<NavRow>
  {
    Filter(FundTypeSlice(ds, fundType), InCountry(country))
  }

  function Nav(r: NavRow): real { r.nav }
  function Funds(r: NavRow): nat { r.funds }
  function GrossLeverageIncl(r: NavRow): real { r.grossLeverageIncl }
  function GrossLeverageExcl(r: NavRow): real { r.grossLeverageExcl }
  function SyntheticLeverage(r: NavRow): real { r.syntheticLeverage }

  /**
   * A caption's number. `Fallback` is the fixed caption the panel shows
   * instead of a computed figure ("0%" for a share, "0.0x NAV" for a
   * leverage); its number is 0.
   */
  datatype Figure = Computed(value: real) | Fallback
  {
    function Value(): real
    {
      match this
      case Computed(v) => v
      case Fallback => 0.0
    }
  }

  /**
   * `share` is `part` as a percentage of `total`: the fallback exactly when
   * the total is zero, and otherwise the number that, taken as a percentage
   * of the total, gives back the part.
   */
  predicate IsShare(share: Figure, part: real, total: real)
  {
    && (share.Fallback? <==> total == 0.0)
    && (share.Computed? ==> share.value * total == part * 100.0)
  }

  /** `part / total * 100`, or the fallback when the total is zero. */
  function Share(part: real, total: real): (share: Figure)
    ensures IsShare(share, part, total)
  {
    if total != 0.0 then
      PercentOfTotal(part, total);
      Computed(part / total * 100.0)
    else Fallback
  }

  lemma PercentOfTotal(part: real, total: real)
    requires total != 0.0
    ensures part / total * 100.0 * total == part * 100.0
  {
    calc {
      part / total * 100.0 * total;
      (part / total * total) * 100.0;
      part * 100.0;
    }
  }

  /** The mean of a leverage column over the country slice, or the fallback when it is empty. */
  function MeanLeverage(slice: seq<NavRow>, column: NavRow -> real): Figure
  {
    if |slice| == 0 then Fallback else Computed(Mean(slice, column))
  }

  const KnownFundTypes: set<string> := {"Hedge Funds", "Open Ended Funds", "Close Ended Funds"}

  /** The panel heading for a fund type (`name_map.get(fund_type, "")`). */
  function FundLabel(fundType: string): (heading: string)
    ensures heading != "" <==> fundType in KnownFundTypes
    ensures heading in {"All QHFs*", "All OEFs*", "All CEFs*", ""}
  {
    match fundType
    case "Hedge Funds" => "All QHFs*"
    case "Open Ended Funds" => "All OEFs*"
    case "Close Ended Funds" => "All CEFs*"
    case _ => ""
  }

  /** The number of distinct non-missing countries (`nunique`). */
  function JurisdictionCount(rows: seq<NavRow>): nat
  {
    |set i | 0 <= i < |rows| && rows[i].country.Some? :: rows[i].country.value|
  }

  /** The twelve outputs of the panel, captions kept as numbers. */
  datatype Panel = Panel(
    heading: string,
    jurisdictions: nat,
    totalNav: real,
    totalFunds: nat,
    country: string,
    countryNav: real,
    navShare: Figure,
    countryFunds: nat,
    fundsShare: Figure,
    grossLeverageIncl: Figure,
    grossLeverageExcl: Figure,
    syntheticLeverage: Figure)

  /**
   * The panel for a selection: each share falls back exactly when its total
   * is zero and otherwise is the country's part of the total in percent;
   * the leverage figures fall back exactly when the country has no rows; the
   * jurisdiction count never exceeds the fund type's rows.
   */
  function UpdateMetrics(ds: Dataset, fundType: string, country: string): (p: Panel)
    ensures p.totalNav == Sum(FundTypeSlice(ds, fundType), Nav)
    ensures p.totalFunds == SumNat(FundTypeSlice(ds, fundType), Funds)
    ensures p.countryNav == Sum(CountrySlice(ds, fundType, country), Nav)
    ensures p.countryFunds == SumNat(CountrySlice(ds, fundType, country), Funds)
    ensures p.country == country
    ensures p.heading != "" <==> fundType in KnownFundTypes
    ensures p.jurisdictions <= |FundTypeSlice(ds, fundType)|
    ensures IsShare(p.navShare, p.countryNav, p.totalNav)
    ensures IsShare(p.fundsShare, p.countryFunds as real, p.totalFunds as real)
    ensures CountrySlice(ds, fundType, country) == [] <==> p.grossLeverageIncl.Fallback?
    ensures CountrySlice(ds, fundType, country) == [] <==> p.grossLeverageExcl.Fallback?
    ensures CountrySlice(ds, fundType, country) == [] <==> p.syntheticLeverage.Fallback?
  {
    JurisdictionCountSpec(ds, fundType);
    var filtered := FundTypeSlice(ds, fundType);
    var slice := CountrySlice(ds, fundType, country);
    var totalNav := Sum(filtered, Nav);
    var totalFunds := SumNat(filtered, Funds);
    var countryNav := Sum(slice, Nav);
    var countryFunds := SumNat(slice, Funds);
    Panel(
      FundLabel(fundType),
      JurisdictionCount(filtered),
      totalNav,
      totalFunds,
      country,
      countryNav,
      Share(countryNav, totalNav),
      countryFunds,
      Share(countryFunds as real, totalFunds as real),
      MeanLeverage(slice, GrossLeverageIncl),
      MeanLeverage(slice, GrossLeverageExcl),
      MeanLeverage(slice, SyntheticLeverage))
  }

  /**
   * The country slice lies inside the fund-type slice, which lies inside the
   * NAV table; its rows are exactly the table's rows of that fund type and
   * country.
   */
  lemma SlicesNested(ds: Dataset, fundType: string, country: string)
    ensures |CountrySlice(ds, fundType, country)| <= |FundTypeSlice(ds, fundType)| <= |ds.nav|
    ensures forall r :: r in CountrySlice(ds, fundType, country) <==>
      r in ds.nav && r.fundType == Some(fundType) && r.country == Some(country)
    ensures forall r :: r in CountrySlice(ds, fundType, country) ==> r in FundTypeSlice(ds, fundType)
  {
  }

  /** `part / total * 100` lies in [0, 100] when 0 <= part <= total and total is not zero. */
  lemma ShareBounded(part: real, total: real)
    requires 0.0 <= part <= total
    ensures Share(part, total).Fallback? <==> total == 0.0
    ensures 0.0 <= Share(part, total).Value() <= 100.0
  {
    if total != 0.0 {
      assert part / total <= 1.0 by {
        assert part / total <= total / total;
      }
    }
  }

  /**
   * With non-negative NAV figures the country's totals never exceed the
   * fund type's, so both shares lie in [0, 100]; a share is the fallback 0
   * exactly when its total is zero.
   */
  lemma SharesBounded(ds: Dataset, fundType: string, country: string)
    requires NonNegative(ds.nav, Nav)
    ensures var p := UpdateMetrics(ds, fundType, country);
      && 0.0 <= p.countryNav <= p.totalNav
      && p.countryFunds <= p.totalFunds
      && (p.navShare.Fallback? <==> p.totalNav == 0.0)
      && (p.fundsShare.Fallback? <==> p.totalFunds == 0)
      && 0.0 <= p.navShare.Value() <= 100.0
      && 0.0 <= p.fundsShare.Value() <= 100.0
  {
    var filtered := FundTypeSlice(ds, fundType);
    SumFilterLe(ds.nav, HasFundType(fundType), Nav);
    assert NonNegative(filtered, Nav) by {
      forall i | 0 <= i < |filtered| ensures 0.0 <= Nav(filtered[i]) {
        assert filtered[i] in ds.nav;
      }
    }
    SumFilterLe(filtered, InCountry(country), Nav);
    SumNatFilterLe(filtered, InCountry(country), Funds);
    var p := UpdateMetrics(ds, fundType, country);
    ShareBounded(p.countryNav, p.totalNav);
    ShareBounded(p.countryFunds as real, p.totalFunds as real);
  }

  /**
   * `figure` is the mean of `column` over `slice`: the fallback, whose
   * number is 0, exactly when the slice is empty, and otherwise the number
   * that times the slice's size gives the column's sum.
   */
  predicate IsMean(figure: Figure, slice: seq<NavRow>, column: NavRow -> real)
  {
    && (figure.Fallback? <==> slice == [])
    && (slice == [] ==> figure.Value() == 0.0)
    && figure.Value() * (|slice| as real) == Sum(slice, column)
  }

  /** Each leverage figure of the panel is the mean of its column over the country slice. */
  lemma LeverageIsMean(ds: Dataset, fundType: string, country: string)
    ensures var p, slice := UpdateMetrics(ds, fundType, country), CountrySlice(ds, fundType, country);
      && IsMean(p.grossLeverageIncl, slice, GrossLeverageIncl)
      && IsMean(p.grossLeverageExcl, slice, GrossLeverageExcl)
      && IsMean(p.syntheticLeverage, slice, SyntheticLeverage)
  {
    var slice := CountrySlice(ds, fundType, country);
    MeanTimesCount(slice, GrossLeverageIncl);
    MeanTimesCount(slice, GrossLeverageExcl);
    MeanTimesCount(slice, SyntheticLeverage);
  }

  /** The mean of a column is a mean in the sense of `IsMean`. */
  lemma MeanTimesCount(slice: seq<NavRow>, column: NavRow -> real)
    ensures IsMean(MeanLeverage(slice, column), slice, column)
  {
  }

  /** Every entry of `column` over `slice` lies in [lo, hi]. */
  predicate ColumnWithin(slice: seq<NavRow>, column: NavRow -> real, lo: real, hi: real)
  {
    forall i :: 0 <= i < |slice| ==> lo <= column(slice[i]) <= hi
  }

  /**
   * Each leverage figure of a non-empty slice lies between the least and the
   * greatest value of its column.
   */
  lemma LeverageBounded(ds: Dataset, fundType: string, country: string, lo: real, hi: real)
    requires CountrySlice(ds, fundType, country) != []
    ensures var slice, p := CountrySlice(ds, fundType, country), UpdateMetrics(ds, fundType, country);
      && (ColumnWithin(slice, GrossLeverageIncl, lo, hi) ==> lo <= p.grossLeverageIncl.Value() <= hi)
      && (ColumnWithin(slice, GrossLeverageExcl, lo, hi) ==> lo <= p.grossLeverageExcl.Value() <= hi)
      && (ColumnWithin(slice, SyntheticLeverage, lo, hi) ==> lo <= p.syntheticLeverage.Value() <= hi)
  {
    var slice := CountrySlice(ds, fundType, country);
    if ColumnWithin(slice, GrossLeverageIncl, lo, hi) {
      MeanBounds(slice, GrossLeverageIncl, lo, hi);
    }
    if ColumnWithin(slice, GrossLeverageExcl, lo, hi) {
      MeanBounds(slice, GrossLeverageExcl, lo, hi);
    }
    if ColumnWithin(slice, SyntheticLeverage, lo, hi) {
      MeanBounds(slice, SyntheticLeverage, lo, hi);
    }
  }

  /**
   * The panel's jurisdiction count is the number of distinct countries the
   * selected fund type reports, in whichever country is selected.
   */
  lemma PanelJurisdictions(ds: Dataset, fundType: string, country: string)
    ensures UpdateMetrics(ds, fundType, country).jurisdictions ==
      |Distinct(Present(CountryColumn(FundTypeSlice(ds, fundType))))|
  {
    JurisdictionCountSpec(ds, fundType);
  }

  /**
   * The jurisdiction count is the number of distinct countries the
   * fund-type slice reports, which is the length of their first-appearance
   * list and never more than the slice's length.
   */
  lemma JurisdictionCountSpec(ds: Dataset, fundType: string)
    ensures var filtered := FundTypeSlice(ds, fundType);
      && JurisdictionCount(filtered) == |Distinct(Present(CountryColumn(filtered)))|
      && JurisdictionCount(filtered) <= |filtered|
  {
    var filtered := FundTypeSlice(ds, fundType);
    var col := CountryColumn(filtered);
    var d := Distinct(Present(col));
    DistinctSpec(Present(col));
    NoDupCardinality(d);
    var s := set i | 0 <= i < |filtered| && filtered[i].country.Some? :: filtered[i].country.value;
    assert s == set x | x in d by {
      forall x ensures x in s <==> x in d {
        if x in d {
          assert Some(x) in col;
          var i :| 0 <= i < |col| && col[i] == Some(x);
          assert filtered[i].country == Some(x);
        }
        if x in s {
          var i :| 0 <= i < |filtered| && filtered[i].country == Some(x);
          assert col[i] == Some(x);
        }
      }
    }
  }

  /** The panel heading is one of the three labels for a known fund type and empty otherwise. */
  lemma LabelSpec(ds: Dataset, fundType: string, country: string)
    ensures var heading := UpdateMetrics(ds, fundType, country).heading;
      && (fundType == "Hedge Funds" ==> heading == "All QHFs*")
      && (fundType == "Open Ended Funds" ==> heading == "All OEFs*")
      && (fundType == "Close Ended Funds" ==> heading == "All CEFs*")
      && (fundType !in KnownFundTypes <==> heading == "")
  {
  }

  /**
   * A worked example: one Hedge Funds row for the United States with NAV 10
   * and 500 funds, beside one with NAV 40 and 1500 funds, gives the United
   * States 20% of NAV and 25% of funds.
   */
  function ExampleData(): Dataset
  {
    Dataset(
      [NavRow(Some("Hedge Funds"), Some("United States"), 10.0, 500, 1.0, 2.0, 3.0),
       NavRow(Some("Hedge Funds"), Some("Cayman Islands"), 40.0, 1500, 1.0, 1.0, 1.0),
       NavRow(Some("Open Ended Funds"), Some("United States"), 5.0, 10, 1.0, 1.0, 1.0)],
      [], [], [], [])
  }

  lemma ExampleSlices()
    ensures FundTypeSlice(ExampleData(), "Hedge Funds") == ExampleData().nav[..2]
    ensures CountrySlice(ExampleData(), "Hedge Funds", "United States") == ExampleData().nav[..1]
  {
    var rows := ExampleData().nav;
    var hf, inUs := HasFundType("Hedge Funds"), InCountry("United States");
    assert rows[1..] == [rows[1], rows[2]] && [rows[1], rows[2]][1..] == [rows[2]] && [rows[2]][1..] == [];
    assert Filter([rows[2]], hf) == [];
    assert Filter([rows[1], rows[2]], hf) == [rows[1]];
    assert Filter(rows, hf) == [rows[0], rows[1]];
    assert [rows[0], rows[1]][1..] == [rows[1]] && [rows[1]][1..] == [];
    assert Filter([rows[1]], inUs) == [];
  }

  lemma ExamplePanel()
    ensures var p := UpdateMetrics(ExampleData(), "Hedge Funds", "United States");
      && p.heading == "All QHFs*" && p.jurisdictions == 2
      && p.totalNav == 50.0 && p.totalFunds == 2000
      && p.navShare == Computed(20.0) && p.fundsShare == Computed(25.0)
      && p.grossLeverageIncl == Computed(1.0)
  {
    ExampleSlices();
    var filtered := ExampleData().nav[..2];
    var countries := set i | 0 <= i < |filtered| && filtered[i].country.Some? :: filtered[i].country.value;
    assert filtered[0].country.value in countries && filtered[1].country.value in countries;
    assert countries == {"United States", "Cayman Islands"};
  }
}
