/**
 * The five tables the dashboard loads once at start-up and then only reads,
 * one datatype per row, and the chart result every projector returns.
 */
module Tables {
  import opened Wrappers

  /** A row of the NAV table: columns FundType, Country, NAV, No., the three leverage columns. */
  datatype NavRow = NavRow(
    fundType: Option<string>,
    country: Option<string>,
    nav: real,
    funds: nat,
    grossLeverageIncl: real,
    grossLeverageExcl: real,
    syntheticLeverage: real)

  /** A row of the derivatives table: Country, Derivative, GrossNotionalExposure. */
  datatype DerivativeRow = DerivativeRow(country: string, derivative: string, grossNotionalExposure: real)

  /** A row of the assets table: Country, Asset, GrossExposure. */
  datatype AssetRow = AssetRow(country: string, asset: string, grossExposure: real)

  /** A row of the investment-strategy table: Country, Strategy, Net Assets (USD). */
  datatype StrategyRow = StrategyRow(country: string, strategy: string, netAssets: real)

  /** A row of the geography table: Country, Label, Investment Area (nullable), Amounts. */
  datatype GeoRow = GeoRow(country: string, regionLabel: string, investmentArea: Option<string>, amount: real)

  datatype Dataset = Dataset(
    nav: seq<NavRow>,
    derivatives: seq<DerivativeRow>,
    assets: seq<AssetRow>,
    strategies: seq<StrategyRow>,
    geo: seq<GeoRow>)

  /**
   * What a chart callback returns: the placeholder figure with its title when
   * there is nothing to draw, or the series it draws.
   */
  datatype Chart<T> = Empty(title: string) | Series(points: seq<T>)

  /** The FundType column of the NAV table. */
  function FundTypeColumn(rows: seq<NavRow>): (col: seq<Option<string>>)
    ensures |col| == |rows|
    ensures forall i :: 0 <= i < |rows| ==> col[i] == rows[i].fundType
  {
    seq(|rows|, i requires 0 <= i < |rows| => rows[i].fundType)
  }

  /** The Country column of the NAV table. */
  function CountryColumn(rows: seq<NavRow>): (col: seq<Option<string>>)
    ensures |col| == |rows|
    ensures forall i :: 0 <= i < |rows| ==> col[i] == rows[i].country
  {
    seq(|rows|, i requires 0 <= i < |rows| => rows[i].country)
  }
}
