/**
 * The geography map callback (`update_geo_graph`), its data logic only:
 * each row's share of the country's total, the region markers placed from a
 * fixed coordinate table, and whether the choropleth layer is drawn.
 */
module Geo {
  import opened Wrappers
  import opened Seqs
  import opened Strings
  import opened Tables

  /** The regions of the coordinate table, in the table's key order. */
  datatype Region = NorthAmerica | Europe | Asia | SouthAmerica | World | Africa

  const CoordOrder: seq<Region> := [NorthAmerica, Europe, Asia, SouthAmerica, World, Africa]

  datatype Coordinates = Coordinates(lat: int, lon: int)

  /** The Label a region carries in the geography table. */
  function Name(g: Region): string
  {
    match g
    case NorthAmerica => "North America"
    case Europe => "Europe"
    case Asia => "Asia"
    case SouthAmerica => "South America"
    case World => "World"
    case Africa => "Africa"
  }

  /** Where a region's marker is drawn. */
  function Position(g: Region): Coordinates
  {
    match g
    case NorthAmerica => Coordinates(40, -100)
    case Europe => Coordinates(54, 15)
    case Asia => Coordinates(30, 95)
    case SouthAmerica => Coordinates(-15, -60)
    case World => Coordinates(25, -45)
    case Africa => Coordinates(5, 25)
  }

  /** A region's place in the coordinate table. */
  function Index(g: Region): (k: nat)
    ensures k < |CoordOrder| && CoordOrder[k] == g
  {
    match g
    case NorthAmerica => 0
    case Europe => 1
    case Asia => 2
    case SouthAmerica => 3
    case World => 4
    case Africa => 5
  }

  /** Looks a Label up in the coordinate table. */
  function RegionOf(regionLabel: string): (g: Option<Region>)
    ensures g.Some? ==> Name(g.value) == regionLabel
    ensures g.None? ==> forall h: Region :: Name(h) != regionLabel
  {
    if regionLabel == "North America" then Some(NorthAmerica)
    else if regionLabel == "Europe" then Some(Europe)
    else if regionLabel == "Asia" then Some(Asia)
    else if regionLabel == "South America" then Some(SouthAmerica)
    else if regionLabel == "World" then Some(World)
    else if regionLabel == "Africa" then Some(Africa)
    else None
  }

  lemma CoordOrderNoDup()
    ensures NoDup(CoordOrder)
  {
  }

  /** The Label as shown: "World" is displayed as "Global". */
  function DisplayLabel(regionLabel: string): (shown: string)
    ensures regionLabel == "World" ==> shown == "Global"
    ensures regionLabel != "World" ==> shown == regionLabel
  {
    if regionLabel == "World" then "Global" else regionLabel
  }

  /** No displayed Label reads "World", and only "World" and "Global" display as "Global". */
  lemma DisplayLabelSpec(regionLabel: string)
    ensures DisplayLabel(regionLabel) != "World"
    ensures DisplayLabel(regionLabel) == "Global" <==> regionLabel == "World" || regionLabel == "Global"
  {
  }

  function InCountry(country: string): GeoRow -> bool
  {
    (r: GeoRow) => r.country == country
  }

  /** The geography rows of one country. */
  function Slice(ds: Dataset, country: string): seq<GeoRow>
  {
    Filter(ds.geo, InCountry(country))
  }

  function Amount(r: GeoRow): real { r.amount }

  /**
   * A row's share of `total`; 0 when the total is 0, where dividing would
   * give no number.
   */
  function ShareOf(r: GeoRow, total: real): (share: real)
    ensures total == 0.0 ==> share == 0.0
    ensures total != 0.0 ==> share * total == r.amount
    ensures 0.0 <= r.amount <= total ==> 0.0 <= share <= 1.0
  {
    if total == 0.0 then 0.0 else r.amount / total
  }

  function ShareIn(total: real): GeoRow -> real
  {
    (r: GeoRow) => ShareOf(r, total)
  }

  /** A marker: a region's position, its displayed Label, its percentage and its amount. */
  datatype Marker = Marker(region: Region, at: Coordinates, regionLabel: string, percent: real, amount: real)

  /** A choropleth cell: the Investment Area and its colour intensity. */
  datatype Shade = Shade(area: Option<string>, intensity: real)

  /**
   * The map: the choropleth cells when that layer is drawn, the markers, and
   * the Labels of rows that have no entry in the coordinate table.
   */
  datatype GeoFigure = GeoFigure(choropleth: Option<seq<Shade>>, markers: seq<Marker>, faults: seq<string>)

  /** Investment Area values that name a region rather than a country. */
  const Sentinels: seq<string> := ["world", "global", "asia", "europe", "north america", "south america", "africa"]

  /** A missing area is skipped; a present one must not name a region, in any letter case. */
  predicate CountryArea(area: Option<string>)
  {
    area.None? || Lower(area.value) !in Sentinels
  }

  /** The colour scale runs from 0 to 1; values outside are drawn at its ends. */
  function Clamp(x: real): (y: real)
    ensures 0.0 <= y <= 1.0
    ensures 0.0 <= x <= 1.0 ==> y == x
    ensures x < 0.0 ==> y == 0.0
    ensures 1.0 < x ==> y == 1.0
  {
    if x < 0.0 then 0.0 else if 1.0 < x then 1.0 else x
  }

  /** One cell per row, in row order. */
  function Shading(slice: seq<GeoRow>, total: real): (cells: seq<Shade>)
    ensures |cells| == |slice|
    ensures forall i :: 0 <= i < |slice| ==>
      cells[i] == Shade(slice[i].investmentArea, Clamp(ShareOf(slice[i], total)))
  {
    seq(|slice|, i requires 0 <= i < |slice| => Shade(slice[i].investmentArea, Clamp(ShareOf(slice[i], total))))
  }

  /** The choropleth layer is drawn only when no Investment Area names a region. */
  function Choropleth(slice: seq<GeoRow>, total: real): (layer: Option<seq<Shade>>)
    ensures layer.Some? <==> forall i :: 0 <= i < |slice| ==> CountryArea(slice[i].investmentArea)
    ensures layer.Some? ==> layer.value == Shading(slice, total)
  {
    if forall i :: 0 <= i < |slice| ==> CountryArea(slice[i].investmentArea) then Some(Shading(slice, total))
    else None
  }

  /**
   * A marker sits at its region's coordinates, shows the region's displayed
   * Label and gives its amount as a percentage of `total` (0 when the total is 0).
   */
  predicate MarkerDrawn(m: Marker, total: real)
  {
    && m.at == Position(m.region)
    && m.regionLabel == DisplayLabel(Name(m.region))
    && m.percent == (if total == 0.0 then 0.0 else m.amount / total * 100.0)
  }

  function MarkerFor(g: Region, r: GeoRow, total: real): Marker
  {
    Marker(g, Position(g), DisplayLabel(Name(g)), ShareOf(r, total) * 100.0, r.amount)
  }

  function MarkerAmount(m: Marker): real { m.amount }
  function RowLabel(r: GeoRow): string { r.regionLabel }

  /** The rows labelled with region `g`. */
  function Labelled(g: Region): GeoRow -> bool
  {
    (r: GeoRow) => r.regionLabel == Name(g)
  }

  /** The markers of region `g`. */
  function AtRegion(g: Region): Marker -> bool
  {
    (m: Marker) => m.region == g
  }

  /** A row whose Label has no coordinates. */
  predicate Unplaced(r: GeoRow)
  {
    RegionOf(r.regionLabel).None?
  }

  /**
   * The markers of the rows labelled with region `g`: one per such row, in
   * row order, carrying that row's amount.
   */
  function PlaceRegion(g: Region, slice: seq<GeoRow>, total: real): (markers: seq<Marker>)
    ensures forall m :: m in markers ==> m.region == g
    ensures forall m :: m in markers ==> MarkerDrawn(m, total)
    ensures MapSeq(markers, MarkerAmount) == MapSeq(Filter(slice, Labelled(g)), Amount)
  {
    if slice == [] then []
    else
      var head := if slice[0].regionLabel == Name(g) then [MarkerFor(g, slice[0], total)] else [];
      var rows := if Labelled(g)(slice[0]) then [slice[0]] else [];
      var rest := PlaceRegion(g, slice[1..], total);
      MapConcat(head, rest, MarkerAmount);
      MapConcat(rows, Filter(slice[1..], Labelled(g)), Amount);
      assert MapSeq(head, MarkerAmount) == MapSeq(rows, Amount);
      head + rest
  }

  /** The markers of each region in turn. */
  function PlaceAll(regions: seq<Region>, slice: seq<GeoRow>, total: real): (markers: seq<Marker>)
    ensures forall m :: m in markers ==> m.region in regions && MarkerDrawn(m, total)
  {
    if regions == [] then []
    else PlaceRegion(regions[0], slice, total) + PlaceAll(regions[1..], slice, total)
  }

  /** Among the markers of duplicate-free regions, those of `g` are exactly `g`'s own. */
  lemma {:induction false} MarkersOfRegion(regions: seq<Region>, slice: seq<GeoRow>, total: real, g: Region)
    requires NoDup(regions)
    ensures Filter(PlaceAll(regions, slice, total), AtRegion(g))
      == if g in regions then PlaceRegion(g, slice, total) else []
  {
    if regions != [] {
      PlacedSplitRegions(regions, g);
      var head, tail := PlaceRegion(regions[0], slice, total), PlaceAll(regions[1..], slice, total);
      assert PlaceAll(regions, slice, total) == head + tail;
      FilterConcat(head, tail, AtRegion(g));
      FilterAllOrNone(head, AtRegion(g));
      MarkersOfRegion(regions[1..], slice, total, g);
      if g == regions[0] {
        assert Filter(head, AtRegion(g)) == head && Filter(tail, AtRegion(g)) == [];
        assert head + [] == head;
      } else {
        assert Filter(head, AtRegion(g)) == [];
        assert [] + Filter(tail, AtRegion(g)) == Filter(tail, AtRegion(g));
      }
    }
  }

  lemma PlacedSplitRegions(regions: seq<Region>, g: Region)
    requires regions != [] && NoDup(regions)
    ensures NoDup(regions[1..])
    ensures g in regions <==> g == regions[0] || g in regions[1..]
    ensures g == regions[0] ==> g !in regions[1..]
  {
    assert regions == [regions[0]] + regions[1..];
    forall i, j | 0 <= i < j < |regions[1..]| ensures regions[1..][i] != regions[1..][j] {
      assert regions[1..][i] == regions[i + 1] && regions[1..][j] == regions[j + 1];
    }
    forall k | 0 <= k < |regions[1..]| ensures regions[1..][k] != regions[0] {
      assert regions[1..][k] == regions[k + 1];
    }
  }

  /** Each region's markers carry the amounts of the rows labelled with it, in row order. */
  lemma MarkersCarryRows(slice: seq<GeoRow>, total: real)
    ensures forall g: Region ::
      MapSeq(Filter(PlaceAll(CoordOrder, slice, total), AtRegion(g)), MarkerAmount) == MapSeq(Filter(slice, Labelled(g)), Amount)
  {
    CoordOrderNoDup();
    forall g: Region ensures MapSeq(Filter(PlaceAll(CoordOrder, slice, total), AtRegion(g)), MarkerAmount)
      == MapSeq(Filter(slice, Labelled(g)), Amount)
    {
      MarkersOfRegion(CoordOrder, slice, total, g);
      assert CoordOrder[Index(g)] == g;
    }
  }

  /** The Labels of the rows that have no coordinates, in row order. */
  function Faults(slice: seq<GeoRow>): (labels: seq<string>)
    ensures forall l :: l in labels ==> RegionOf(l).None?
    ensures labels == MapSeq(Filter(slice, Unplaced), RowLabel)
  {
    if slice == [] then []
    else
      var head := if RegionOf(slice[0].regionLabel).None? then [slice[0].regionLabel] else [];
      var rows := if Unplaced(slice[0]) then [slice[0]] else [];
      MapConcat(rows, Filter(slice[1..], Unplaced), RowLabel);
      assert head == MapSeq(rows, RowLabel);
      head + Faults(slice[1..])
  }

  /**
   * The map for one country: the choropleth exactly when no Investment Area
   * names a region, a marker per row labelled with a region (drawn at that
   * region's coordinates, regions in table order), and the Labels that have
   * no coordinates.
   */
  function UpdateGeoGraph(ds: Dataset, country: string): (fig: GeoFigure)
    ensures var slice := Slice(ds, country);
      fig.choropleth.Some? <==> forall i :: 0 <= i < |slice| ==> CountryArea(slice[i].investmentArea)
    ensures fig.choropleth.Some? ==>
      fig.choropleth.value == Shading(Slice(ds, country), Sum(Slice(ds, country), Amount))
    ensures forall m :: m in fig.markers ==> MarkerDrawn(m, Sum(Slice(ds, country), Amount))
    ensures forall g: Region ::
      MapSeq(Filter(fig.markers, AtRegion(g)), MarkerAmount) == MapSeq(Filter(Slice(ds, country), Labelled(g)), Amount)
    ensures fig.faults == MapSeq(Filter(Slice(ds, country), Unplaced), RowLabel)
  {
    var slice := Slice(ds, country);
    var total := Sum(slice, Amount);
    MarkersCarryRows(slice, total);
    GeoFigure(Choropleth(slice, total), PlaceAll(CoordOrder, slice, total), Faults(slice))
  }

  /** Scaling each amount by `total` scales the sum by it. */
  lemma {:induction false} SumShares(s: seq<GeoRow>, total: real)
    requires total != 0.0
    ensures Sum(s, ShareIn(total)) == Sum(s, Amount) / total
  {
    if s != [] {
      SumShares(s[1..], total);
      var a, rest := s[0].amount, Sum(s[1..], Amount);
      assert ShareIn(total)(s[0]) == a / total;
      AddQuotients(a, rest, total);
    }
  }

  lemma AddQuotients(a: real, b: real, total: real)
    requires total != 0.0
    ensures a / total + b / total == (a + b) / total
  {
  }

  /** When the country's total is not 0, its rows' shares add up to 1. */
  lemma SharesSumToOne(ds: Dataset, country: string)
    requires Sum(Slice(ds, country), Amount) != 0.0
    ensures Sum(Slice(ds, country), ShareIn(Sum(Slice(ds, country), Amount))) == 1.0
  {
    var total := Sum(Slice(ds, country), Amount);
    SumShares(Slice(ds, country), total);
    WholeIsOne(total);
  }

  lemma WholeIsOne(total: real)
    requires total != 0.0
    ensures total / total == 1.0
  {
  }

  /** With non-negative amounts every share lies between 0 and 1. */
  lemma SharesBounded(ds: Dataset, country: string)
    requires NonNegative(Slice(ds, country), Amount)
    ensures var slice := Slice(ds, country);
      forall i :: 0 <= i < |slice| ==> 0.0 <= ShareOf(slice[i], Sum(slice, Amount)) <= 1.0
  {
    var slice := Slice(ds, country);
    var total := Sum(slice, Amount);
    forall i | 0 <= i < |slice| ensures 0.0 <= ShareOf(slice[i], total) <= 1.0 {
      EntryLeSum(slice, Amount, i);
    }
  }

  /** With non-negative amounts the choropleth's intensity is the row's share itself. */
  lemma IntensityIsShare(ds: Dataset, country: string)
    requires NonNegative(Slice(ds, country), Amount)
    requires UpdateGeoGraph(ds, country).choropleth.Some?
    ensures var slice, cells := Slice(ds, country), UpdateGeoGraph(ds, country).choropleth.value;
      |cells| == |slice| &&
      forall i :: 0 <= i < |slice| ==> cells[i].intensity == ShareOf(slice[i], Sum(slice, Amount))
  {
    SharesBounded(ds, country);
  }

  /** A row in front adds one marker to its own region and none to the others. */
  lemma PlaceRegionWithRow(g: Region, r: GeoRow, rest: seq<GeoRow>, total: real)
    ensures |PlaceRegion(g, [r] + rest, total)| == |PlaceRegion(g, rest, total)| + (if r.regionLabel == Name(g) then 1 else 0)
  {
    var rows := [r] + rest;
    assert rows[0] == r && rows[1..] == rest;
  }

  /** Whether a Label names one of `regions`. */
  predicate Placed(regions: seq<Region>, regionLabel: string)
  {
    RegionOf(regionLabel).Some? && RegionOf(regionLabel).value in regions
  }

  /** A Label names the first of duplicate-free regions, or one of the others, or neither. */
  lemma PlacedSplit(regions: seq<Region>, regionLabel: string)
    requires regions != [] && NoDup(regions)
    ensures NoDup(regions[1..])
    ensures Placed(regions, regionLabel) ==
      (regionLabel == Name(regions[0]) || Placed(regions[1..], regionLabel))
    ensures !(regionLabel == Name(regions[0]) && Placed(regions[1..], regionLabel))
  {
    assert regions == [regions[0]] + regions[1..];
    forall i, j | 0 <= i < j < |regions[1..]| ensures regions[1..][i] != regions[1..][j] {
      assert regions[1..][i] == regions[i + 1] && regions[1..][j] == regions[j + 1];
    }
    if regionLabel == Name(regions[0]) {
      forall k | 0 <= k < |regions[1..]| ensures regions[1..][k] != regions[0] {
        assert regions[1..][k] == regions[k + 1];
      }
    }
  }

  /** A row in front adds one marker when it names a region of `regions`, none otherwise. */
  lemma {:induction false} PlaceAllWithRow(regions: seq<Region>, r: GeoRow, rest: seq<GeoRow>, total: real)
    requires NoDup(regions)
    ensures |PlaceAll(regions, [r] + rest, total)| ==
      |PlaceAll(regions, rest, total)| + (if Placed(regions, r.regionLabel) then 1 else 0)
  {
    if regions != [] {
      PlacedSplit(regions, r.regionLabel);
      PlaceRegionWithRow(regions[0], r, rest, total);
      PlaceAllWithRow(regions[1..], r, rest, total);
    }
  }

  /** Every row of the country yields either a marker or a fault, never both. */
  lemma {:induction false} EveryRowPlacedOrFaulted(slice: seq<GeoRow>, total: real)
    ensures |PlaceAll(CoordOrder, slice, total)| + |Faults(slice)| == |slice|
  {
    if slice == [] {
      PlaceNothing(CoordOrder, total);
    } else {
      assert slice == [slice[0]] + slice[1..];
      CoordOrderNoDup();
      PlaceAllWithRow(CoordOrder, slice[0], slice[1..], total);
      EveryRowPlacedOrFaulted(slice[1..], total);
      if RegionOf(slice[0].regionLabel).Some? {
        var g := RegionOf(slice[0].regionLabel).value;
        assert CoordOrder[Index(g)] == g;
        assert Placed(CoordOrder, slice[0].regionLabel);
      }
    }
  }

  lemma {:induction false} PlaceNothing(regions: seq<Region>, total: real)
    ensures PlaceAll(regions, [], total) == []
  {
    if regions != [] {
      PlaceNothing(regions[1..], total);
    }
  }

  /** The map's markers and faults account for each of the country's rows once. */
  lemma MarkersAndFaultsCoverSlice(ds: Dataset, country: string)
    ensures |UpdateGeoGraph(ds, country).markers| + |UpdateGeoGraph(ds, country).faults| == |Slice(ds, country)|
  {
    EveryRowPlacedOrFaulted(Slice(ds, country), Sum(Slice(ds, country), Amount));
  }

  /** Markers follow the order of the coordinate table. */
  predicate InCoordOrder(markers: seq<Marker>)
  {
    forall i, j :: 0 <= i < j < |markers| ==> Index(markers[i].region) <= Index(markers[j].region)
  }

  lemma {:induction false} PlaceAllOrdered(regions: seq<Region>, slice: seq<GeoRow>, total: real)
    requires forall i, j :: 0 <= i < j < |regions| ==> Index(regions[i]) < Index(regions[j])
    ensures InCoordOrder(PlaceAll(regions, slice, total))
  {
    if regions != [] {
      var head, tail := PlaceRegion(regions[0], slice, total), PlaceAll(regions[1..], slice, total);
      forall i, j | 0 <= i < j < |regions[1..]| ensures Index(regions[1..][i]) < Index(regions[1..][j]) {
        assert regions[1..][i] == regions[i + 1] && regions[1..][j] == regions[j + 1];
      }
      PlaceAllOrdered(regions[1..], slice, total);
      var markers := head + tail;
      forall m | m in tail ensures Index(regions[0]) < Index(m.region) {
        var k :| 0 <= k < |regions[1..]| && regions[1..][k] == m.region;
        assert regions[1..][k] == regions[k + 1];
      }
      assert InCoordOrder(tail);
      forall i, j | 0 <= i < j < |markers| ensures Index(markers[i].region) <= Index(markers[j].region) {
        if j < |head| {
          assert markers[i] == head[i] && markers[j] == head[j];
          assert head[i] in head && head[j] in head;
        } else if i < |head| {
          assert markers[i] == head[i] && markers[j] == tail[j - |head|];
          assert head[i] in head && tail[j - |head|] in tail;
        } else {
          assert markers[i] == tail[i - |head|] && markers[j] == tail[j - |head|];
          assert Index(tail[i - |head|].region) <= Index(tail[j - |head|].region);
        }
      }
    }
  }

  lemma MarkersFollowCoordOrder(ds: Dataset, country: string)
    ensures InCoordOrder(UpdateGeoGraph(ds, country).markers)
  {
    CoordOrderAscending();
    PlaceAllOrdered(CoordOrder, Slice(ds, country), Sum(Slice(ds, country), Amount));
  }

  lemma CoordOrderAscending()
    ensures forall i, j :: 0 <= i < j < |CoordOrder| ==> Index(CoordOrder[i]) < Index(CoordOrder[j])
  {
    assert forall i :: 0 <= i < |CoordOrder| ==> Index(CoordOrder[i]) == i;
  }

  /** A country with no rows gets an empty map with the (vacuous) choropleth layer. */
  lemma EmptySlice(ds: Dataset, country: string)
    requires Slice(ds, country) == []
    ensures UpdateGeoGraph(ds, country) == GeoFigure(Some([]), [], [])
  {
    PlaceNothing(CoordOrder, 0.0);
  }

  /** A French row of 3 and an Asian row of 1 with no area: two cells, shaded 0.75 and 0.25. */
  function ShadedRows(): seq<GeoRow>
  {
    [GeoRow("X", "Europe", Some("France"), 3.0), GeoRow("X", "Asia", None, 1.0)]
  }

  lemma ShadedRowsShares()
    ensures Sum(ShadedRows(), Amount) == 4.0
    ensures Shading(ShadedRows(), 4.0) == [Shade(Some("France"), 0.75), Shade(None, 0.25)]
  {
  }

  lemma ShadedRowsAreCountries()
    ensures Slice(Dataset([], [], [], [], ShadedRows()), "X") == ShadedRows()
    ensures forall i :: 0 <= i < |ShadedRows()| ==> CountryArea(ShadedRows()[i].investmentArea)
  {
    var rows := ShadedRows();
    assert rows[1..][1..] == [];
    assert Lower("France") == "france";
  }

  /** Rows whose areas are countries get the choropleth layer. */
  lemma CountryAreasShaded()
    ensures UpdateGeoGraph(Dataset([], [], [], [], ShadedRows()), "X").choropleth
      == Some([Shade(Some("France"), 0.75), Shade(None, 0.25)])
  {
    ShadedRowsAreCountries();
    ShadedRowsShares();
    assert Choropleth(ShadedRows(), 4.0) == Some(Shading(ShadedRows(), 4.0));
  }

  /** One area naming a region, in any letter case, removes the layer for the whole country. */
  lemma RegionAreaSuppressesShading()
    ensures var rows := [GeoRow("X", "Europe", Some("France"), 3.0), GeoRow("X", "World", Some("WORLD"), 1.0)];
      UpdateGeoGraph(Dataset([], [], [], [], rows), "X").choropleth == None
  {
    var rows := [GeoRow("X", "Europe", Some("France"), 3.0), GeoRow("X", "World", Some("WORLD"), 1.0)];
    assert Slice(Dataset([], [], [], [], rows), "X") == rows;
    assert Lower("WORLD") == "world";
    assert !CountryArea(rows[1].investmentArea);
  }
}
