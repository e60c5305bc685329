# Investment Fund Statistics dashboard: the callback core in Dafny

The dashboard loads five tables once at start-up: NAV by fund type and country,
derivatives, assets, investment strategies and geographical investment
areas. From then on it only reads them. Whenever the fund-type or jurisdiction
dropdown changes, five callbacks recompute what is shown:

- the metrics panel (`update_metrics`);
- the derivatives bar chart (`update_derivatives_graph`);
- the assets bar chart (`update_assets_graph`);
- the investment-strategy pie (`update_strategy_graph`);
- the geography map (`update_geo_graph`).

This project models those callbacks, and the dropdown options with their
default selection, as pure Dafny functions over sequences of rows. It then
proves what each one promises.

| module | file | models |
|---|---|---|
| `Wrappers` | wrappers.dfy | `Option` (a missing cell) |
| `Seqs` | seqs.dfy | boolean-mask filtering, column sums and means, `dropna`, `unique` (distinct values in first-appearance order) |
| `Sorting` | sorting.dfy | `sort_values` by a comparator; two sorted orderings of the same rows tie position by position |
| `Strings` | strings.dfy | Python's ordering of `str` and ASCII `str.lower()` |
| `Tables` | tables.dfy | one datatype per table row; the chart result `Empty(title) \| Series(points)` |
| `Domains` | domains.dfy | dropdown options and the default selection |
| `Metrics` | metrics.dfy | the metrics panel |
| `Derivatives` | derivatives.dfy | the derivatives chart |
| `Assets` | assets.dfy | the assets chart |
| `Strategy` | strategy.dfy | the investment-strategy chart |
| `Geo` | geo.dfy | the geography map's data |

Captions are kept as numbers. In the panel, a `Figure` is either `Computed(v)`
or `Fallback`. `Fallback` stands for the fixed "0%" and "0.0x NAV" captions,
and its number is 0.

The choices this model makes where the program leaves behaviour undefined:

- **Geography totals.** The geography callback has no guard against a zero or
  empty total. When a country's amounts sum to 0, every share is 0.
- **Marker order.** The geography markers iterate over an undefined `order`.
  Here they iterate over the regions in the key order of the coordinate table.
  A row whose Label has no coordinates becomes a reported fault.
- **Zero strategy total.** When a country's strategy amounts sum to 0, the
  strategy chart shows its empty state, as if there were no rows.
- **Ties in sorting.** `sort_values` is not stable. Only the order of the
  sort keys is promised, never the order of rows that tie.
- **No options.** With no fund type or no country in the NAV table, the
  program fails on `[0]` at start-up. Here the default selection is `None`.

## Model

| member | source | states |
|---|---|---|
| `Domains.FundTypes` | app.py:15 | the fund-type options are exactly the values some FundType cell holds, each once |
| `Domains.Countries` | app.py:16 | the country options are exactly the values some Country cell holds, each once |
| `Domains.DefaultSelection` | app.py:47-54 | a default selection picks one offered fund type and one offered country; there is none only when a list is empty |
| `Domains.FundTypesSpec` | app.py:15 | a fund type is offered iff some NAV row has it; each is offered once, in order of first appearance |
| `Domains.CountriesSpec` | app.py:16 | a country is offered iff some NAV row has it; each is offered once, in order of first appearance |
| `Domains.DefaultSelectionExists` | app.py:47-54 | a default selection exists iff some row has a fund type and some row has a country |
| `Domains.DefaultFundTypeIsFirst` | app.py:47-48 | the default fund type is the fund type of the first row that has one |
| `Domains.DefaultCountryIsFirst` | app.py:53-54 | the default country is the country of the first row that has one |
| `Metrics.UpdateMetrics` | app.py:155-190 | Total NAV and Total Funds are the sums over the fund-type slice, Country NAV and Country Funds the sums over the country slice; the panel echoes the country; its heading is non-empty iff the fund type is known; the jurisdiction count is at most the fund type's rows; both shares are shares of their totals (`IsShare`); each leverage figure falls back iff the country slice is empty |
| `Metrics.Share` | app.py:164-165 | the fallback iff the total is 0; otherwise the number that, taken as a percentage of the total, gives back the part |
| `Metrics.SlicesNested` | app.py:156-157 | the country slice holds exactly the NAV rows of that fund type and country; it is inside the fund-type slice, which is inside the table |
| `Metrics.ShareBounded` | app.py:164-165 | a share of a part within [0, total] is the fallback iff the total is 0, and lies in [0, 100] |
| `Metrics.SharesBounded` | app.py:159-165 | with non-negative NAV: country NAV and fund counts are at most the fund-type totals; each share is the fallback iff its total is 0; both shares lie in [0, 100] |
| `Metrics.LeverageIsMean` | app.py:167-169 | each leverage figure is the fallback iff the country slice is empty, and is then 0; times the slice size it gives the column's sum, i.e. it is the mean |
| `Metrics.LeverageBounded` | app.py:167-169 | on a non-empty slice each of the three leverage figures lies within any bounds its own column keeps |
| `Metrics.FundLabel` | app.py:171-178 | the heading is non-empty iff the fund type is one of the three known ones, and is always one of the four table values |
| `Metrics.LabelSpec` | app.py:178 | the panel heading is "All QHFs*", "All OEFs*" or "All CEFs*" for the three known fund types and "" for any other |
| `Metrics.JurisdictionCountSpec` | app.py:179 | the jurisdiction count equals the number of distinct non-missing countries of the fund-type slice, and never exceeds the slice's length |
| `Metrics.PanelJurisdictions` | app.py:179 | the panel's jurisdiction count is the number of distinct non-missing countries of the selected fund type's rows, whatever country is selected |
| `Metrics.ExamplePanel` | app.py:155-190 | a US slice with NAV 10 and 500 funds out of NAV 50 and 2000 funds gets 20% and 25%, heading "All QHFs*", 2 jurisdictions |
| `Derivatives.UpdateDerivativesGraph` | app.py:197-208 | the chart is the empty state, titled "No Derivatives data for " + country, iff the country has no rows; otherwise it is a permutation of the country's rows, all of that country, sorted ascending by Derivative |
| `Derivatives.CategoriesIndependentOfLoadOrder` | app.py:198 | two loads of the same rows in different orders give the same sequence of Derivative categories |
| `Assets.Categorize` | app.py:269 | a bar keeps its row's exposure; its category is present iff the Asset is in the sixteen-class vocabulary, and is then that Asset |
| `Assets.Rank` | app.py:264-270 | an asset's rank is its position in the vocabulary; a missing category ranks after all sixteen |
| `Assets.UpdateAssetsGraph` | app.py:250-270 | the chart is the empty state, titled "No Asset data for " + country, iff the country has no rows; otherwise its bars are a permutation of the country's categorized rows, ordered by vocabulary rank |
| `Assets.BarsCategorized` | app.py:269 | every bar's category is in the vocabulary or missing |
| `Assets.UnknownLast` | app.py:269-270 | bars outside the vocabulary come after every bar inside it |
| `Assets.CategoriesIndependentOfLoadOrder` | app.py:264-270 | two loads of the same rows in different orders give the same sequence of categories |
| `Strategy.Keys` | app.py:317 | the group keys are exactly the strategies of the rows, each once, strictly ascending |
| `Strategy.GroupsFor` | app.py:317 | one group per key, in key order, carrying the sum of that key's Net Assets |
| `Strategy.GroupByStrategy` | app.py:317 | the groups name exactly the rows' strategies, strictly ascending; each carries its strategy's summed Net Assets; together they keep the rows' total |
| `Strategy.WithPercent` | app.py:318 | each wedge keeps its group's strategy and Net Assets and adds them as a percentage of the total |
| `Strategy.UpdateStrategyGraph` | app.py:304-318 | the chart is the empty state, titled "No strategy data for " + country, iff the country has no rows or they sum to 0; otherwise each wedge carries its strategy's summed Net Assets and that sum over the country total times 100 |
| `Strategy.OneWedgePerStrategy` | app.py:317 | the wedges name exactly the country's strategies, each once, in ascending order |
| `Strategy.GroupsConserveTotal` | app.py:317 | grouping by duplicate-free keys that cover every row keeps the total: no row lost, none counted twice |
| `Strategy.WedgesConserveTotal` | app.py:317-318 | the wedges' Net Assets add up to the country's total |
| `Strategy.PercentagesSumTo100` | app.py:318 | the wedges' percentages add up to 100 |
| `Strategy.GroupingExample` | app.py:317-318 | Long/Short 60 and 40 with Macro 100 give Long/Short 100 at 50% and Macro 100 at 50% |
| `Geo.RegionOf` | app.py:365-372 | a Label has coordinates iff it names one of the six regions of the coordinate table |
| `Geo.DisplayLabel` | app.py:362 | "World" is shown as "Global"; every other Label is shown unchanged |
| `Geo.DisplayLabelSpec` | app.py:403 | no displayed Label reads "World", and only "World" and "Global" display as "Global" |
| `Geo.Clamp` | app.py:386-387 | a colour intensity lies in [0, 1] and equals the value when that is already in [0, 1] |
| `Geo.Choropleth` | app.py:377-388 | the layer is drawn iff every present Investment Area, lower-cased, is none of world/global/asia/europe/north america/south america/africa; its cells are the rows' areas with clamped shares |
| `Geo.ShareOf` | app.py:361 | a share is 0 when the total is 0 and otherwise gives back the row's amount when multiplied by the total; an amount within [0, total] has a share in [0, 1] |
| `Geo.Shading` | app.py:380-387 | one cell per row in row order, carrying the row's Investment Area and its clamped share |
| `Geo.PlaceRegion` | app.py:401-406 | the markers of a region carry, in row order, the amounts of exactly the rows labelled with it; each sits at the region's coordinates with its displayed Label and its share in percent |
| `Geo.PlaceAll` | app.py:391-393 | every marker belongs to one of the regions placed and is drawn at its coordinates with its displayed Label and share |
| `Geo.MarkersOfRegion` | app.py:391-393 | among the markers of duplicate-free regions, those of one region are exactly that region's own markers |
| `Geo.MarkersCarryRows` | app.py:401-406 | over the coordinate table's regions, the markers at each region carry, in row order, the amounts of exactly the rows labelled with it |
| `Geo.Faults` | app.py:392-393 | the faults are the Labels of exactly the rows whose Label has no coordinates, in row order |
| `Geo.UpdateGeoGraph` | app.py:359-414 | the map draws the choropleth iff no area names a region, with the rows' shaded cells; for every region, its markers carry the amounts of exactly the rows labelled with it, in row order, each drawn at the region's coordinates with the displayed Label and its share in percent; the faults are the Labels of the rows without coordinates |
| `Geo.SharesSumToOne` | app.py:361 | when the country's total is not 0, its rows' shares sum to 1 |
| `Geo.SharesBounded` | app.py:361 | with non-negative amounts, every share lies in [0, 1] |
| `Geo.IntensityIsShare` | app.py:382-387 | with non-negative amounts, each choropleth cell's intensity is its row's share |
| `Geo.MarkersAndFaultsCoverSlice` | app.py:391-414 | markers plus faults number exactly the country's rows |
| `Geo.MarkersFollowCoordOrder` | app.py:365-372 | markers follow the key order of the coordinate table |
| `Geo.EmptySlice` | app.py:377-378 | a country with no rows gets no markers, no faults and a (vacuously drawn) empty choropleth |
| `Geo.CountryAreasShaded` | app.py:377-388 | areas France and missing, amounts 3 and 1, get the layer with intensities 0.75 and 0.25 |
| `Geo.RegionAreaSuppressesShading` | app.py:377-378 | one area "WORLD" removes the layer for the whole country, whatever the letter case |

## Left out

- Loading the CSV files, the Dash app, its HTML layout and `app.run`: these are
  I/O and user-interface scaffolding. The tables are parameters of every
  function.
- Plotly figure construction: titles, colours, fonts, margins, hole size,
  map projection and `uirevision`. These are rendering. Which rows and
  values each chart shows is modelled.
- Caption formatting: the one- and two-decimal formats, thousands
  separators and `round(1)` text on the map. The underlying real numbers are
  modelled.
- Missing numbers (NaN) in the amount, NAV, count and leverage columns. Pandas
  sums and means skip them; here every such cell is a number. Missing Derivative,
  Asset, Strategy and Label cells are not modelled either; missing fund types and
  countries in the NAV table and missing investment areas are.
- Floating point: NAV, amounts, Net Assets, leverage figures and every share
  are exact reals here, so float rounding is not modelled. The
  `if total_nav` and `if total_funds` guards test exact sums, and
  `Geo.SharesSumToOne` and `Strategy.PercentagesSumTo100` hold exactly, where
  the program's float sums only come close to 1 and 100.
- Integer width: fund counts are unbounded naturals, and `int(total_funds)`
  truncation of a float sum does not arise.
- A cleared dropdown (`None` as the selection). Selections are strings.
- `str.lower()` beyond ASCII letters: `Strings.Lower` folds only A-Z.
- The third map trace pairs the rows' texts with the coordinate table's
  regions by position. That pairing is not modelled; each marker carries its
  own row's data.
- The crash on the undefined `order`: the markers iterate the coordinate table
  instead.
- Ordering of pie wedges by the plotting library: the wedges are kept in the
  ascending group order that `groupby` produces.
- Dash's reactive callback wiring and any concurrency between callbacks: the
  model computes each output from one snapshot of the selection.
- The unused year dropdown (a single fixed option).
