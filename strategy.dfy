/**
 * The investment-strategy chart callback (`update_strategy_graph`): the
 * selected country's rows grouped by Strategy, each group's Net Assets
 * summed, with each group's percentage of the total. Grouping orders the
 * strategies ascending, as pandas `groupby` does by default.
 */
module Strategy {
  import opened Seqs
  import opened Sorting
  import opened Strings
  import opened Tables

  /** A group: one strategy and the summed Net Assets of its rows. */
  datatype Group = Group(strategy: string, netAssets: real)

  /** A pie wedge: a group and its percentage of the slice total. */
  datatype Wedge = Wedge(strategy: string, netAssets: real, percent: real)

  function InCountry(country: string): StrategyRow -> bool
  {
    (r: StrategyRow) => r.country == country
  }

  /** The strategy rows of one country. */
  function Slice(ds: Dataset, country: string): seq<StrategyRow>
  {
    Filter(ds.strategies, InCountry(country))
  }

  function NetAssets(r: StrategyRow): real { r.netAssets }
  function StrategyName(r: StrategyRow): string { r.strategy }
  function GroupNetAssets(g: Group): real { g.netAssets }
  function GroupStrategy(g: Group): string { g.strategy }
  function WedgeStrategy(w: Wedge): string { w.strategy }
  function WedgeNetAssets(w: Wedge): real { w.netAssets }
  function WedgePercent(w: Wedge): real { w.percent }

  /** The summed Net Assets of the rows whose Strategy is `name`. */
  function NetAssetsOf(rows: seq<StrategyRow>, name: string): real
  {
    if rows == [] then 0.0
    else (if rows[0].strategy == name then rows[0].netAssets else 0.0) + NetAssetsOf(rows[1..], name)
  }

  /** The group keys: the distinct strategies of `rows`, ascending. */
  function Keys(rows: seq<StrategyRow>): (keys: seq<string>)
    ensures forall x :: x in keys <==> x in MapSeq(rows, StrategyName)
    ensures NoDup(keys)
    ensures Sorted(keys, StrLe)
  {
    var names := MapSeq(rows, StrategyName);
    StrLeTotalPreorder();
    DistinctSpec(names);
    var keys := SortBy(Distinct(names), StrLe);
    NoDupMultiplicity(Distinct(names));
    MultiplicityNoDup(keys);
    assert forall x :: x in keys <==> x in multiset(Distinct(names));
    keys
  }

  /** One group per key, in key order. */
  function GroupsFor(keys: seq<string>, rows: seq<StrategyRow>): (groups: seq<Group>)
    ensures |groups| == |keys|
    ensures forall i :: 0 <= i < |keys| ==> groups[i] == Group(keys[i], NetAssetsOf(rows, keys[i]))
  {
    if keys == [] then [] else [Group(keys[0], NetAssetsOf(rows, keys[0]))] + GroupsFor(keys[1..], rows)
  }

  /** `groupby("Strategy", as_index=False)["Net Assets (USD)"].sum()` */
  function GroupByStrategy(rows: seq<StrategyRow>): (groups: seq<Group>)
    ensures forall x :: x in MapSeq(groups, GroupStrategy) <==> x in MapSeq(rows, StrategyName)
    ensures forall i, j :: 0 <= i < j < |groups| ==>
      StrLe(groups[i].strategy, groups[j].strategy) && groups[i].strategy != groups[j].strategy
    ensures forall i :: 0 <= i < |groups| ==> groups[i].netAssets == NetAssetsOf(rows, groups[i].strategy)
    ensures Sum(groups, GroupNetAssets) == Sum(rows, NetAssets)
  {
    var keys := Keys(rows);
    GroupsConserveTotal(keys, rows);
    var groups := GroupsFor(keys, rows);
    assert MapSeq(groups, GroupStrategy) == keys;
    groups
  }

  /** Each group with its share of `total`, in percent. */
  function WithPercent(groups: seq<Group>, total: real): (wedges: seq<Wedge>)
    requires total != 0.0
    ensures |wedges| == |groups|
    ensures forall i :: 0 <= i < |groups| ==>
      wedges[i] == Wedge(groups[i].strategy, groups[i].netAssets, groups[i].netAssets / total * 100.0)
  {
    if groups == [] then []
    else
      var g := groups[0];
      [Wedge(g.strategy, g.netAssets, g.netAssets / total * 100.0)] + WithPercent(groups[1..], total)
  }

  function NoDataTitle(country: string): string
  {
    "No strategy data for " + country
  }

  /**
   * The placeholder titled for the country when it has no strategy rows or
   * their Net Assets sum to zero; otherwise one wedge per distinct strategy,
   * carrying that strategy's summed Net Assets and its percentage of the
   * country's total.
   */
  function UpdateStrategyGraph(ds: Dataset, country: string): (chart: Chart<Wedge>)
    ensures chart.Empty? <==> Slice(ds, country) == [] || Sum(Slice(ds, country), NetAssets) == 0.0
    ensures chart.Empty? ==> chart.title == "No strategy data for " + country
    ensures chart.Series? ==> forall i :: 0 <= i < |chart.points| ==>
      && chart.points[i].netAssets == NetAssetsOf(Slice(ds, country), chart.points[i].strategy)
      && chart.points[i].percent == chart.points[i].netAssets / Sum(Slice(ds, country), NetAssets) * 100.0
  {
    var slice := Slice(ds, country);
    if slice == [] then Empty(NoDataTitle(country))
    else
      var groups := GroupByStrategy(slice);
      var total := Sum(groups, GroupNetAssets);
      GroupsConserveTotal(Keys(slice), slice);
      if total == 0.0 then Empty(NoDataTitle(country))
      else Series(WithPercent(groups, total))
  }

  /**
   * The chart has one wedge for each distinct strategy of the country, and
   * the strategies ascend strictly.
   */
  lemma OneWedgePerStrategy(ds: Dataset, country: string)
    requires UpdateStrategyGraph(ds, country).Series?
    ensures var wedges := UpdateStrategyGraph(ds, country).points;
      && (forall x :: x in MapSeq(wedges, WedgeStrategy) <==> x in MapSeq(Slice(ds, country), StrategyName))
      && (forall i, j :: 0 <= i < j < |wedges| ==>
            StrLe(wedges[i].strategy, wedges[j].strategy) && wedges[i].strategy != wedges[j].strategy)
  {
    var slice := Slice(ds, country);
    var wedges := UpdateStrategyGraph(ds, country).points;
    var keys := Keys(slice);
    assert MapSeq(wedges, WedgeStrategy) == keys;
  }

  /** The wedges' Net Assets add up to the country's total. */
  lemma WedgesConserveTotal(ds: Dataset, country: string)
    requires UpdateStrategyGraph(ds, country).Series?
    ensures Sum(UpdateStrategyGraph(ds, country).points, WedgeNetAssets) == Sum(Slice(ds, country), NetAssets)
  {
    var slice := Slice(ds, country);
    var groups := GroupByStrategy(slice);
    var total := Sum(groups, GroupNetAssets);
    GroupsConserveTotal(Keys(slice), slice);
    SumWithPercent(groups, total);
  }

  /** The wedges' percentages add up to 100. */
  lemma PercentagesSumTo100(ds: Dataset, country: string)
    requires UpdateStrategyGraph(ds, country).Series?
    ensures Sum(UpdateStrategyGraph(ds, country).points, WedgePercent) == 100.0
  {
    var slice := Slice(ds, country);
    var groups := GroupByStrategy(slice);
    var total := Sum(groups, GroupNetAssets);
    assert slice != [] && total != 0.0;
    assert UpdateStrategyGraph(ds, country).points == WithPercent(groups, total);
    SumWithPercent(groups, total);
    WholeIsHundredPercent(total);
  }

  lemma WholeIsHundredPercent(total: real)
    requires total != 0.0
    ensures total / total * 100.0 == 100.0
  {
  }

  /** Adding percentages keeps the Net Assets and scales them to 100 over `total`. */
  lemma {:induction false} SumWithPercent(groups: seq<Group>, total: real)
    requires total != 0.0
    ensures Sum(WithPercent(groups, total), WedgeNetAssets) == Sum(groups, GroupNetAssets)
    ensures Sum(WithPercent(groups, total), WedgePercent) == Sum(groups, GroupNetAssets) / total * 100.0
  {
    if groups != [] {
      var w := WithPercent(groups, total);
      assert w[1..] == WithPercent(groups[1..], total);
      SumWithPercent(groups[1..], total);
      var a, rest := groups[0].netAssets, Sum(groups[1..], GroupNetAssets);
      assert a / total * 100.0 + rest / total * 100.0 == (a + rest) / total * 100.0;
    }
  }

  /** The amount of one row that falls into the groups of `keys`. */
  function Hits(keys: seq<string>, r: StrategyRow): real
  {
    if r.strategy in keys then r.netAssets else 0.0
  }

  /** A row added in front of the frame adds its Net Assets to its own group only. */
  lemma {:induction false} GroupsWithRow(keys: seq<string>, r: StrategyRow, rest: seq<StrategyRow>)
    requires NoDup(keys)
    ensures Sum(GroupsFor(keys, [r] + rest), GroupNetAssets) == Sum(GroupsFor(keys, rest), GroupNetAssets) + Hits(keys, r)
  {
    if keys != [] {
      var rows := [r] + rest;
      assert rows[1..] == rest;
      assert GroupsFor(keys, rows)[1..] == GroupsFor(keys[1..], rows);
      assert GroupsFor(keys, rest)[1..] == GroupsFor(keys[1..], rest);
      assert NoDup(keys[1..]) by {
        forall i, j | 0 <= i < j < |keys[1..]| ensures keys[1..][i] != keys[1..][j] {
          assert keys[1..][i] == keys[i + 1] && keys[1..][j] == keys[j + 1];
        }
      }
      GroupsWithRow(keys[1..], r, rest);
      if r.strategy == keys[0] {
        assert r.strategy !in keys[1..] by {
          forall j | 0 <= j < |keys[1..]| ensures keys[1..][j] != keys[0] {
            assert keys[1..][j] == keys[j + 1];
          }
        }
      }
    }
  }

  /**
   * Grouping by a duplicate-free key list that covers every row's strategy
   * keeps the total: no row is lost and none is counted twice.
   */
  lemma {:induction false} GroupsConserveTotal(keys: seq<string>, rows: seq<StrategyRow>)
    requires NoDup(keys)
    requires forall x :: x in MapSeq(rows, StrategyName) ==> x in keys
    ensures Sum(GroupsFor(keys, rows), GroupNetAssets) == Sum(rows, NetAssets)
  {
    if rows == [] {
      GroupsOfNothing(keys);
    } else {
      assert rows == [rows[0]] + rows[1..];
      assert MapSeq(rows, StrategyName)[0] == rows[0].strategy;
      forall x | x in MapSeq(rows[1..], StrategyName) ensures x in keys {
        var j :| 0 <= j < |rows[1..]| && MapSeq(rows[1..], StrategyName)[j] == x;
        assert MapSeq(rows, StrategyName)[j + 1] == x;
      }
      GroupsConserveTotal(keys, rows[1..]);
      GroupsWithRow(keys, rows[0], rows[1..]);
    }
  }

  lemma {:induction false} GroupsOfNothing(keys: seq<string>)
    ensures Sum(GroupsFor(keys, []), GroupNetAssets) == 0.0
  {
    if keys != [] {
      assert GroupsFor(keys, [])[1..] == GroupsFor(keys[1..], []);
      GroupsOfNothing(keys[1..]);
    }
  }

  /** Two Long/Short rows of 60 and 40 and a Macro row of 100, all for one country. */
  function ExampleRows(): seq<StrategyRow>
  {
    [StrategyRow("X", "Long/Short", 60.0), StrategyRow("X", "Long/Short", 40.0),
     StrategyRow("X", "Macro", 100.0)]
  }

  lemma ExampleKeys()
    ensures Keys(ExampleRows()) == ["Long/Short", "Macro"]
  {
    var names := MapSeq(ExampleRows(), StrategyName);
    assert names == ["Long/Short", "Long/Short", "Macro"];
    assert names[..1] == ["Long/Short"] && names[..2] == ["Long/Short", "Long/Short"];
    assert Distinct(names[..1]) == ["Long/Short"] by {
      assert names[..1][..0] == [];
    }
    assert Distinct(names[..2]) == ["Long/Short"] by {
      assert names[..2][..1] == names[..1];
    }
    assert Distinct(names) == ["Long/Short", "Macro"] by {
      assert names[..|names| - 1] == names[..2];
    }
    assert StrLe("Long/Short", "Macro");
  }

  lemma ExampleGroups()
    ensures GroupByStrategy(ExampleRows()) == [Group("Long/Short", 100.0), Group("Macro", 100.0)]
  {
    var rows := ExampleRows();
    ExampleKeys();
    assert NetAssetsOf(rows, "Long/Short") == 100.0;
    assert NetAssetsOf(rows, "Macro") == 100.0;
  }

  lemma ExampleSlice()
    ensures Slice(Dataset([], [], [], ExampleRows(), []), "X") == ExampleRows()
  {
    var rows := ExampleRows();
    assert rows[1..][1..][1..] == [];
  }

  lemma ExampleWedges()
    ensures Sum(GroupByStrategy(ExampleRows()), GroupNetAssets) == 200.0
    ensures WithPercent(GroupByStrategy(ExampleRows()), 200.0)
      == [Wedge("Long/Short", 100.0, 50.0), Wedge("Macro", 100.0, 50.0)]
  {
    ExampleGroups();
  }

  /** The example makes two wedges of 100 each, 50% apiece. */
  lemma GroupingExample()
    ensures UpdateStrategyGraph(Dataset([], [], [], ExampleRows(), []), "X")
      == Series([Wedge("Long/Short", 100.0, 50.0), Wedge("Macro", 100.0, 50.0)])
  {
    ExampleSlice();
    ExampleWedges();
  }
}
