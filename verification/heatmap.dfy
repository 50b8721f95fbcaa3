/** The heat-map page: expense categories with their positive items, largest
    first, and the colour intensity of each cell. */
module Heatmap {
  import opened Outcomes
  import opened Seqs
  import opened Report

  /** One row of `prepareHeatmapData`'s result */
  datatype Row = Row(category: string, total: int, items: seq<Entry>)

  function RowTotal(r: Row): int { r.total }

  /** The row of one category: its positive items sorted by value, largest
      first and stable, and their sum */
  function CategoryRow(g: Group): (r: Row)
    ensures r.category == g.category
    ensures multiset(r.items) == multiset(Positive(g.items))
    ensures SortedDesc(r.items, Value)
    ensures forall v :: Ties(r.items, Value, v) == Ties(Positive(g.items), Value, v)
    ensures forall i :: 0 <= i < |r.items| ==> r.items[i].value > 0
    ensures r.total == Total(r.items) == Total(Positive(g.items))
    ensures r.total > 0 <==> r.items != []
  {
    var positive := Positive(g.items);
    var items := SortDesc(positive, Value);
    forall i | 0 <= i < |items|
      ensures items[i].value > 0
    {
      assert items[i] in multiset(positive);
    }
    SortDescSorted(positive, Value);
    forall v
      ensures Ties(items, Value, v) == Ties(positive, Value, v)
    {
      SortDescStable(positive, Value, v);
    }
    SortDescSum(positive, Value, Value);
    TotalOfPositive(items);
    Row(g.category, Total(items), items)
  }

  /** `prepareHeatmapData`: no expense object gives no rows; otherwise the
      rows of the categories, without those whose total is 0, sorted by total,
      largest first, by a stable sort */
  function PrepareHeatmap(expense: Option<seq<Group>>): (r: seq<Row>)
    ensures expense.None? ==> r == []
    ensures expense.Some? ==>
              var rows := Filter(Rows(expense.value), (row: Row) => row.total > 0);
              && multiset(r) == multiset(rows)
              && SortedDesc(r, RowTotal)
              && forall v :: Ties(r, RowTotal, v) == Ties(rows, RowTotal, v)
    ensures forall i :: 0 <= i < |r| ==> r[i].total > 0 && r[i].items != []
  {
    match expense
    case None => []
    case Some(groups) =>
      var rows := Filter(Rows(groups), (row: Row) => row.total > 0);
      var r := SortDesc(rows, RowTotal);
      SortDescSorted(rows, RowTotal);
      forall v
        ensures Ties(r, RowTotal, v) == Ties(rows, RowTotal, v)
      {
        SortDescStable(rows, RowTotal, v);
      }
      forall i | 0 <= i < |r|
        ensures r[i].total > 0 && r[i].items != []
      {
        assert r[i] in multiset(rows);
        var j :| 0 <= j < |rows| && rows[j] == r[i];
        assert rows[j] in Rows(groups);
      }
      r
  }

  /** `Object.keys(data.expense).map(category => ...)` */
  function Rows(groups: seq<Group>): (r: seq<Row>)
    ensures |r| == |groups|
    ensures forall i :: 0 <= i < |r| ==> r[i] == CategoryRow(groups[i])
  {
    seq(|groups|, i requires 0 <= i < |groups| => CategoryRow(groups[i]))
  }

  /** Every category with a positive item has a row, and every row is the
      row of a category */
  lemma RowsOfCategories(groups: seq<Group>)
    ensures forall j :: 0 <= j < |groups| && Positive(groups[j].items) != [] ==>
              CategoryRow(groups[j]) in PrepareHeatmap(Some(groups))
    ensures forall i :: 0 <= i < |PrepareHeatmap(Some(groups))| ==>
              exists j :: 0 <= j < |groups| && PrepareHeatmap(Some(groups))[i] == CategoryRow(groups[j])
  {
    CategoriesHaveRows(groups);
    forall i | 0 <= i < |PrepareHeatmap(Some(groups))|
      ensures exists j :: 0 <= j < |groups| && PrepareHeatmap(Some(groups))[i] == CategoryRow(groups[j])
    {
      RowHasCategory(groups, i);
    }
    assert forall i :: 0 <= i < |PrepareHeatmap(Some(groups))| ==>
              exists j :: 0 <= j < |groups| && PrepareHeatmap(Some(groups))[i] == CategoryRow(groups[j]);
  }

  lemma CategoriesHaveRows(groups: seq<Group>)
    ensures forall j :: 0 <= j < |groups| && Positive(groups[j].items) != [] ==>
              CategoryRow(groups[j]) in PrepareHeatmap(Some(groups))
  {
    var rows := Filter(Rows(groups), (row: Row) => row.total > 0);
    var r := PrepareHeatmap(Some(groups));
    assert multiset(r) == multiset(rows);
    forall j | 0 <= j < |groups| && Positive(groups[j].items) != []
      ensures CategoryRow(groups[j]) in r
    {
      assert Rows(groups)[j] == CategoryRow(groups[j]);
      assert CategoryRow(groups[j]) in rows;
      assert CategoryRow(groups[j]) in multiset(r);
    }
  }

  lemma RowHasCategory(groups: seq<Group>, i: nat)
    requires i < |PrepareHeatmap(Some(groups))|
    ensures exists j :: 0 <= j < |groups| && PrepareHeatmap(Some(groups))[i] == CategoryRow(groups[j])
  {
    var rows := Filter(Rows(groups), (row: Row) => row.total > 0);
    var r := PrepareHeatmap(Some(groups));
    assert multiset(r) == multiset(rows);
    assert r[i] in multiset(rows);
    assert r[i] in Rows(groups);
    var j :| 0 <= j < |Rows(groups)| && Rows(groups)[j] == r[i];
    assert r[i] == CategoryRow(groups[j]);
  }

  /** `Math.max(...heatmapData.map(item => item.total), 1)` */
  function MaxValue(rows: seq<Row>): (m: int)
    ensures m >= 1
    ensures forall i :: 0 <= i < |rows| ==> rows[i].total <= m
    ensures m == 1 || exists i :: 0 <= i < |rows| && rows[i].total == m
  {
    if rows == [] then 1
    else
      var rest := MaxValue(rows[1..]);
      assert forall i :: 1 <= i < |rows| ==> rows[i] == rows[1..][i - 1];
      if rows[0].total > rest then rows[0].total else rest
  }

  /** `getIntensity(value, maxValue)`, over exact rationals */
  function Intensity(value: int, maxValue: int): (r: real)
    ensures maxValue == 0 ==> r == 0.0
    ensures r <= 1.0
    ensures 0 <= value && 0 < maxValue ==> 0.0 <= r
    ensures 0 <= value <= maxValue && 0 < maxValue ==> r == value as real / maxValue as real
    ensures value >= maxValue > 0 ==> r == 1.0
  {
    if maxValue == 0 then 0.0
    else
      var q := value as real / maxValue as real;
      if q < 1.0 then q else 1.0
  }

  /** A category's intensity is in (0, 1], and is 1 for the largest
      category */
  lemma CategoryIntensity(expense: Option<seq<Group>>, i: nat)
    requires i < |PrepareHeatmap(expense)|
    ensures var rows := PrepareHeatmap(expense);
            var r := Intensity(rows[i].total, MaxValue(rows));
            0.0 < r <= 1.0 && (i == 0 ==> r == 1.0)
  {
    var rows := PrepareHeatmap(expense);
    RowIntensity(rows, i);
  }

  lemma RowIntensity(rows: seq<Row>, i: nat)
    requires i < |rows| && SortedDesc(rows, RowTotal)
    requires forall k :: 0 <= k < |rows| ==> rows[k].total > 0
    ensures var r := Intensity(rows[i].total, MaxValue(rows));
            0.0 < r <= 1.0 && (i == 0 ==> r == 1.0)
  {
    var m := MaxValue(rows);
    if i == 0 {
      if m != 1 {
        var k :| 0 <= k < |rows| && rows[k].total == m;
        assert rows[0].total >= rows[k].total;
      }
      assert rows[0].total >= m;
    }
    Share(rows[i].total, m);
  }

  /** A positive part of a positive whole has an intensity in (0, 1] */
  lemma Share(v: int, m: int)
    requires 0 < v && 0 < m
    ensures 0.0 < Intensity(v, m) <= 1.0
  {
    var q := v as real / m as real;
    assert q * m as real == v as real;
  }

  /** An item's intensity within its category is its share of the category
      total, which is in (0, 1] */
  lemma ItemIntensity(expense: Option<seq<Group>>, i: nat, j: nat)
    requires i < |PrepareHeatmap(expense)| && j < |PrepareHeatmap(expense)[i].items|
    ensures var row := PrepareHeatmap(expense)[i];
            var r := Intensity(row.items[j].value, row.total);
            0.0 < r <= 1.0 && r == row.items[j].value as real / row.total as real
  {
    var row := PrepareHeatmap(expense)[i];
    RowsOfCategories(expense.value);
    var k :| 0 <= k < |expense.value| && row == CategoryRow(expense.value[k]);
    ItemShare(row, j);
  }

  lemma ItemShare(row: Row, j: nat)
    requires j < |row.items|
    requires forall k :: 0 <= k < |row.items| ==> row.items[k].value > 0
    requires row.total == Total(row.items)
    ensures var r := Intensity(row.items[j].value, row.total);
            0.0 < r <= 1.0 && r == row.items[j].value as real / row.total as real
  {
    TotalOfPositive(row.items);
    Share(row.items[j].value, row.total);
  }
}
