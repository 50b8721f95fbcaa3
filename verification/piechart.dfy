/** The pie-chart page: a two-level drill-down over the income and the
    expense categories, and the slices each chart is drawn from. */
module PieChart {
  import opened Outcomes
  import opened Seqs
  import opened Report

  datatype Kind = Income | Expense

  datatype Level = One | Two

  /** One chart's `ChartState`. The `type` field the page also stores is
      never read, so the kind is given by the chart the state belongs to. */
  datatype ChartState = ChartState(level: Level, selected: Option<string>)

  /** The page's `incomeState` and `expenseState` */
  datatype Page = Page(income: ChartState, expense: ChartState) {
    function Get(kind: Kind): ChartState {
      match kind
      case Income => income
      case Expense => expense
    }

    function Set(kind: Kind, st: ChartState): (r: Page)
      ensures r.Get(kind) == st
      ensures forall other :: other != kind ==> r.Get(other) == Get(other)
    {
      match kind
      case Income => this.(income := st)
      case Expense => this.(expense := st)
    }
  }

  /** Both charts start at the category level */
  const Start := Page(ChartState(One, None), ChartState(One, None))

  // ---------------------------------------------------------------------
  // Data shown
  // ---------------------------------------------------------------------

  /** `prepareLevel1IncomeData` / `prepareLevel1ExpenseData` */
  function Level1Data(a: Analysis, kind: Kind): (r: seq<Entry>)
    ensures var src := if kind == Income then a.incomeByCategory else a.expenseByMainCategory;
            && (src.None? ==> r == [])
            && (src.Some? ==> IsSubseq(r, src.value)
                              && (forall i :: 0 <= i < |src.value| && src.value[i].value > 0 ==> src.value[i] in r)
                              && forall e :: multiset(r)[e] == if e.value > 0 then multiset(src.value)[e] else 0)
    ensures forall i :: 0 <= i < |r| ==> r[i].value > 0
  {
    var src := if kind == Income then a.incomeByCategory else a.expenseByMainCategory;
    match src
    case None => []
    case Some(entries) => Positive(entries)
  }

  /** `prepareLevel2IncomeData(category)` / `prepareLevel2ExpenseData(category)` */
  function Level2Data(a: Analysis, kind: Kind, category: string): (r: seq<Entry>)
    ensures var groups := if kind == Income then a.income else a.expense;
            && (groups.None? || Lookup(groups.value, category).None? ==> r == [])
            && (groups.Some? && Lookup(groups.value, category).Some? ==>
                  var items := Lookup(groups.value, category).value;
                  && IsSubseq(r, items)
                  && (forall i :: 0 <= i < |items| && items[i].value > 0 ==> items[i] in r)
                  && forall e :: multiset(r)[e] == if e.value > 0 then multiset(items)[e] else 0)
    ensures forall i :: 0 <= i < |r| ==> r[i].value > 0
  {
    var groups := if kind == Income then a.income else a.expense;
    if groups.None? then []
    else
      match Lookup(groups.value, category)
      case None => []
      case Some(items) => Positive(items)
  }

  /** `getCurrentIncomeData` / `getCurrentExpenseData`: an empty selected
      category is falsy and shows nothing */
  function CurrentData(a: Analysis, kind: Kind, st: ChartState): (r: seq<Entry>)
    ensures st.level == One ==> r == Level1Data(a, kind)
    ensures st.level == Two && st.selected.Some? && st.selected.value != [] ==> r == Level2Data(a, kind, st.selected.value)
    ensures st.level == Two && (st.selected.None? || st.selected.value == []) ==> r == []
  {
    if st.level == One then Level1Data(a, kind)
    else if st.selected.Some? && st.selected.value != [] then Level2Data(a, kind, st.selected.value)
    else []
  }

  // ---------------------------------------------------------------------
  // Clicks
  // ---------------------------------------------------------------------

  /** `handlePieClick(type, categoryName)`: drills down from the category
      level; does nothing at the item level */
  function PieClick(p: Page, kind: Kind, name: string): (r: Page)
    ensures p.Get(kind).level == One ==> r.Get(kind) == ChartState(Two, Some(name))
    ensures p.Get(kind).level == Two ==> r == p
    ensures forall other :: other != kind ==> r.Get(other) == p.Get(other)
  {
    if p.Get(kind).level == One then p.Set(kind, ChartState(Two, Some(name))) else p
  }

  /** `handleListClick(type)`: back to the category level, forgetting the
      selection; does nothing at the category level */
  function ListClick(p: Page, kind: Kind): (r: Page)
    ensures p.Get(kind).level == Two ==> r.Get(kind) == ChartState(One, None)
    ensures p.Get(kind).level == One ==> r == p
    ensures forall other :: other != kind ==> r.Get(other) == p.Get(other)
  {
    if p.Get(kind).level == Two then p.Set(kind, ChartState(One, None)) else p
  }

  /** A click on a row of the full list: drills down at the category level,
      goes back at the item level */
  function RowClick(p: Page, kind: Kind, name: string): (r: Page)
    ensures r.Get(kind).level != p.Get(kind).level
    ensures forall other :: other != kind ==> r.Get(other) == p.Get(other)
  {
    if p.Get(kind).level == One then PieClick(p, kind, name) else ListClick(p, kind)
  }

  /** The "back" button, only shown at the item level */
  function Back(p: Page, kind: Kind): (r: Page)
    requires p.Get(kind).level == Two
    ensures r == ListClick(p, kind)
  {
    p.Set(kind, ChartState(One, None))
  }

  /** Drilling down and coming back restores a chart that had no selection,
      and the other chart is never touched */
  lemma DrillDownAndBack(p: Page, kind: Kind, name: string)
    requires p.Get(kind) == ChartState(One, None)
    ensures ListClick(PieClick(p, kind, name), kind) == p
  {
    var q := ListClick(PieClick(p, kind, name), kind);
    assert q.Get(Income) == p.Get(Income) && q.Get(Expense) == p.Get(Expense);
  }

  /** After a drill-down on a non-empty category name the chart shows that
      category's positive items */
  lemma DrillDownShowsItems(a: Analysis, p: Page, kind: Kind, name: string)
    requires p.Get(kind).level == One && name != []
    ensures CurrentData(a, kind, PieClick(p, kind, name).Get(kind)) == Level2Data(a, kind, name)
  {
  }

  // ---------------------------------------------------------------------
  // The chart
  // ---------------------------------------------------------------------

  /** One drawn slice: an entry with its pre-sort position and the chart
      total */
  datatype Slice = Slice(name: string, value: int, originalIndex: nat, total: int)

  function SliceValue(s: Slice): int { s.value }

  /** `data.map((item, index) => ({ ...item, originalIndex: index }))`, with
      the total attached (attaching it before or after the sort gives the same
      slices, as the comparator only reads `value`) */
  function Indexed(data: seq<Entry>, total: int): (r: seq<Slice>)
    ensures |r| == |data|
    ensures forall i :: 0 <= i < |r| ==> r[i] == Slice(data[i].name, data[i].value, i, total)
  {
    seq(|data|, i requires 0 <= i < |data| => Slice(data[i].name, data[i].value, i, total))
  }

  /** What `renderChart` draws: the slices in drawing order, whether the
      labels are shown and the "top 5" side list */
  datatype Chart = Chart(slices: seq<Slice>, showLabel: bool, top: seq<Slice>)

  const TopCount := 5

  /** `renderChart`'s data shaping. The slices are the entries sorted by
      value, largest first, by a stable sort; each remembers where its entry
      was and carries the total. */
  function BuildChart(data: seq<Entry>, total: int): (c: Chart)
    ensures |c.slices| == |data|
    ensures multiset(c.slices) == multiset(Indexed(data, total))
    ensures SortedDesc(c.slices, SliceValue)
    ensures forall v :: Ties(c.slices, SliceValue, v) == Ties(Indexed(data, total), SliceValue, v)
    ensures forall i :: 0 <= i < |c.slices| ==>
              var s := c.slices[i];
              s.originalIndex < |data| && data[s.originalIndex] == Entry(s.name, s.value) && s.total == total
    ensures c.showLabel <==> |data| <= TopCount
    ensures |c.top| == (if |data| < TopCount then |data| else TopCount)
    ensures forall i :: 0 <= i < |c.top| ==> c.top[i] == c.slices[i]
  {
    var slices := SortDesc(Indexed(data, total), SliceValue);
    SortDescSorted(Indexed(data, total), SliceValue);
    forall v
      ensures Ties(slices, SliceValue, v) == Ties(Indexed(data, total), SliceValue, v)
    {
      SortDescStable(Indexed(data, total), SliceValue, v);
    }
    SlicesFromEntries(data, total, slices);
    var top := if |slices| < TopCount then slices else slices[..TopCount];
    Chart(slices, |data| <= TopCount, top)
  }

  /** Any reordering of the tagged entries still points each slice at its
      entry */
  lemma SlicesFromEntries(data: seq<Entry>, total: int, slices: seq<Slice>)
    requires multiset(slices) == multiset(Indexed(data, total))
    ensures forall i :: 0 <= i < |slices| ==>
              var s := slices[i];
              s.originalIndex < |data| && data[s.originalIndex] == Entry(s.name, s.value) && s.total == total
  {
    forall i | 0 <= i < |slices|
      ensures slices[i].originalIndex < |data| && data[slices[i].originalIndex] == Entry(slices[i].name, slices[i].value)
      ensures slices[i].total == total
    {
      assert slices[i] in multiset(Indexed(data, total));
    }
  }

  /** Slices of equal value are drawn in the order of their entries */
  predicate IncreasingIndex(s: seq<Slice>) {
    forall a, b :: 0 <= a < b < |s| ==> s[a].originalIndex < s[b].originalIndex
  }

  lemma {:induction false} TiesKeepIndexOrder(s: seq<Slice>, v: int)
    requires IncreasingIndex(s)
    ensures IncreasingIndex(Ties(s, SliceValue, v))
  {
    if s != [] {
      var tail := s[1..];
      var rest := Ties(tail, SliceValue, v);
      assert IncreasingIndex(tail) by {
        forall a, b | 0 <= a < b < |tail|
          ensures tail[a].originalIndex < tail[b].originalIndex
        {
          assert tail[a] == s[a + 1] && tail[b] == s[b + 1];
        }
      }
      TiesKeepIndexOrder(tail, v);
      if s[0].value == v {
        var t := [s[0]] + rest;
        assert Ties(s, SliceValue, v) == t;
        TiesIn(tail, SliceValue, v);
        forall a, b | 0 <= a < b < |t|
          ensures t[a].originalIndex < t[b].originalIndex
        {
          assert t[b] == rest[b - 1];
          if a == 0 {
            assert rest[b - 1] in tail;
            var j :| 0 <= j < |tail| && tail[j] == rest[b - 1];
            assert tail[j] == s[j + 1];
          } else {
            assert t[a] == rest[a - 1];
          }
        }
      } else {
        assert Ties(s, SliceValue, v) == rest;
      }
    }
  }

  /** The sort is stable: slices of equal value keep the order of their
      entries in the data */
  lemma ChartIsStable(data: seq<Entry>, total: int)
    ensures var s := BuildChart(data, total).slices;
            forall i, j :: 0 <= i < j < |s| && s[i].value == s[j].value ==> s[i].originalIndex < s[j].originalIndex
  {
    var src := Indexed(data, total);
    var s := BuildChart(data, total).slices;
    assert IncreasingIndex(src);
    forall i, j | 0 <= i < j < |s| && s[i].value == s[j].value
      ensures s[i].originalIndex < s[j].originalIndex
    {
      StableAt(s, src, i, j);
    }
  }

  /** Two slices of equal value in a sequence whose ties are those of an
      index-ordered source come in index order */
  lemma StableAt(s: seq<Slice>, src: seq<Slice>, i: nat, j: nat)
    requires i < j < |s| && s[i].value == s[j].value
    requires Ties(s, SliceValue, s[i].value) == Ties(src, SliceValue, s[i].value)
    requires IncreasingIndex(src)
    ensures s[i].originalIndex < s[j].originalIndex
  {
    var v := s[i].value;
    var t := Ties(s, SliceValue, v);
    TiesAt(s, SliceValue, i);
    TiesAt(s, SliceValue, j);
    TiesBefore(s, SliceValue, i, j);
    TiesKeepIndexOrder(src, v);
    var a, b := |Ties(s[..i], SliceValue, v)|, |Ties(s[..j], SliceValue, v)|;
    assert a < b < |t| && t[a] == s[i] && t[b] == s[j];
  }

  lemma {:induction false} IndexedSum(s: seq<Slice>, data: seq<Entry>)
    requires |s| == |data| && forall i :: 0 <= i < |s| ==> s[i].value == data[i].value
    ensures SumBy(s, SliceValue) == Total(data)
  {
    if s != [] {
      IndexedSum(s[1..], data[1..]);
    }
  }

  /** The chart total is the sum of the drawn values */
  lemma ChartTotal(data: seq<Entry>)
    ensures SumBy(BuildChart(data, Total(data)).slices, SliceValue) == Total(data)
  {
    IndexedSum(Indexed(data, Total(data)), data);
    SortDescSum(Indexed(data, Total(data)), SliceValue, SliceValue);
  }

  // ---------------------------------------------------------------------
  // Colours
  // ---------------------------------------------------------------------

  const IncomeColors: seq<string> := ["#3b82f6", "#8b5cf6", "#ec4899", "#10b981", "#f59e0b", "#14b8a6", "#f97316"]
  const ExpenseColors: seq<string> := ["#ef4444", "#f97316", "#eab308", "#06b6d4", "#8b5cf6", "#ec4899"]

  function Palette(kind: Kind): (r: seq<string>)
    ensures |r| == (if kind == Income then 7 else 6)
  {
    if kind == Income then IncomeColors else ExpenseColors
  }

  /** `colors[colorIndex % colors.length]` */
  function ColorOf(s: Slice, palette: seq<string>): (c: string)
    requires palette != []
    ensures c in palette
  {
    palette[s.originalIndex % |palette|]
  }

  predicate Distinct(s: seq<string>) {
    forall i, j :: 0 <= i < j < |s| ==> s[i] != s[j]
  }

  lemma PalettesDistinct()
    ensures Distinct(Palette(Income)) && Distinct(Palette(Expense))
  {
  }

  /** A slice's colour depends only on where its entry was before the sort,
      so sorting never moves a colour to another entry; with a palette of
      distinct colours, two of the first palette-length entries share a
      colour exactly when they are the same entry */
  lemma ColorsFollowEntries(x: Slice, y: Slice, palette: seq<string>)
    requires palette != [] && Distinct(palette)
    requires x.originalIndex < |palette| && y.originalIndex < |palette|
    ensures ColorOf(x, palette) == ColorOf(y, palette) <==> x.originalIndex == y.originalIndex
  {
    assert x.originalIndex % |palette| == x.originalIndex;
    assert y.originalIndex % |palette| == y.originalIndex;
    if x.originalIndex < y.originalIndex {
      assert palette[x.originalIndex] != palette[y.originalIndex];
    } else if y.originalIndex < x.originalIndex {
      assert palette[y.originalIndex] != palette[x.originalIndex];
    }
  }

  /** The chart a page state shows */
  function View(a: Analysis, p: Page, kind: Kind): (c: Chart)
    ensures |c.slices| == |CurrentData(a, kind, p.Get(kind))|
    ensures forall i :: 0 <= i < |c.slices| ==> c.slices[i].value > 0
  {
    var data := CurrentData(a, kind, p.Get(kind));
    var c := BuildChart(data, Total(data));
    assert forall i :: 0 <= i < |c.slices| ==> c.slices[i].value == data[c.slices[i].originalIndex].value;
    c
  }
}
