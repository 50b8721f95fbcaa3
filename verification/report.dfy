/** The analysis result that the pie-chart and heat-map pages fetch. The
    JSON objects `{ [name]: number }` and `{ [category]: { [item]: number } }`
    are read through `Object.entries`/`Object.keys`, so they are modelled as
    the sequences those calls produce, in property order. Amounts are whole
    won. */
module Report {
  import opened Outcomes
  import opened Seqs

  /** One `[name, value]` pair of `Object.entries` */
  datatype Entry = Entry(name: string, value: int)

  /** One category of a nested object and the entries of its items */
  datatype Group = Group(category: string, items: seq<Entry>)

  /** The fields of the response the charts read; `None` is a missing or
      `null` field */
  datatype Analysis = Analysis(
    incomeByCategory: Option<seq<Entry>>,
    expenseByMainCategory: Option<seq<Entry>>,
    income: Option<seq<Group>>,
    expense: Option<seq<Group>>)

  function Value(e: Entry): int { e.value }

  /** `.filter(([, value]) => value > 0)`: the positive entries, in order */
  function Positive(s: seq<Entry>): (r: seq<Entry>)
    ensures forall i :: 0 <= i < |r| ==> r[i].value > 0
    ensures forall i :: 0 <= i < |s| && s[i].value > 0 ==> s[i] in r
    ensures forall i :: 0 <= i < |r| ==> r[i] in s
    ensures IsSubseq(r, s)
    ensures forall e :: multiset(r)[e] == if e.value > 0 then multiset(s)[e] else 0
  {
    var positive := (e: Entry) => e.value > 0;
    FilterMultiset(s, positive);
    Filter(s, positive)
  }

  /** `items.reduce((sum, item) => sum + item.value, 0)` */
  function Total(s: seq<Entry>): int
  {
    SumBy(s, Value)
  }

  /** A total of positive entries is positive exactly when there is one, and
      it is at least every one of them */
  lemma {:induction false} TotalOfPositive(s: seq<Entry>)
    requires forall i :: 0 <= i < |s| ==> s[i].value > 0
    ensures Total(s) > 0 <==> s != []
    ensures forall i :: 0 <= i < |s| ==> s[i].value <= Total(s)
  {
    SumOfPositives(s, Value);
    if s != [] {
      TotalOfPositive(s[1..]);
      forall i | 1 <= i < |s|
        ensures s[i].value <= Total(s)
      {
        assert s[i] == s[1..][i - 1];
      }
    }
  }

  /** `obj[category]` on a nested object: the items of the first group with
      that category, or `None` when there is none */
  function Lookup(groups: seq<Group>, category: string): (r: Option<seq<Entry>>)
    ensures r.None? <==> forall i :: 0 <= i < |groups| ==> groups[i].category != category
    ensures r.Some? ==> exists i :: 0 <= i < |groups| && groups[i] == Group(category, r.value)
  {
    if groups == [] then None
    else if groups[0].category == category then Some(groups[0].items)
    else
      var r := Lookup(groups[1..], category);
      assert forall i :: 1 <= i < |groups| ==> groups[i] == groups[1..][i - 1];
      r
  }
}
