/** Sequence utilities shared by the chart and form models: counting,
    filtering, summing, subsequences and the stable descending sort that
    `Array.prototype.sort` performs with a `(a, b) => key(b) - key(a)`
    comparator. */
module Seqs {

  /** Number of occurrences of `x` in `s` */
  function Count<T(==)>(s: seq<T>, x: T): (n: nat)
    ensures n <= |s|
    ensures n == 0 <==> x !in s
  {
    if s == [] then 0 else (if s[0] == x then 1 else 0) + Count(s[1..], x)
  }

  /** `a` is obtained from `b` by deleting elements, keeping the order of the rest */
  predicate IsSubseq<T(==)>(a: seq<T>, b: seq<T>)
    decreases |b|
  {
    if a == [] then true
    else if b == [] then false
    else (a[0] == b[0] && IsSubseq(a[1..], b[1..])) || IsSubseq(a, b[1..])
  }

  /** The elements of `s` that satisfy `p`, in order (`Array.prototype.filter`) */
  function Filter<T(==,!new)>(s: seq<T>, p: T -> bool): (r: seq<T>)
    ensures |r| <= |s|
    ensures forall i :: 0 <= i < |r| ==> r[i] in s
    ensures forall i :: 0 <= i < |s| && p(s[i]) ==> s[i] in r
    ensures forall i :: 0 <= i < |r| ==> p(r[i])
    ensures IsSubseq(r, s)
    ensures (forall i :: 0 <= i < |s| ==> p(s[i])) ==> r == s
  {
    if s == [] then []
    else
      var rest := Filter(s[1..], p);
      if p(s[0]) then
        [s[0]] + rest
      else
        assert rest != [] ==> IsSubseq(rest, s[1..]);
        rest
  }

  lemma {:induction false} FilterAppend<T(!new)>(a: seq<T>, b: seq<T>, p: T -> bool)
    ensures Filter(a + b, p) == Filter(a, p) + Filter(b, p)
  {
    if a != [] {
      var x, rest := a[0], a[1..];
      var head := if p(x) then [x] else [];
      assert a == [x] + rest;
      assert a + b == [x] + (rest + b);
      FilterCons(x, rest + b, p);
      FilterCons(x, rest, p);
      FilterAppend(rest, b, p);
      assert head + (Filter(rest, p) + Filter(b, p)) == (head + Filter(rest, p)) + Filter(b, p);
    } else {
      assert a + b == b;
    }
  }

  lemma FilterCons<T(!new)>(x: T, s: seq<T>, p: T -> bool)
    ensures Filter([x] + s, p) == (if p(x) then [x] else []) + Filter(s, p)
  {
    var xs := [x] + s;
    assert xs[0] == x && xs[1..] == s;
  }

  /** `Filter` keeps every kept element as often as it occurs in `s` */
  lemma {:induction false} FilterMultiset<T(!new)>(s: seq<T>, p: T -> bool)
    ensures forall x :: multiset(Filter(s, p))[x] == if p(x) then multiset(s)[x] else 0
  {
    if s != [] {
      var x, rest := s[0], s[1..];
      assert s == [x] + rest;
      FilterCons(x, rest, p);
      FilterMultiset(rest, p);
      assert multiset(Filter(s, p)) == multiset(if p(x) then [x] else []) + multiset(Filter(rest, p));
    }
  }

  /** `s.reduce((sum, x) => sum + f(x), 0)` */
  function SumBy<T>(s: seq<T>, f: T -> int): int
  {
    if s == [] then 0 else f(s[0]) + SumBy(s[1..], f)
  }

  lemma {:induction false} SumByAppend<T>(a: seq<T>, b: seq<T>, f: T -> int)
    ensures SumBy(a + b, f) == SumBy(a, f) + SumBy(b, f)
  {
    if a == [] {
      assert a + b == b;
    } else {
      assert (a + b)[1..] == a[1..] + b;
      SumByAppend(a[1..], b, f);
    }
  }

  /** A sum of positive terms is positive exactly when there is a term */
  lemma {:induction false} SumOfPositives<T>(s: seq<T>, f: T -> int)
    requires forall i :: 0 <= i < |s| ==> f(s[i]) > 0
    ensures SumBy(s, f) >= 0
    ensures SumBy(s, f) > 0 <==> s != []
  {
    if s != [] {
      SumOfPositives(s[1..], f);
    }
  }

  // ---------------------------------------------------------------------
  // Stable descending sort
  // ---------------------------------------------------------------------

  /** Keys never increase from left to right */
  predicate SortedDesc<T>(s: seq<T>, key: T -> int) {
    forall i, j :: 0 <= i < j < |s| ==> key(s[i]) >= key(s[j])
  }

  /** The elements of `s` whose key is `v`, in order. A sort is stable exactly
      when it leaves `Ties(s, key, v)` unchanged for every `v`. */
  function Ties<T>(s: seq<T>, key: T -> int, v: int): seq<T>
  {
    if s == [] then [] else (if key(s[0]) == v then [s[0]] else []) + Ties(s[1..], key, v)
  }

  lemma {:induction false} TiesAppend<T>(a: seq<T>, b: seq<T>, key: T -> int, v: int)
    ensures Ties(a + b, key, v) == Ties(a, key, v) + Ties(b, key, v)
  {
    if a == [] {
      assert a + b == b;
    } else {
      var ab := a + b;
      assert ab[0] == a[0] && ab[1..] == a[1..] + b;
      TiesAppend(a[1..], b, key, v);
      var head := if key(a[0]) == v then [a[0]] else [];
      assert Ties(ab, key, v) == head + Ties(a[1..] + b, key, v);
      assert Ties(a, key, v) == head + Ties(a[1..], key, v);
    }
  }

  lemma {:induction false} TiesOfSmaller<T>(s: seq<T>, key: T -> int, v: int)
    requires forall i :: 0 <= i < |s| ==> key(s[i]) < v
    ensures Ties(s, key, v) == []
  {
    if s != [] {
      TiesOfSmaller(s[1..], key, v);
    }
  }

  /** Every element with key `v` is an element of `s` */
  lemma {:induction false} TiesIn<T>(s: seq<T>, key: T -> int, v: int)
    ensures forall x :: x in Ties(s, key, v) ==> x in s && key(x) == v
  {
    if s != [] {
      TiesIn(s[1..], key, v);
      assert Ties(s, key, v) == (if key(s[0]) == v then [s[0]] else []) + Ties(s[1..], key, v);
    }
  }

  /** Element `j` sits in `Ties` right after the ties that come before it */
  lemma TiesAt<T>(s: seq<T>, key: T -> int, j: nat)
    requires j < |s|
    ensures var t := Ties(s, key, key(s[j]));
            |Ties(s[..j], key, key(s[j]))| < |t| && t[|Ties(s[..j], key, key(s[j]))|] == s[j]
  {
    var v := key(s[j]);
    assert s == s[..j] + ([s[j]] + s[j + 1..]);
    TiesAppend(s[..j], [s[j]] + s[j + 1..], key, v);
    TiesAppend([s[j]], s[j + 1..], key, v);
    assert Ties([s[j]], key, v) == [s[j]];
  }

  /** An earlier element with the same key sits earlier in `Ties` */
  lemma TiesBefore<T>(s: seq<T>, key: T -> int, i: nat, j: nat)
    requires i < j <= |s|
    ensures |Ties(s[..i], key, key(s[i]))| < |Ties(s[..j], key, key(s[i]))|
  {
    var v := key(s[i]);
    assert s[..j] == s[..i] + ([s[i]] + s[i + 1..j]);
    TiesAppend(s[..i], [s[i]] + s[i + 1..j], key, v);
    TiesAppend([s[i]], s[i + 1..j], key, v);
    assert Ties([s[i]], key, v) == [s[i]];
  }

  /** Places `x` after every element whose key is at least `key(x)`: the
      step an insertion sort takes for the next element in input order. */
  function Insert<T(==)>(x: T, s: seq<T>, key: T -> int): (r: seq<T>)
    ensures |r| == |s| + 1
    ensures multiset(r) == multiset(s) + multiset{x}
  {
    if s == [] then [x]
    else if key(s[0]) >= key(x) then
      var rest := Insert(x, s[1..], key);
      assert s == [s[0]] + s[1..];
      [s[0]] + rest
    else [x] + s
  }

  /** Inserting never introduces a key above a common bound */
  lemma {:induction false} InsertBounded<T>(x: T, s: seq<T>, key: T -> int, b: int)
    requires key(x) <= b
    requires forall i :: 0 <= i < |s| ==> key(s[i]) <= b
    ensures forall i :: 0 <= i < |s| + 1 ==> key(Insert(x, s, key)[i]) <= b
  {
    if s != [] && key(s[0]) >= key(x) {
      InsertBounded(x, s[1..], key, b);
      assert Insert(x, s, key) == [s[0]] + Insert(x, s[1..], key);
    }
  }

  lemma {:induction false} InsertSorted<T>(x: T, s: seq<T>, key: T -> int)
    requires SortedDesc(s, key)
    ensures SortedDesc(Insert(x, s, key), key)
  {
    var r := Insert(x, s, key);
    if s == [] {
    } else if key(s[0]) >= key(x) {
      var rest := Insert(x, s[1..], key);
      InsertSorted(x, s[1..], key);
      InsertBounded(x, s[1..], key, key(s[0]));
      assert r == [s[0]] + rest;
      forall i, j | 0 <= i < j < |r|
        ensures key(r[i]) >= key(r[j])
      {
        assert r[j] == rest[j - 1];
        if i > 0 {
          assert r[i] == rest[i - 1];
        }
      }
    } else {
      assert r == [x] + s;
      forall i, j | 0 <= i < j < |r|
        ensures key(r[i]) >= key(r[j])
      {
        assert r[j] == s[j - 1];
        if i > 0 {
          assert r[i] == s[i - 1];
        } else {
          assert key(s[0]) >= key(s[j - 1]);
        }
      }
    }
  }

  /** The inserted element comes after every element with the same key */
  lemma {:induction false} InsertTies<T>(x: T, s: seq<T>, key: T -> int, v: int)
    requires SortedDesc(s, key)
    ensures Ties(Insert(x, s, key), key, v) == Ties(s, key, v) + (if key(x) == v then [x] else [])
  {
    if s == [] {
      assert Insert(x, s, key) == [x];
      assert Ties([x], key, v) == (if key(x) == v then [x] else []);
    } else if key(s[0]) >= key(x) {
      SortedTail(s, key);
      InsertTies(x, s[1..], key, v);
      assert Insert(x, s, key) == [s[0]] + Insert(x, s[1..], key);
      TiesBehind(s, Insert(x, s[1..], key), key, v, if key(x) == v then [x] else []);
    } else {
      InsertTiesInFront(x, s, key, v);
    }
  }

  /** Putting the first element of `s` back in front of a sequence whose
      ties are those of the rest of `s` plus `tail` */
  lemma TiesBehind<T>(s: seq<T>, rest: seq<T>, key: T -> int, v: int, tail: seq<T>)
    requires s != []
    requires Ties(rest, key, v) == Ties(s[1..], key, v) + tail
    ensures Ties([s[0]] + rest, key, v) == Ties(s, key, v) + tail
  {
    var r := [s[0]] + rest;
    assert r[0] == s[0] && r[1..] == rest;
  }

  /** Inserting in front of a sorted sequence whose keys are all smaller */
  lemma InsertTiesInFront<T>(x: T, s: seq<T>, key: T -> int, v: int)
    requires s != [] && SortedDesc(s, key) && key(s[0]) < key(x)
    ensures Ties(Insert(x, s, key), key, v) == Ties(s, key, v) + (if key(x) == v then [x] else [])
  {
    assert Insert(x, s, key) == [x] + s;
    TiesAppend([x], s, key, v);
    assert Ties([x], key, v) == (if key(x) == v then [x] else []);
    if key(x) == v {
      SortedTail(s, key);
      TiesOfSmaller(s, key, v);
    }
  }

  lemma SortedTail<T>(s: seq<T>, key: T -> int)
    requires s != [] && SortedDesc(s, key)
    ensures SortedDesc(s[1..], key)
    ensures forall i :: 0 <= i < |s| ==> key(s[i]) <= key(s[0])
  {
    forall i, j | 0 <= i < j < |s[1..]|
      ensures key(s[1..][i]) >= key(s[1..][j])
    {
      assert s[1..][i] == s[i + 1] && s[1..][j] == s[j + 1];
    }
  }

  /** Stable sort by non-increasing key: an insertion sort that takes the
      elements in input order. The result is a permutation of `s`; that it is
      ordered and stable is `SortDescSorted` and `SortDescStable`. */
  function SortDesc<T(==)>(s: seq<T>, key: T -> int): (r: seq<T>)
    ensures |r| == |s|
    ensures multiset(r) == multiset(s)
  {
    if s == [] then []
    else
      var init := s[..|s| - 1];
      var last := s[|s| - 1];
      assert s == init + [last];
      Insert(last, SortDesc(init, key), key)
  }

  /** Sorting one more element inserts it into the sorted rest */
  lemma SortDescSnoc<T>(init: seq<T>, last: T, key: T -> int)
    ensures SortDesc(init + [last], key) == Insert(last, SortDesc(init, key), key)
  {
    var s := init + [last];
    assert s[..|s| - 1] == init && s[|s| - 1] == last;
  }

  /** The sort orders its result by non-increasing key */
  lemma {:induction false} SortDescSorted<T>(s: seq<T>, key: T -> int)
    ensures SortedDesc(SortDesc(s, key), key)
  {
    if s != [] {
      var init := s[..|s| - 1];
      SortDescSorted(init, key);
      InsertSorted(s[|s| - 1], SortDesc(init, key), key);
    }
  }

  /** The sort is stable: the elements with any one key keep their input
      order */
  lemma {:induction false} SortDescStable<T>(s: seq<T>, key: T -> int, v: int)
    ensures Ties(SortDesc(s, key), key, v) == Ties(s, key, v)
    decreases |s|, 1
  {
    if s != [] {
      var init, last := s[..|s| - 1], s[|s| - 1];
      assert s == init + [last];
      SnocStable(init, last, key, v);
    }
  }

  lemma {:induction false} SnocStable<T>(init: seq<T>, last: T, key: T -> int, v: int)
    ensures Ties(SortDesc(init + [last], key), key, v) == Ties(init + [last], key, v)
    decreases |init| + 1, 0
  {
    var sorted := SortDesc(init, key);
    var tail := if key(last) == v then [last] else [];
    calc {
      Ties(SortDesc(init + [last], key), key, v);
    == { SortDescSnoc(init, last, key); }
      Ties(Insert(last, sorted, key), key, v);
    == { SortDescSorted(init, key); InsertTies(last, sorted, key, v); }
      Ties(sorted, key, v) + tail;
    == { SortDescStable(init, key, v); }
      Ties(init, key, v) + tail;
    == { assert Ties([last], key, v) == tail; TiesAppend(init, [last], key, v); }
      Ties(init + [last], key, v);
    }
  }

  lemma {:induction false} InsertSum<T>(x: T, s: seq<T>, key: T -> int, f: T -> int)
    ensures SumBy(Insert(x, s, key), f) == SumBy(s, f) + f(x)
  {
    if s != [] && key(s[0]) >= key(x) {
      InsertSum(x, s[1..], key, f);
    }
  }

  /** Sorting does not change any sum over the elements */
  lemma {:induction false} SortDescSum<T>(s: seq<T>, key: T -> int, f: T -> int)
    ensures SumBy(SortDesc(s, key), f) == SumBy(s, f)
    decreases |s|, 1
  {
    if s != [] {
      var init, last := s[..|s| - 1], s[|s| - 1];
      assert s == init + [last];
      SnocSum(init, last, key, f);
    }
  }

  lemma {:induction false} SnocSum<T>(init: seq<T>, last: T, key: T -> int, f: T -> int)
    ensures SumBy(SortDesc(init + [last], key), f) == SumBy(init + [last], f)
    decreases |init| + 1, 0
  {
    var sorted := SortDesc(init, key);
    calc {
      SumBy(SortDesc(init + [last], key), f);
    == { SortDescSnoc(init, last, key); }
      SumBy(Insert(last, sorted, key), f);
    == { InsertSum(last, sorted, key, f); }
      SumBy(sorted, f) + f(last);
    == { SortDescSum(init, key, f); }
      SumBy(init, f) + f(last);
    == { assert SumBy([last], f) == f(last); SumByAppend(init, [last], f); }
      SumBy(init + [last], f);
    }
  }
}
