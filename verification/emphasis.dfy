/** `processBold`: the global, non-greedy substitution of the regular
    expression `\*\*(.*?)\*\*` (flag `g`) by `<strong>$1</strong>`.

    The regular expression is modelled exactly. A match is attempted at every
    position from left to right; at a position holding `**` the lazy `.*?`
    grows one character at a time until `**` follows, and fails if it would
    have to consume a line terminator (the regex `.` does not match one). After
    a match the scan resumes behind the closing `**`; after a failed attempt it
    moves on by one character. */
module Emphasis {
  import opened Outcomes
  import opened Text

  /** A piece of the substituted text: a character copied as it is, or the
      captured text of one `**...**` match */
  datatype Run = Plain(text: string) | Strong(text: string)

  /** `**` starts at position `k` of `s` */
  predicate PairAt(s: string, k: int) {
    0 <= k && k + 1 < |s| && s[k] == '*' && s[k + 1] == '*'
  }

  /** No `**` anywhere in `s` */
  predicate NoPair(s: string) {
    forall k :: 0 <= k < |s| - 1 ==> !(s[k] == '*' && s[k + 1] == '*')
  }

  /** Where the lazy `.*?` that starts at `k` stops: the first `**` at or
      after `k` that is not preceded by a line terminator in between */
  function CloseAt(s: string, k: nat): (r: Option<nat>)
    decreases |s| - k
    ensures r.Some? ==> k <= r.value && PairAt(s, r.value)
    ensures r.Some? ==> forall j :: k <= j < r.value ==> !PairAt(s, j) && !IsLineTerminator(s[j])
  {
    if k + 2 > |s| then None
    else if s[k] == '*' && s[k + 1] == '*' then Some(k)
    else if IsLineTerminator(s[k]) then None
    else CloseAt(s, k + 1)
  }

  /** What `**x**` and the characters around the matches were before the
      substitution */
  function Source(runs: seq<Run>): string
  {
    if runs == [] then []
    else
      (match runs[0]
       case Plain(t) => t
       case Strong(t) => "**" + t + "**") + Source(runs[1..])
  }

  /** The substituted text: each match becomes `<strong>x</strong>` */
  function Html(runs: seq<Run>): string
  {
    if runs == [] then []
    else
      (match runs[0]
       case Plain(t) => t
       case Strong(t) => "<strong>" + t + "</strong>") + Html(runs[1..])
  }

  /** A captured text: no `**` in it (the match is non-greedy) and no line
      terminator (the regex `.` does not match one) */
  predicate Captured(t: string) {
    NoPair(t) && forall j :: 0 <= j < |t| ==> !IsLineTerminator(t[j])
  }

  /** The left-to-right scan of the regular expression over `s`. Undoing the
      substitution gives back `s`, and every captured text is `Captured`. */
  function Scan(s: string): (r: seq<Run>)
    ensures Source(r) == s
    ensures forall n :: 0 <= n < |r| && r[n].Strong? ==> Captured(r[n].text)
    ensures forall n :: 0 <= n < |r| && r[n].Plain? ==> |r[n].text| == 1
  {
    if s == [] then []
    else if PairAt(s, 0) && CloseAt(s, 2).Some? then
      var k := CloseAt(s, 2).value;
      var inner := s[2..k];
      var rest := Scan(s[k + 2..]);
      var r := [Strong(inner)] + rest;
      MatchedText(s, k);
      assert r[0] == Strong(inner) && r[1..] == rest;
      assert Source(r) == "**" + inner + "**" + Source(rest);
      assert forall n :: 1 <= n < |r| ==> r[n] == rest[n - 1];
      r
    else
      var rest := Scan(s[1..]);
      var r := [Plain([s[0]])] + rest;
      assert r[0] == Plain([s[0]]) && r[1..] == rest;
      assert Source(r) == [s[0]] + Source(rest);
      assert forall n :: 1 <= n < |r| ==> r[n] == rest[n - 1];
      assert s == [s[0]] + s[1..];
      r
  }

  /** One match: `s` is `**`, the captured text, `**` and the rest */
  lemma MatchedText(s: string, k: nat)
    requires PairAt(s, 0) && CloseAt(s, 2) == Some(k)
    ensures s == "**" + s[2..k] + "**" + s[k + 2..]
    ensures Captured(s[2..k])
  {
    assert s == s[..2] + s[2..k] + s[k..k + 2] + s[k + 2..];
    var inner := s[2..k];
    forall j | 0 <= j < |inner| - 1
      ensures !(inner[j] == '*' && inner[j + 1] == '*')
    {
      assert !PairAt(s, 2 + j);
    }
    forall j | 0 <= j < |inner|
      ensures !IsLineTerminator(inner[j])
    {
      assert inner[j] == s[2 + j];
    }
  }

  /** `processBold(text)` */
  function ProcessBold(s: string): string
  {
    Html(Scan(s))
  }

  /** Without matches, the substituted text is the source text */
  lemma {:induction false} HtmlOfPlain(runs: seq<Run>)
    requires forall n :: 0 <= n < |runs| ==> runs[n].Plain?
    ensures Html(runs) == Source(runs)
  {
    if runs != [] {
      HtmlOfPlain(runs[1..]);
    }
  }

  /** Text without `**` comes through the scan as plain characters */
  lemma {:induction false} ScanWithoutPair(s: string)
    requires NoPair(s)
    ensures forall n :: 0 <= n < |Scan(s)| ==> Scan(s)[n].Plain?
  {
    if s != [] {
      assert !PairAt(s, 0);
      assert NoPair(s[1..]) by {
        forall k | 0 <= k < |s[1..]| - 1
          ensures !(s[1..][k] == '*' && s[1..][k + 1] == '*')
        {
          assert s[1..][k] == s[k + 1] && s[1..][k + 1] == s[k + 2];
        }
      }
      ScanWithoutPair(s[1..]);
      assert Scan(s) == [Plain([s[0]])] + Scan(s[1..]);
    }
  }

  /** Text without `**` is returned unchanged */
  lemma ProcessBoldNoPair(s: string)
    requires NoPair(s)
    ensures ProcessBold(s) == s
  {
    ScanWithoutPair(s);
    HtmlOfPlain(Scan(s));
  }

  /** A text that opens with `**` and has a closing `**` later on the same
      line starts with a match, and that match ends at the first closing `**` */
  lemma LeftmostShortest(s: string, k: nat)
    requires PairAt(s, 0) && 2 <= k && PairAt(s, k)
    requires forall j :: 2 <= j < k ==> !PairAt(s, j) && !IsLineTerminator(s[j])
    ensures Scan(s)[0] == Strong(s[2..k])
    ensures ProcessBold(s) == "<strong>" + s[2..k] + "</strong>" + ProcessBold(s[k + 2..])
  {
    CloseAtFirst(s, 2, k);
  }

  lemma {:induction false} CloseAtFirst(s: string, k: nat, m: nat)
    requires k <= m && PairAt(s, m)
    requires forall j :: k <= j < m ==> !PairAt(s, j) && !IsLineTerminator(s[j])
    decreases m - k
    ensures CloseAt(s, k) == Some(m)
  {
    if k < m {
      CloseAtFirst(s, k + 1, m);
    }
  }

  /** `s` opens a match: it starts with `**` and a later `**` follows with no
      line terminator in between */
  ghost predicate OpensMatch(s: string) {
    PairAt(s, 0) &&
    exists m :: 2 <= m && PairAt(s, m) && forall j :: 2 <= j < m ==> !IsLineTerminator(s[j])
  }

  /** The scan's test for a match at the start is exactly `OpensMatch` */
  lemma OpensMatchIff(s: string)
    ensures OpensMatch(s) <==> PairAt(s, 0) && CloseAt(s, 2).Some?
  {
    if PairAt(s, 0) && CloseAt(s, 2).Some? {
      var m := CloseAt(s, 2).value;
      assert PairAt(s, m) && forall j :: 2 <= j < m ==> !IsLineTerminator(s[j]);
    }
    if !(PairAt(s, 0) && CloseAt(s, 2).Some?) && PairAt(s, 0) {
      if OpensMatch(s) {
        var m :| 2 <= m && PairAt(s, m) && forall j :: 2 <= j < m ==> !IsLineTerminator(s[j]);
        CloseAtFrom(s, 2, m);
      }
    }
  }

  /** A `**` at `m` with no line terminator before it closes the lazy `.*?`
      started at `k`, at `m` or earlier */
  lemma {:induction false} CloseAtFrom(s: string, k: nat, m: nat)
    requires k <= m && PairAt(s, m)
    requires forall j :: k <= j < m ==> !IsLineTerminator(s[j])
    decreases m - k
    ensures CloseAt(s, k).Some?
  {
    if k < m && !PairAt(s, k) {
      CloseAtFrom(s, k + 1, m);
    }
  }

  /** A text that does not open a match keeps its first character as it is,
      and the scan moves on by one character */
  lemma PlainStep(s: string)
    requires s != [] && !OpensMatch(s)
    ensures Scan(s)[0] == Plain([s[0]])
    ensures ProcessBold(s) == [s[0]] + ProcessBold(s[1..])
  {
    OpensMatchIff(s);
    var r := Scan(s);
    assert r == [Plain([s[0]])] + Scan(s[1..]);
    assert r[1..] == Scan(s[1..]);
  }
}
