/** `LoadingSpinner`: a message index that moves on at every timer tick and
    wraps around, and a row of progress dots lit up to the current
    message. The timer itself is left out: a tick is one call of the
    `setInterval` callback. */
module Spinner {
  import opened Outcomes
  import opened Seqs

  /** The component's props after defaults are applied */
  datatype Props = Props(messages: seq<string>, interval: int)

  const DefaultMessages: seq<string> := [
    "데이터를 분석하고 있습니다...",
    "AI가 열심히 계산 중입니다...",
    "카테고리별로 분류하고 있습니다...",
    "거의 다 됐어요!"
  ]

  const DefaultInterval := 2000

  /** Destructuring with defaults: a prop left undefined takes its
      default */
  function WithDefaults(messages: Option<seq<string>>, interval: Option<int>): (p: Props)
    ensures messages.None? ==> |p.messages| == 4 && p.messages[0] == "데이터를 분석하고 있습니다..."
    ensures messages.Some? ==> p.messages == messages.value
    ensures interval.None? ==> p.interval == 2000
    ensures interval.Some? ==> p.interval == interval.value
  {
    Props(messages.GetOr(DefaultMessages), interval.GetOr(DefaultInterval))
  }

  /** `currentMessageIndex`. With no messages `(prev + 1) % 0` is `NaN`, and
      `NaN` stays `NaN`. */
  datatype Counter = Index(i: nat) | NotANumber

  /** `useState(0)` */
  const Start := Index(0)

  /** `(prev) => (prev + 1) % messages.length` */
  function Tick(c: Counter, len: nat): (r: Counter)
    ensures len > 0 && c.Index? ==> r.Index? && r.i < len
    ensures len == 0 || c.NotANumber? ==> r == NotANumber
  {
    match c
    case NotANumber => NotANumber
    case Index(i) => if len == 0 then NotANumber else Index((i + 1) % len)
  }

  /** The counter after `k` ticks */
  function Ticks(len: nat, k: nat): Counter
  {
    if k == 0 then Start else Tick(Ticks(len, k - 1), len)
  }

  lemma ModStep(k: nat, n: nat)
    requires n > 0
    ensures (k % n + 1) % n == (k + 1) % n
  {
    var q, r := k / n, k % n;
    assert k == q * n + r;
    if r + 1 < n {
      ModUnique(k + 1, n, q, r + 1);
      ModUnique(r + 1, n, 0, r + 1);
    } else {
      NextMultiple(q, n);
      ModUnique(k + 1, n, q + 1, 0);
      ModUnique(r + 1, n, 1, 0);
    }
  }

  lemma NextMultiple(q: int, n: int)
    ensures (q + 1) * n == q * n + n
  {
  }

  lemma ModUnique(a: nat, n: nat, q: int, r: int)
    requires n > 0 && 0 <= r < n && a == q * n + r
    ensures a % n == r
  {
    var q', r' := a / n, a % n;
    var d := q - q';
    assert d * n == r' - r by {
      assert d * n == q * n - q' * n;
    }
    if d > 0 {
      AtLeastOnce(d, n);
      assert false;
    } else if d < 0 {
      AtLeastOnce(-d, n);
      assert false;
    }
  }

  lemma AtLeastOnce(d: int, n: nat)
    requires d >= 1
    ensures d * n >= n
  {
  }

  /** After `k` ticks the index is `k` modulo the number of messages */
  lemma {:induction false} TicksModulo(len: nat, k: nat)
    requires len > 0
    ensures Ticks(len, k) == Index(k % len)
  {
    if k > 0 {
      TicksModulo(len, k - 1);
      ModStep(k - 1, len);
    }
  }

  /** The index is back at 0 after every `len` ticks */
  lemma TicksPeriodic(len: nat, k: nat)
    requires len > 0
    ensures Ticks(len, k + len) == Ticks(len, k)
    ensures Ticks(len, len) == Start
  {
    TicksModulo(len, k + len);
    TicksModulo(len, k);
    TicksModulo(len, len);
    AddPeriod(k, len);
    ModUnique(len, len, 1, 0);
  }

  lemma AddPeriod(k: nat, n: nat)
    requires n > 0
    ensures (k + n) % n == k % n
  {
    var q, r := k / n, k % n;
    assert k == q * n + r;
    NextMultiple(q, n);
    ModUnique(k + n, n, q + 1, r);
  }

  /** With no messages the counter is `NaN` from the first tick on */
  lemma {:induction false} NoMessages(k: nat)
    requires k > 0
    ensures Ticks(0, k) == NotANumber
  {
    if k > 1 {
      NoMessages(k - 1);
    }
  }

  /** Dot `i` is lit when `i <= currentMessageIndex` (never for `NaN`) */
  predicate Lit(i: nat, c: Counter) {
    c.Index? && i <= c.i
  }

  /** The row of dots, one per message */
  function Dots(len: nat, c: Counter): (r: seq<bool>)
    ensures |r| == len
    ensures forall i :: 0 <= i < len ==> r[i] == Lit(i, c)
  {
    seq(len, i requires 0 <= i < len => Lit(i, c))
  }

  /** Exactly `current + 1` dots are lit */
  lemma {:induction false} LitCount(len: nat, c: Counter)
    requires c.Index? && c.i < len
    ensures Count(Dots(len, c), true) == c.i + 1
  {
    LitPrefix(Dots(len, c), c.i + 1);
  }

  lemma {:induction false} LitPrefix(d: seq<bool>, m: nat)
    requires m <= |d|
    requires forall i :: 0 <= i < |d| ==> d[i] == (i < m)
    ensures Count(d, true) == m
  {
    if d != [] {
      var rest := d[1..];
      if m > 0 {
        assert forall i :: 0 <= i < |rest| ==> rest[i] == (i < m - 1) by {
          assert forall i :: 0 <= i < |rest| ==> rest[i] == d[i + 1];
        }
        LitPrefix(rest, m - 1);
      } else {
        assert forall i :: 0 <= i < |rest| ==> rest[i] == (i < 0) by {
          assert forall i :: 0 <= i < |rest| ==> rest[i] == d[i + 1];
        }
        LitPrefix(rest, 0);
      }
    }
  }

  /** `messages[currentMessageIndex]`, `None` where that is `undefined` */
  function Message(messages: seq<string>, c: Counter): (r: Option<string>)
    ensures r.Some? <==> c.Index? && c.i < |messages|
  {
    if c.Index? && c.i < |messages| then Some(messages[c.i]) else None
  }

  /** With messages, the spinner always has one to show */
  lemma AlwaysAMessage(messages: seq<string>, k: nat)
    requires messages != []
    ensures Message(messages, Ticks(|messages|, k)) == Some(messages[k % |messages|])
  {
    TicksModulo(|messages|, k);
  }
}
