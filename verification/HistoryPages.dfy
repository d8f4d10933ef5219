/** What one page of the history client guarantees whatever the exchange answers. */
module HistoryPages {
  import opened Arithmetic
  import opened Timestamps
  import opened Candles
  import opened Wrappers
  import opened HistoryClient

  lemma {:induction false} GoesOnAt(c: Config, x: Exchange, t: Task, from: nat, j: nat, n: nat)
    requires from <= j < n && GoesOn(c, x, t, from, n)
    ensures !StopsAt(c, x, t, from, j)
  {
    if j < n - 1 {
      GoesOnAt(c, x, t, from, j, n - 1);
    }
  }

  /** The request that ends a page is determined by the answers. */
  lemma {:induction false} StopIsUnique(c: Config, x: Exchange, t: Task, from: nat, j: nat, k: nat)
    requires FirstStop(c, x, t, from, j) && FirstStop(c, x, t, from, k)
    ensures j == k
  {
    if j < k {
      GoesOnAt(c, x, t, from, j, k);
    } else if k < j {
      GoesOnAt(c, x, t, from, k, j);
    }
  }

  /** The first `n` delays of one retry series. */
  ghost function Doublings(base: real, n: nat): real {
    if n == 0 then 0.0 else Doublings(base, n - 1) + Backoff(base, n - 1)
  }

  // ----- What is retried -----

  /** Request `k` failed for a reason that may pass. */
  ghost predicate PassingFailure(x: Exchange, t: Task, k: nat) {
    var reply := Ask(x, k, t.query);
    reply == Raised(Timeout) || reply == Raised(RateLimit) || reply == Raised(Transient)
  }

  /** A fatal failure ends the page at once; a passing one ends it if and only if the transport budget is spent. */
  lemma {:induction false} FailureEnds(c: Config, x: Exchange, t: Task, from: nat, k: nat)
    requires from <= k
    ensures Ask(x, k, t.query) == Raised(Fatal) ==> StopsAt(c, x, t, from, k)
    ensures PassingFailure(x, t, k) ==>
              (StopsAt(c, x, t, from, k) <==> Failures(x, t.query, from, k) >= c.maxTransportRetries)
    ensures Ask(x, k, t.query).Raised? ==> Ask(x, k, t.query) == Raised(Fatal) || PassingFailure(x, t, k)
  {
    match Ask(x, k, t.query)
    case Rows(_) =>
    case Raised(Timeout) =>
    case Raised(RateLimit) =>
    case Raised(Transient) =>
    case Raised(Fatal) =>
  }

  /** After passing failures only, nothing is collected, and the pauses are those of one retry series. */
  lemma {:induction false} FailuresBringNothing(c: Config, x: Exchange, t: Task, from: nat, n: nat)
    requires from <= n && forall k: nat | from <= k < n :: PassingFailure(x, t, k)
    ensures Failures(x, t.query, from, n) == n - from
    ensures Merged(x, t, from, n) == map[]
    ensures Pauses(c.backoffBase, x, t.query, from, n) == Doublings(c.backoffBase, n - from)
  {
    if from < n {
      FailuresBringNothing(c, x, t, from, n - 1);
      assert PassingFailure(x, t, n - 1);
    }
  }

  /** Within the budget the page goes on. */
  lemma {:induction false} FailuresGoOn(c: Config, x: Exchange, t: Task, from: nat, n: nat)
    requires from <= n <= from + c.maxTransportRetries && forall k: nat | from <= k < n :: PassingFailure(x, t, k)
    ensures GoesOn(c, x, t, from, n)
  {
    if from < n {
      assert !StopsAt(c, x, t, from, n - 1) by {
        FailuresBringNothing(c, x, t, from, n - 1);
        assert PassingFailure(x, t, n - 1);
        FailureEnds(c, x, t, from, n - 1);
      }
      FailuresGoOn(c, x, t, from, n - 1);
    }
  }

  /** A first answer that fills the window ends the page. */
  lemma {:induction false} FullAnswerEnds(c: Config, x: Exchange, t: Task, from: nat, k: nat, rows: seq<Candle>)
    requires from <= k && Merged(x, t, from, k) == map[] && Ask(x, k, t.query) == Rows(rows)
    requires |Within(ByTs(rows), t.lo, t.hi)| > 0 && |Within(ByTs(rows), t.lo, t.hi)| >= t.expected
    ensures Merged(x, t, from, k + 1) == Within(ByTs(rows), t.lo, t.hi) && StopsAt(c, x, t, from, k)
  {
    assert map[] + Within(ByTs(rows), t.lo, t.hi) == Within(ByTs(rows), t.lo, t.hi);
  }

  /** Requests `from` to before `n` failed for reasons that may pass, within the transport budget. */
  ghost predicate FailedSoFar(c: Config, x: Exchange, t: Task, from: nat, n: nat) {
    from <= n <= from + c.maxTransportRetries && forall j: nat | from <= j < n :: PassingFailure(x, t, j)
  }

  /** Passing failures within the budget and then an answer that fills the window: the page is OK with that answer. */
  lemma {:induction false} RecoversFromFailures(c: Config, x: Exchange, t: Task, from: nat, last: nat, n: nat,
                                                rows: seq<Candle>)
    requires FirstStop(c, x, t, from, last) && FailedSoFar(c, x, t, from, n) && Ask(x, n, t.query) == Rows(rows)
    requires |Within(ByTs(rows), t.lo, t.hi)| > 0 && |Within(ByTs(rows), t.lo, t.hi)| >= t.expected
    ensures last == n
    ensures Merged(x, t, from, n + 1) == Within(ByTs(rows), t.lo, t.hi)
    ensures PageStatus(|Merged(x, t, from, n + 1)|, t.expected) == OK
    ensures Pauses(c.backoffBase, x, t.query, from, n) == Doublings(c.backoffBase, n - from)
  {
    assert Merged(x, t, from, n + 1) == Within(ByTs(rows), t.lo, t.hi) && FirstStop(c, x, t, from, n) by {
      FailuresGoOn(c, x, t, from, n);
      FailuresBringNothing(c, x, t, from, n);
      FullAnswerEnds(c, x, t, from, n, rows);
    }
    assert Pauses(c.backoffBase, x, t.query, from, n) == Doublings(c.backoffBase, n - from) by {
      FailuresBringNothing(c, x, t, from, n);
    }
    StopIsUnique(c, x, t, from, last, n);
  }

  /** A fatal failure after passing ones within the budget is the last request of the page. */
  lemma {:induction false} FatalIsLast(c: Config, x: Exchange, t: Task, from: nat, last: nat, n: nat)
    requires FirstStop(c, x, t, from, last) && FailedSoFar(c, x, t, from, n) && Ask(x, n, t.query) == Raised(Fatal)
    ensures last == n && PageOutcome(x, t, from, last) == Err(Fatal)
  {
    assert FirstStop(c, x, t, from, n) by {
      FailuresGoOn(c, x, t, from, n);
      FailuresBringNothing(c, x, t, from, n);
      FailureEnds(c, x, t, from, n);
    }
    StopIsUnique(c, x, t, from, last, n);
  }

  /** Passing failures only: the page gives up after the whole transport budget, and not before. */
  lemma {:induction false} BudgetRunsOut(c: Config, x: Exchange, t: Task, from: nat, last: nat, n: nat)
    requires FirstStop(c, x, t, from, last) && n == from + c.maxTransportRetries
    requires FailedSoFar(c, x, t, from, n) && PassingFailure(x, t, n)
    ensures last == n
  {
    assert FirstStop(c, x, t, from, n) by {
      FailuresGoOn(c, x, t, from, n);
      FailuresBringNothing(c, x, t, from, n);
      FailureEnds(c, x, t, from, n);
    }
    StopIsUnique(c, x, t, from, last, n);
  }

  /** Every request before the last is one retry of exactly one of the two budgets. */
  lemma {:induction false} RetriesWithinBudgets(c: Config, x: Exchange, t: Task, from: nat, n: nat)
    requires from <= n && GoesOn(c, x, t, from, n)
    ensures Failures(x, t.query, from, n) <= c.maxTransportRetries
    ensures Answers(x, t.query, from, n) <= c.maxPartialRetries
    ensures Failures(x, t.query, from, n) + Answers(x, t.query, from, n) == n - from
  {
    if from < n {
      RetriesWithinBudgets(c, x, t, from, n - 1);
    }
  }

  /** A page costs at most `1 + max_transport_retries + max_partial_retries` requests. */
  lemma {:induction false} PageRequestBound(c: Config, x: Exchange, t: Task, from: nat, last: nat)
    requires FirstStop(c, x, t, from, last)
    ensures last + 1 - from <= 1 + c.maxTransportRetries + c.maxPartialRetries
  {
    RetriesWithinBudgets(c, x, t, from, last);
  }

  /** Whatever the exchange answers, a page that goes on so far comes to an end. */
  lemma {:induction false} PageEnds(c: Config, x: Exchange, t: Task, from: nat, n: nat) returns (last: nat)
    requires from <= n && GoesOn(c, x, t, from, n)
    ensures FirstStop(c, x, t, from, last)
    decreases from + 1 + c.maxTransportRetries + c.maxPartialRetries - n
  {
    if StopsAt(c, x, t, from, n) {
      last := n;
    } else {
      assert GoesOn(c, x, t, from, n + 1);
      assert n + 1 - from <= c.maxTransportRetries + c.maxPartialRetries by {
        RetriesWithinBudgets(c, x, t, from, n + 1);
      }
      last := PageEnds(c, x, t, from, n + 1);
    }
  }

  /** A page's sleeps are the two series, however the failures and partial answers interleave. */
  lemma {:induction false} PausesAreTwoSeries(base: real, x: Exchange, q: Query, from: nat, n: nat)
    requires from <= n
    ensures Pauses(base, x, q, from, n) ==
            Doublings(base, Failures(x, q, from, n)) + Doublings(base, Answers(x, q, from, n))
  {
    if from < n {
      PausesAreTwoSeries(base, x, q, from, n - 1);
    }
  }

  lemma {:induction false} DoublingsClosedForm(base: real, n: nat)
    ensures Doublings(base, n) == Backoff(base, n) - base
  {
    if n > 0 {
      DoublingsClosedForm(base, n - 1);
    }
  }

  lemma {:induction false} BackoffSign(base: real, n: nat)
    requires base >= 0.0
    ensures Backoff(base, n) >= 0.0
  {
    if n > 0 {
      BackoffSign(base, n - 1);
    }
  }

  lemma {:induction false} DoublingsMonotone(base: real, a: nat, b: nat)
    requires base >= 0.0 && a <= b
    ensures 0.0 <= Doublings(base, a) <= Doublings(base, b)
  {
    if a < b {
      DoublingsMonotone(base, a, b - 1);
      BackoffSign(base, b - 1);
    } else if a > 0 {
      DoublingsMonotone(base, a - 1, a - 1);
      BackoffSign(base, a - 1);
    }
  }

  /** `base * (2^T + 2^P - 2)`, where `Backoff(base, n)` is `base * 2^n`, see `BackoffIsPower`. */
  ghost function PageSleep(c: Config): real {
    Backoff(c.backoffBase, c.maxTransportRetries) - c.backoffBase
    + Backoff(c.backoffBase, c.maxPartialRetries) - c.backoffBase
  }

  /** With a non-negative base delay a page sleeps at most `PageSleep` seconds. */
  lemma {:induction false} PageSleepBound(c: Config, x: Exchange, t: Task, from: nat, last: nat)
    requires FirstStop(c, x, t, from, last) && c.backoffBase >= 0.0
    ensures 0.0 <= Pauses(c.backoffBase, x, t.query, from, last) <= PageSleep(c)
  {
    RetriesWithinBudgets(c, x, t, from, last);
    PausesAreTwoSeries(c.backoffBase, x, t.query, from, last);
    DoublingsMonotone(c.backoffBase, Failures(x, t.query, from, last), c.maxTransportRetries);
    DoublingsMonotone(c.backoffBase, Answers(x, t.query, from, last), c.maxPartialRetries);
    DoublingsClosedForm(c.backoffBase, c.maxTransportRetries);
    DoublingsClosedForm(c.backoffBase, c.maxPartialRetries);
  }

  // ----- Names and lengths of bars -----

  /** The exchange's history endpoint has its own names for the bars of a day and longer; other bars keep theirs. */
  lemma {:induction false} HistoryBarNames(bar: string)
    ensures HistoryBar("1D") == "1Dutc" && HistoryBar("1W") == "1Wutc" && HistoryBar("1M") == "1Mutc"
    ensures bar != "1D" && bar != "1W" && bar != "1M" ==> HistoryBar(bar) == bar
  {
    assert "1D"[1] == 'D' && "1W"[1] == 'W' && "1M"[1] == 'M';
  }

  /** The supported timeframes, in minutes of 60,000 milliseconds; a month is fixed at thirty days. */
  lemma {:induction false} TimeframeLengths()
    ensures TF_TO_MS.Keys == {"1m", "5m", "15m", "30m", "1H", "4H", "12H", "1D", "1W", "1M"}
    ensures TF_TO_MS["1m"] == 60_000 && TF_TO_MS["5m"] == 5 * 60_000 && TF_TO_MS["15m"] == 15 * 60_000
    ensures TF_TO_MS["30m"] == 30 * 60_000 && TF_TO_MS["1H"] == 60 * 60_000 && TF_TO_MS["4H"] == 4 * 60 * 60_000
    ensures TF_TO_MS["12H"] == 12 * 60 * 60_000 && TF_TO_MS["1D"] == 24 * 60 * 60_000
    ensures TF_TO_MS["1W"] == 7 * TF_TO_MS["1D"] && TF_TO_MS["1M"] == 30 * TF_TO_MS["1D"]
  {
    assert |"1m"| == 2 && |"15m"| == 3 && |"30m"| == 3 && |"12H"| == 3;
    assert "1m"[1] == 'm' && "1H"[1] == 'H' && "1D"[1] == 'D' && "1W"[1] == 'W' && "1M"[1] == 'M';
    assert "1m"[0] == '1' && "5m"[0] == '5' && "4H"[0] == '4' && "15m"[0] == '1' && "30m"[0] == '3' && "12H"[1] == '2';
    assert "15m"[1] == '5';
  }

  // ----- A whole range -----

  /** A range costs at most that many requests for each of its pages. */
  lemma {:induction false} RangeRequestBound(c: Config, x: Exchange, instId: string, okxBar: string, tf: int,
                                             pages: seq<Page>, from: nat, to: nat)
    requires tf > 0 && AllServed(c, x, instId, okxBar, tf, pages, from, to)
    ensures 0 <= to - from <= Span(|pages|, 1 + c.maxTransportRetries + c.maxPartialRetries)
    decreases |pages|
  {
    if pages != [] {
      var front, p := pages[..|pages| - 1], pages[|pages| - 1];
      RangeRequestBound(c, x, instId, okxBar, tf, front, from, p.first);
      PageRequestBound(c, x, TaskFor(c.pageLimit, instId, okxBar, tf, p.lo, p.hi), p.first, p.last);
    }
  }

  /** A fetch, failed or not, costs at most that many requests for each page it asked for. */
  lemma {:induction false} FetchRequestBound(c: Config, x: Exchange, instId: string, okxBar: string, tf: int,
                                             start: int, end: int, from: nat, to: nat, pages: seq<Page>, refused: Page,
                                             r: Result<seq<Candle>, FetchError>)
    requires tf > 0 && Fetched(c, x, instId, okxBar, tf, start, end, from, to, pages, refused, r)
    ensures 0 <= to - from <= Span(if r.Ok? then |pages| else |pages| + 1, 1 + c.maxTransportRetries + c.maxPartialRetries)
  {
    RangeRequestBound(c, x, instId, okxBar, tf, pages, from, if r.Ok? then to else refused.first);
    if r.Err? {
      PageRequestBound(c, x, TaskFor(c.pageLimit, instId, okxBar, tf, refused.lo, refused.hi), refused.first, refused.last);
    }
  }

  /** The pages of a range sleep at most the page bound each. */
  lemma {:induction false} RangeSleepBound(c: Config, x: Exchange, instId: string, okxBar: string, tf: int,
                                           pages: seq<Page>, from: nat, to: nat)
    requires tf > 0 && c.backoffBase >= 0.0 && AllServed(c, x, instId, okxBar, tf, pages, from, to)
    ensures 0.0 <= RangePauses(pages)
                <= Times(|pages|, PageSleep(c))
    decreases |pages|
  {
    if pages != [] {
      var front, p := pages[..|pages| - 1], pages[|pages| - 1];
      RangeSleepBound(c, x, instId, okxBar, tf, front, from, p.first);
      assert 0.0 <= p.paused <= PageSleep(c) by {
        PageSleepBound(c, x, TaskFor(c.pageLimit, instId, okxBar, tf, p.lo, p.hi), p.first, p.last);
      }
    }
  }

  // ----- What a page holds -----

  /** Timestamps are never lost, so a page that holds rows cannot become EMPTY again. */
  lemma {:induction false} RowsAreKept(x: Exchange, t: Task, from: nat, j: nat, k: nat)
    requires from <= j <= k
    ensures Merged(x, t, from, j).Keys <= Merged(x, t, from, k).Keys
    ensures |Merged(x, t, from, j)| <= |Merged(x, t, from, k)|
    ensures PageStatus(|Merged(x, t, from, j)|, t.expected) != EMPTY ==>
            PageStatus(|Merged(x, t, from, k)|, t.expected) != EMPTY
  {
    if j < k {
      RowsAreKept(x, t, from, j, k - 1);
      var a, b := Merged(x, t, from, k - 1).Keys, Merged(x, t, from, k).Keys;
      assert a <= b;
      assert b == a + (b - a);
      assert |b| == |a| + |b - a|;
    }
  }

  /** Row `i` of answer `k` carries `ts`. */
  ghost predicate Carries(x: Exchange, t: Task, k: nat, i: nat, ts: int) {
    Ask(x, k, t.query).Rows? && i < |Ask(x, k, t.query).rows| && Ask(x, k, t.query).rows[i].ts == ts
  }

  /** Row `i` is the last row of answer `k` that carries the in-window timestamp `ts`. */
  ghost predicate Supplies(x: Exchange, t: Task, k: nat, i: nat, ts: int) {
    t.lo <= ts < t.hi && Ask(x, k, t.query).Rows? && LastAt(Ask(x, k, t.query).rows, ts, i)
  }

  lemma {:induction false} PageMembers(x: Exchange, t: Task, from: nat, to: nat, ts: int)
    requires from <= to
    ensures ts in Merged(x, t, from, to) <==>
            t.lo <= ts < t.hi && exists k: nat, i: nat :: from <= k < to && Carries(x, t, k, i, ts)
  {
    if from < to {
      PageMembers(x, t, from, to - 1, ts);
      var reply := Ask(x, to - 1, t.query);
      if reply.Rows? {
        ByTsKeepsLast(reply.rows, ts);
        if ts in ByTs(reply.rows) {
          var i: nat :| i < |reply.rows| && reply.rows[i].ts == ts;
          assert Carries(x, t, to - 1, i, ts);
        }
      }
    }
  }

  /** Row `i` of answer `k` gives the page's candle at `ts`: it is the last such row, and no later answer has one. */
  ghost predicate Wins(x: Exchange, t: Task, from: nat, to: nat, k: nat, i: nat, ts: int) {
    && from <= k < to && Supplies(x, t, k, i, ts)
    && forall k': nat, i': nat | k < k' < to :: !Carries(x, t, k', i', ts)
  }

  lemma {:induction false} NoneCarries(x: Exchange, t: Task, k: nat, ts: int)
    requires Ask(x, k, t.query).Rows? ==> ts !in ByTs(Ask(x, k, t.query).rows)
    ensures forall i: nat :: !Carries(x, t, k, i, ts)
  {
    if Ask(x, k, t.query).Rows? {
      ByTsKeepsLast(Ask(x, k, t.query).rows, ts);
    }
  }

  lemma {:induction false} PageWinner(x: Exchange, t: Task, from: nat, to: nat, ts: int) returns (k: nat, i: nat)
    requires from <= to && ts in Merged(x, t, from, to)
    ensures Wins(x, t, from, to, k, i, ts) && Merged(x, t, from, to)[ts] == Ask(x, k, t.query).rows[i]
  {
    var reply := Ask(x, to - 1, t.query);
    if reply.Rows? {
      ByTsKeepsLast(reply.rows, ts);
    }
    if t.lo <= ts < t.hi && reply.Rows? && ts in ByTs(reply.rows) {
      k := to - 1;
      i :| LastAt(reply.rows, ts, i) && ByTs(reply.rows)[ts] == reply.rows[i];
    } else {
      k, i := PageWinner(x, t, from, to - 1, ts);
      assert t.lo <= ts < t.hi;
      NoneCarries(x, t, to - 1, ts);
    }
  }

  /** The page holds the union of the in-window rows; the last row of the last answer with one wins. */
  lemma {:induction false} PageIsUnion(x: Exchange, t: Task, from: nat, to: nat, ts: int)
    requires from <= to
    ensures ts in Merged(x, t, from, to) <==>
            t.lo <= ts < t.hi && exists k: nat, i: nat :: from <= k < to && Carries(x, t, k, i, ts)
    ensures ts in Merged(x, t, from, to) ==>
              exists k: nat, i: nat :: Wins(x, t, from, to, k, i, ts) &&
                             Merged(x, t, from, to)[ts] == Ask(x, k, t.query).rows[i]
  {
    PageMembers(x, t, from, to, ts);
    if ts in Merged(x, t, from, to) {
      var k, i := PageWinner(x, t, from, to, ts);
    }
  }

  /** The grid points `lo, lo + tf, ...` of a window of `n` bars. */
  ghost function Grid(lo: int, n: nat, tf: int): set<int> {
    if n == 0 then {} else Grid(lo, n - 1, tf) + {lo + Span(n - 1, tf)}
  }

  lemma {:induction false} GridSize(lo: int, n: nat, tf: int)
    requires tf > 0
    ensures |Grid(lo, n, tf)| == n
    ensures forall ts | ts in Grid(lo, n, tf) :: lo <= ts < lo + Span(n, tf)
  {
    if n > 0 {
      GridSize(lo, n - 1, tf);
      assert lo + Span(n - 1, tf) !in Grid(lo, n - 1, tf);
    }
  }

  lemma {:induction false} GridBelow(lo: int, n: nat, tf: int)
    requires tf > 0
    ensures forall ts | ts in Grid(lo, n, tf) :: ts <= lo + Span(n, tf) - tf
  {
    if n > 0 {
      GridBelow(lo, n - 1, tf);
    }
  }

  /** Candles on the grid of a timeframe keep the distance that the completeness theorems ask for. */
  lemma {:induction false} GridIsSpaced(lo: int, n: nat, tf: int)
    requires tf > 0
    ensures Spaced(Grid(lo, n, tf), tf)
  {
    if n > 0 {
      GridIsSpaced(lo, n - 1, tf);
      GridBelow(lo, n - 1, tf);
    }
  }

  lemma {:induction false} SlotsOfSpan(lo: int, n: nat, tf: int)
    requires tf > 0
    ensures Slots(lo, lo + Span(n, tf), tf) == n && Span(n, tf) >= 0
    decreases n
  {
    if n > 0 {
      SlotsOfSpan(lo + tf, n - 1, tf);
      assert lo + tf + Span(n - 1, tf) == lo + Span(n, tf);
    }
  }

  /** A page without rows is EMPTY, one with fewer than its slots PARTIAL, any other OK. */
  lemma {:induction false} StatusCounts(m: map<int, Candle>, expected: int)
    ensures PageOf(m, expected).status == EMPTY <==> m == map[]
    ensures PageOf(m, expected).status == PARTIAL <==> m != map[] && |m| < expected
    ensures PageOf(m, expected).status == OK <==> m != map[] && |m| >= expected
  {
    assert |m| == 0 <==> m == map[];
  }

  /** The extremes that a page reports are its first and last candle, and it reports none only without candles. */
  lemma {:induction false} PageExtremes(m: map<int, Candle>, expected: int)
    requires Keyed(m)
    ensures var page := PageOf(m, expected);
            && |page.candles| == |m|
            && (page.candles == [] <==> page.oldest.None?)
            && (page.candles == [] <==> page.newest.None?)
            && (page.candles != [] ==> page.oldest == Some(page.candles[0].ts))
            && (page.candles != [] ==> page.newest == Some(page.candles[|page.candles| - 1].ts))
  {
    InTsOrderSorts(m);
    AscendingMembers(m.Keys);
    AscendingIncreases(m.Keys);
    var keys := Ascending(m.Keys);
    if m != map[] {
      assert keys[0] in keys && keys[|keys| - 1] in keys;
      assert Oldest(m.Keys) in keys && Newest(m.Keys) in keys;
    }
  }

  /** On a page of whole bars holding only grid rows, OK means that no slot is missing. */
  lemma {:induction false} OkMeansEverySlot(m: map<int, Candle>, lo: int, n: nat, tf: int)
    requires tf > 0 && n > 0 && m.Keys <= Grid(lo, n, tf)
    ensures PageStatus(|m|, Slots(lo, lo + Span(n, tf), tf)) == OK <==> m.Keys == Grid(lo, n, tf)
  {
    SlotsOfSpan(lo, n, tf);
    GridSize(lo, n, tf);
    if |m| >= n {
      FullSubset(m.Keys, Grid(lo, n, tf));
    }
  }
}
