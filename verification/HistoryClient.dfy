/**
  The OKX history-candles client: pages walked backward from the end of a range, each page
  requested under two separate retry budgets. The exchange is an arbitrary function of the
  request number and the query, so it may answer anything, and differently every time.
 */
module HistoryClient {
  import opened Timestamps
  import opened Candles
  import opened Wrappers

  datatype Query = Query(instId: string, bar: string, before: int, after: int, limit: nat)

  /** An answer with a malformed row, which raises when it is normalised, is a `Fatal` failure of its request. */
  datatype FailureKind = Timeout | RateLimit | Transient | Fatal

  datatype Reply = Raised(kind: FailureKind) | Rows(rows: seq<Candle>)

  type Exchange = (nat, Query) -> Reply

  /** The reply to request number `n`. */
  function Ask(x: Exchange, n: nat, q: Query): Reply { x(n, q) }

  datatype Config = Config(pageLimit: nat, maxTransportRetries: nat, maxPartialRetries: nat,
                           backoffBase: real)

  datatype Status = EMPTY | PARTIAL | OK

  datatype PageReply = PageReply(candles: seq<Candle>, oldest: Option<int>, newest: Option<int>,
                                 status: Status)

  datatype FetchError = UnsupportedTimeframe | RequestFailed(kind: FailureKind)

  /** One page window `[lo, hi)` with the query sent for it and the row count it should hold. */
  datatype Task = Task(query: Query, lo: int, hi: int, expected: int)

  predicate Retriable(kind: FailureKind) { kind != Fatal }

  function Max(a: int, b: int): int { if a >= b then a else b }

  function Min(a: int, b: int): int { if a <= b then a else b }

  function Pow2(n: nat): nat { if n == 0 then 1 else 2 * Pow2(n - 1) }

  function HistoryBar(bar: string): string {
    if bar == "1D" then "1Dutc" else if bar == "1W" then "1Wutc" else if bar == "1M" then "1Mutc" else bar
  }

  /** How many bars of length `tf` fit between `lo` and `hi`. */
  ghost function Slots(lo: int, hi: int, tf: int): nat
    requires tf > 0
    decreases hi - lo
  {
    if hi - lo < tf then 0 else 1 + Slots(lo + tf, hi, tf)
  }

  lemma {:induction false} SlotsBounds(lo: int, hi: int, tf: int)
    requires tf > 0 && lo <= hi
    ensures Slots(lo, hi, tf) * tf <= hi - lo < Slots(lo, hi, tf) * tf + tf
    decreases hi - lo
  {
    if hi - lo >= tf {
      SlotsBounds(lo + tf, hi, tf);
      var n := Slots(lo + tf, hi, tf);
      assert (1 + n) * tf == n * tf + tf;
    }
  }

  lemma {:induction false} NonzeroMultiple(k: int, tf: int)
    requires tf > 0 && k != 0
    ensures k * tf >= tf || k * tf <= -tf
  {
    if k > 0 {
      assert (k - 1) * tf >= 0;
    } else {
      assert (-k - 1) * tf >= 0;
    }
  }

  lemma {:induction false} QuotientUnique(d: int, q: int, tf: int)
    requires tf > 0 && q * tf <= d < q * tf + tf
    ensures d / tf == q
  {
    var e := d / tf;
    assert d == e * tf + d % tf;
    assert (q - e) * tf == q * tf - e * tf;
    if q != e {
      NonzeroMultiple(q - e, tf);
    }
  }

  lemma {:induction false} SlotsByDivision(lo: int, hi: int, tf: int)
    requires tf > 0
    ensures Slots(lo, hi, tf) == Max(0, (hi - lo) / tf)
  {
    if lo <= hi {
      SlotsBounds(lo, hi, tf);
      QuotientUnique(hi - lo, Slots(lo, hi, tf), tf);
    }
  }

  /** The exchange excludes the row at `before`, so the lower bound is moved back by one bar. */
  ghost function TaskFor(limit: nat, instId: string, okxBar: string, tf: int, lo: int, hi: int): Task
    requires tf > 0
  {
    Task(Query(instId, okxBar, Max(0, lo - tf), hi, limit), lo, hi, Slots(lo, hi, tf))
  }

  function PageStatus(received: int, expected: int): Status {
    if received == 0 then EMPTY else if received < expected then PARTIAL else OK
  }

  function PageOf(m: map<int, Candle>, expected: int): PageReply {
    PageReply(InTsOrder(m),
              if m == map[] then None else Some(Oldest(m.Keys)),
              if m == map[] then None else Some(Newest(m.Keys)),
              PageStatus(|m|, expected))
  }

  // ----- What the requests numbered [from, to) of one page bring in -----

  ghost function Failures(x: Exchange, q: Query, from: nat, to: nat): nat
    requires from <= to
  {
    if from == to then 0 else Failures(x, q, from, to - 1) + if Ask(x, to - 1, q).Raised? then 1 else 0
  }

  ghost function Answers(x: Exchange, q: Query, from: nat, to: nat): nat
    requires from <= to
  {
    if from == to then 0 else Answers(x, q, from, to - 1) + if Ask(x, to - 1, q).Rows? then 1 else 0
  }

  /** Union of the in-window rows of every answer, a later row replacing an earlier one. */
  ghost function Merged(x: Exchange, t: Task, from: nat, to: nat): (m: map<int, Candle>)
    requires from <= to
    ensures Keyed(m)
  {
    if from == to then map[]
    else
      var m := Merged(x, t, from, to - 1);
      var reply := Ask(x, to - 1, t.query);
      if reply.Rows? then m + Within(ByTs(reply.rows), t.lo, t.hi) else m
  }

  /** Request `k` of a page whose first request was `from` is not followed by another one. */
  ghost predicate StopsAt(c: Config, x: Exchange, t: Task, from: nat, k: nat)
    requires from <= k
  {
    match Ask(x, k, t.query)
    case Raised(kind) =>
      !Retriable(kind) || Failures(x, t.query, from, k) >= c.maxTransportRetries
    case Rows(_) =>
      || PageStatus(|Merged(x, t, from, k + 1)|, t.expected) != PARTIAL
      || Answers(x, t.query, from, k) >= c.maxPartialRetries
  }

  /** None of the requests [from, n) was the last one. */
  ghost predicate GoesOn(c: Config, x: Exchange, t: Task, from: nat, n: nat)
    requires from <= n
  {
    from == n || (GoesOn(c, x, t, from, n - 1) && !StopsAt(c, x, t, from, n - 1))
  }

  ghost predicate FirstStop(c: Config, x: Exchange, t: Task, from: nat, k: nat) {
    from <= k && StopsAt(c, x, t, from, k) && GoesOn(c, x, t, from, k)
  }

  ghost function PageOutcome(x: Exchange, t: Task, from: nat, k: nat): Result<map<int, Candle>, FailureKind>
    requires from <= k
  {
    match Ask(x, k, t.query)
    case Raised(kind) => Err(kind)
    case Rows(_) => Ok(Merged(x, t, from, k + 1))
  }

  ghost function Backoff(base: real, attempt: nat): real {
    if attempt == 0 then base else 2.0 * Backoff(base, attempt - 1)
  }

  lemma {:induction false} BackoffIsPower(base: real, attempt: nat)
    ensures Backoff(base, attempt) == base * Pow2(attempt) as real
  {
    if attempt > 0 {
      BackoffIsPower(base, attempt - 1);
      assert base * (2.0 * Pow2(attempt - 1) as real) == 2.0 * (base * Pow2(attempt - 1) as real);
    }
  }

  /** Seconds slept after requests [from, to): one doubling series per kind of retry. */
  ghost function Pauses(base: real, x: Exchange, q: Query, from: nat, to: nat): real
    requires from <= to
  {
    if from == to then 0.0
    else
      Pauses(base, x, q, from, to - 1)
      + Backoff(base, if Ask(x, to - 1, q).Raised? then Failures(x, q, from, to - 1) else Answers(x, q, from, to - 1))
  }

  /** The page's loop before request `n`: its variables, the seconds slept, and that it has not ended yet. */
  ghost predicate Pending(c: Config, x: Exchange, t: Task, from: nat, n: nat, m: map<int, Candle>,
                          transport: nat, partial: nat, paused: real)
  {
    && from <= n
    && m == Merged(x, t, from, n)
    && transport == Failures(x, t.query, from, n) <= c.maxTransportRetries
    && partial == Answers(x, t.query, from, n) <= c.maxPartialRetries
    && paused == Pauses(c.backoffBase, x, t.query, from, n)
    && GoesOn(c, x, t, from, n)
  }

  lemma {:induction false} PendingAfterFailure(c: Config, x: Exchange, t: Task, from: nat, n: nat, m: map<int, Candle>,
                                               transport: nat, partial: nat, paused: real)
    requires Pending(c, x, t, from, n, m, transport, partial, paused)
    requires Ask(x, n, t.query).Raised? && Retriable(Ask(x, n, t.query).kind) && transport < c.maxTransportRetries
    ensures Pending(c, x, t, from, n + 1, m, transport + 1, partial, paused + Backoff(c.backoffBase, transport))
  {
  }

  lemma {:induction false} PendingAfterPartial(c: Config, x: Exchange, t: Task, from: nat, n: nat, m: map<int, Candle>,
                                               transport: nat, partial: nat, paused: real)
    requires Pending(c, x, t, from, n, m, transport, partial, paused)
    requires Ask(x, n, t.query).Rows? && partial < c.maxPartialRetries
    requires PageStatus(|Merged(x, t, from, n + 1)|, t.expected) == PARTIAL
    ensures Pending(c, x, t, from, n + 1, Merged(x, t, from, n + 1), transport, partial + 1,
                    paused + Backoff(c.backoffBase, partial))
  {
  }

  lemma {:induction false} PendingStops(c: Config, x: Exchange, t: Task, from: nat, n: nat, m: map<int, Candle>,
                                        transport: nat, partial: nat, paused: real)
    requires Pending(c, x, t, from, n, m, transport, partial, paused)
    requires match Ask(x, n, t.query)
             case Raised(kind) => !Retriable(kind) || transport >= c.maxTransportRetries
             case Rows(_) =>
               || PageStatus(|Merged(x, t, from, n + 1)|, t.expected) != PARTIAL
               || partial >= c.maxPartialRetries
    ensures FirstStop(c, x, t, from, n) && paused == Pauses(c.backoffBase, x, t.query, from, n)
  {
  }

  // ----- The walk over pages -----

  /** A page of a walk: its window, the numbers of its first and last request, the seconds slept, what it returned. */
  datatype Page = Page(lo: int, hi: int, first: nat, last: nat, paused: real, candles: map<int, Candle>)

  /** The page is what the exchange's answers make it. */
  ghost predicate Served(c: Config, x: Exchange, instId: string, okxBar: string, tf: int, p: Page)
    requires tf > 0
  {
    var t := TaskFor(c.pageLimit, instId, okxBar, tf, p.lo, p.hi);
    && FirstStop(c, x, t, p.first, p.last)
    && Ask(x, p.last, t.query).Rows?
    && p.paused == Pauses(c.backoffBase, x, t.query, p.first, p.last)
    && p.candles == Merged(x, t, p.first, p.last + 1)
  }

  /** The page's last request raised, and was not to be retried. */
  ghost predicate Refused(c: Config, x: Exchange, instId: string, okxBar: string, tf: int, p: Page, kind: FailureKind)
    requires tf > 0
  {
    var t := TaskFor(c.pageLimit, instId, okxBar, tf, p.lo, p.hi);
    && FirstStop(c, x, t, p.first, p.last)
    && Ask(x, p.last, t.query) == Raised(kind)
    && p.paused == Pauses(c.backoffBase, x, t.query, p.first, p.last)
  }

  ghost predicate InWindow(p: Page) {
    Keyed(p.candles) && forall ts | ts in p.candles :: p.lo <= ts < p.hi
  }

  /** No further page is due. */
  ghost predicate Ended(start: int, end: int, tf: int, pages: seq<Page>) {
    if pages == [] then end - tf < start
    else
      var p := pages[|pages| - 1];
      p.candles == map[] || Oldest(p.candles.Keys) - tf < start
  }

  /** Where the next page of a walk that has not ended must end. */
  ghost function NextHi(end: int, pages: seq<Page>): int
    requires pages != [] ==> pages[|pages| - 1].candles != map[]
  {
    if pages == [] then end else Oldest(pages[|pages| - 1].candles.Keys)
  }

  /** `p` covers the window that comes after `pages`, at most `span` long and not below `start`. */
  ghost predicate Follows(start: int, end: int, span: int, tf: int, pages: seq<Page>, p: Page) {
    && !Ended(start, end, tf, pages)
    && p.hi == NextHi(end, pages)
    && p.lo == Max(start, p.hi - span)
  }

  /** Windows go backward, each one ending at the oldest candle of the page before it. */
  ghost predicate Walk(start: int, end: int, span: int, tf: int, pages: seq<Page>)
    decreases |pages|
  {
    pages == [] ||
    var front, p := pages[..|pages| - 1], pages[|pages| - 1];
    Walk(start, end, span, tf, front) && Follows(start, end, span, tf, front, p) && InWindow(p)
  }

  /** The pages account for the requests [from, to), without a hole. */
  ghost predicate AllServed(c: Config, x: Exchange, instId: string, okxBar: string, tf: int, pages: seq<Page>,
                            from: nat, to: nat)
    requires tf > 0
    decreases |pages|
  {
    if pages == [] then from == to
    else
      var front, p := pages[..|pages| - 1], pages[|pages| - 1];
      && AllServed(c, x, instId, okxBar, tf, front, from, p.first)
      && Served(c, x, instId, okxBar, tf, p)
      && to == p.last + 1
  }

  /** Seconds slept over the pages of a range. */
  ghost function RangePauses(pages: seq<Page>): real
    decreases |pages|
  {
    if pages == [] then 0.0 else RangePauses(pages[..|pages| - 1]) + pages[|pages| - 1].paused
  }

  /** `setdefault` keeps the candle of the earlier page. */
  ghost function Collected(pages: seq<Page>): map<int, Candle>
    decreases |pages|
  {
    if pages == [] then map[]
    else pages[|pages| - 1].candles + Collected(pages[..|pages| - 1])
  }

  /** The pages fetched before request `to` from a range whose first request was `from`. */
  ghost predicate Fetching(c: Config, x: Exchange, instId: string, okxBar: string, tf: int, start: int, end: int,
                           pages: seq<Page>, from: nat, to: nat)
    requires tf > 0
  {
    Walk(start, end, Span(c.pageLimit, tf), tf, pages) && AllServed(c, x, instId, okxBar, tf, pages, from, to)
  }

  /**
    What `FetchRange` promises about a range whose timeframe is known and whose requests were [from, to).
    A failed range leaves out of `pages` the page `refused`, whose last request raised.
   */
  ghost predicate Fetched(c: Config, x: Exchange, instId: string, okxBar: string, tf: int, start: int, end: int,
                          from: nat, to: nat, pages: seq<Page>, refused: Page, r: Result<seq<Candle>, FetchError>)
    requires tf > 0
  {
    match r
    case Ok(candles) =>
      && Fetching(c, x, instId, okxBar, tf, start, end, pages, from, to)
      && Ended(start, end, tf, pages)
      && candles == InTsOrder(Collected(pages))
    case Err(e) =>
      && e.RequestFailed?
      && to == refused.last + 1
      && Fetching(c, x, instId, okxBar, tf, start, end, pages, from, refused.first)
      && Follows(start, end, Span(c.pageLimit, tf), tf, pages, refused)
      && Refused(c, x, instId, okxBar, tf, refused, e.kind)
  }

  lemma {:induction false} MergedInWindow(x: Exchange, t: Task, from: nat, to: nat)
    requires from <= to
    ensures forall ts | ts in Merged(x, t, from, to) :: t.lo <= ts < t.hi
  {
    if from < to {
      MergedInWindow(x, t, from, to - 1);
    }
  }

  lemma {:induction false} ServedInWindow(c: Config, x: Exchange, instId: string, okxBar: string, tf: int, p: Page)
    requires tf > 0 && Served(c, x, instId, okxBar, tf, p)
    ensures InWindow(p)
  {
    MergedInWindow(x, TaskFor(c.pageLimit, instId, okxBar, tf, p.lo, p.hi), p.first, p.last + 1);
  }

  lemma {:induction false} WalkStep(start: int, end: int, span: int, tf: int, pages: seq<Page>, p: Page)
    requires Walk(start, end, span, tf, pages) && Follows(start, end, span, tf, pages, p) && InWindow(p)
    ensures Walk(start, end, span, tf, pages + [p])
  {
    assert (pages + [p])[..|pages|] == pages;
  }

  lemma {:induction false} AllServedStep(c: Config, x: Exchange, instId: string, okxBar: string, tf: int,
                                         pages: seq<Page>, from: nat, p: Page)
    requires tf > 0 && AllServed(c, x, instId, okxBar, tf, pages, from, p.first) && Served(c, x, instId, okxBar, tf, p)
    ensures AllServed(c, x, instId, okxBar, tf, pages + [p], from, p.last + 1)
  {
    assert (pages + [p])[..|pages|] == pages;
  }

  /** The cursor stands one bar below the point down to which everything has been asked for. */
  ghost predicate Due(end: int, tf: int, pages: seq<Page>, cursor: int) {
    && (pages != [] ==> pages[|pages| - 1].candles != map[])
    && cursor == NextHi(end, pages) - tf <= end - tf
  }

  lemma {:induction false} InTsOrderDistinct(m: map<int, Candle>)
    requires Keyed(m)
    ensures forall i, j | 0 <= i < j < |InTsOrder(m)| :: InTsOrder(m)[i].ts < InTsOrder(m)[j].ts
  {
    AscendingIncreases(m.Keys);
    InTsOrderSorts(m);
  }

  /** A served page joins the walk. */
  lemma {:induction false} FetchingOn(c: Config, x: Exchange, instId: string, okxBar: string, tf: int, start: int, end: int,
                                      from: nat, pages: seq<Page>, p: Page)
    requires tf > 0
    requires Fetching(c, x, instId, okxBar, tf, start, end, pages, from, p.first)
    requires Follows(start, end, Span(c.pageLimit, tf), tf, pages, p) && Served(c, x, instId, okxBar, tf, p)
    ensures Fetching(c, x, instId, okxBar, tf, start, end, pages + [p], from, p.last + 1)
    ensures Collected(pages + [p]) == p.candles + Collected(pages)
    ensures RangePauses(pages + [p]) == RangePauses(pages) + p.paused
    ensures InWindow(p)
  {
    assert (pages + [p])[..|pages|] == pages;
    ServedInWindow(c, x, instId, okxBar, tf, p);
    WalkStep(start, end, Span(c.pageLimit, tf), tf, pages, p);
    AllServedStep(c, x, instId, okxBar, tf, pages, from, p);
  }

  class Client {
    const config: Config
    const exchange: Exchange
    var requests: nat
    var slept: real

    constructor (config: Config, exchange: Exchange)
      ensures this.config == config && this.exchange == exchange && requests == 0 && slept == 0.0
    {
      this.config, this.exchange, requests, slept := config, exchange, 0, 0.0;
    }

    method NormalizeRows(rows: seq<Candle>, lo: int, hi: int) returns (candles: seq<Candle>)
      ensures candles == InTsOrder(Within(ByTs(rows), lo, hi))
    {
      var candlesByTs: map<int, Candle> := map[];
      var i := 0;
      while i < |rows|
        invariant 0 <= i <= |rows|
        invariant candlesByTs == Within(ByTs(rows[..i]), lo, hi)
      {
        var row := rows[i];
        assert rows[..i + 1][..i] == rows[..i];
        if lo <= row.ts < hi {
          candlesByTs := candlesByTs[row.ts := row];
        }
        i := i + 1;
      }
      assert rows[..|rows|] == rows;
      candles := InTsOrder(candlesByTs);
    }

    method BackoffSeconds(attempt: nat) returns (seconds: real)
      ensures seconds == Backoff(config.backoffBase, attempt)
    {
      BackoffIsPower(config.backoffBase, attempt);
      seconds := config.backoffBase * Pow2(attempt) as real;
    }

    method StoreAll(before: map<int, Candle>, candles: seq<Candle>) returns (m: map<int, Candle>)
      ensures m == before + ByTs(candles)
    {
      m := before;
      for i := 0 to |candles|
        invariant m == before + ByTs(candles[..i])
      {
        assert candles[..i + 1][..i] == candles[..i];
        m := m[candles[i].ts := candles[i]];
      }
      assert candles[..|candles|] == candles;
    }

    /** `candles_by_ts[ts] = candle` for each in-window row of one answer. */
    method Absorb(before: map<int, Candle>, rows: seq<Candle>, lo: int, hi: int) returns (m: map<int, Candle>)
      ensures m == before + Within(ByTs(rows), lo, hi)
    {
      var candles := NormalizeRows(rows, lo, hi);
      ByTsOfInTsOrder(Within(ByTs(rows), lo, hi));
      m := StoreAll(before, candles);
    }

    /** One iteration: a request, then either the outcome or a pause and the updated variables. */
    method Attempt(task: Task, ghost from: nat, candlesByTs: map<int, Candle>, transport: nat, partial: nat,
                   ghost paused: real)
      returns (done: bool, r: Result<map<int, Candle>, FailureKind>,
               candlesByTs': map<int, Candle>, transport': nat, partial': nat, ghost paused': real)
      requires Pending(config, exchange, task, from, requests, candlesByTs, transport, partial, paused)
      modifies this`requests, this`slept
      ensures requests == old(requests) + 1
      ensures slept - old(slept) == paused' - paused
      ensures done ==>
                && FirstStop(config, exchange, task, from, old(requests))
                && r == PageOutcome(exchange, task, from, old(requests))
                && paused' == Pauses(config.backoffBase, exchange, task.query, from, old(requests))
      ensures !done ==>
                && Pending(config, exchange, task, from, requests, candlesByTs', transport', partial', paused')
                && transport' + partial' == transport + partial + 1
    {
      ghost var k := requests;
      var reply := Ask(exchange, requests, task.query);
      requests := requests + 1;
      done, r, candlesByTs', transport', partial', paused' := true, Err(Fatal), candlesByTs, transport, partial, paused;
      if reply.Raised? {
        if !Retriable(reply.kind) || transport >= config.maxTransportRetries {
          PendingStops(config, exchange, task, from, k, candlesByTs, transport, partial, paused);
          r := Err(reply.kind);
          return;
        }
        PendingAfterFailure(config, exchange, task, from, k, candlesByTs, transport, partial, paused);
        var pause := BackoffSeconds(transport);
        slept, paused' := slept + pause, paused + pause;
        done, transport' := false, transport + 1;
        return;
      }

      candlesByTs' := Absorb(candlesByTs, reply.rows, task.lo, task.hi);
      assert candlesByTs' == Merged(exchange, task, from, k + 1);
      var status := PageStatus(|candlesByTs'|, task.expected);
      if status != PARTIAL || partial >= config.maxPartialRetries {
        PendingStops(config, exchange, task, from, k, candlesByTs, transport, partial, paused);
        r := Ok(candlesByTs');
        return;
      }
      PendingAfterPartial(config, exchange, task, from, k, candlesByTs, transport, partial, paused);
      var pause := BackoffSeconds(partial);
      slept, paused' := slept + pause, paused + pause;
      done, partial' := false, partial + 1;
    }

    /** The retry loop of `FetchPage`. */
    method FetchTask(task: Task) returns (r: Result<map<int, Candle>, FailureKind>, ghost last: nat)
      modifies this`requests, this`slept
      ensures old(requests) <= last && requests == last + 1
      ensures FirstStop(config, exchange, task, old(requests), last)
      ensures r == PageOutcome(exchange, task, old(requests), last)
      ensures slept == old(slept) + Pauses(config.backoffBase, exchange, task.query, old(requests), last)
    {
      var candlesByTs: map<int, Candle> := map[];
      var partialAttempts, transportAttempts := 0, 0;
      ghost var from, paused := requests, 0.0;
      while true
        invariant slept == old(slept) + paused
        invariant Pending(config, exchange, task, from, requests, candlesByTs, transportAttempts, partialAttempts, paused)
        decreases config.maxTransportRetries - transportAttempts + config.maxPartialRetries - partialAttempts
      {
        last := requests;
        var done;
        done, r, candlesByTs, transportAttempts, partialAttempts, paused :=
          Attempt(task, from, candlesByTs, transportAttempts, partialAttempts, paused);
        if done {
          return;
        }
      }
    }

    method FetchPage(instId: string, okxBar: string, tf: int, lo: int, hi: int)
      returns (r: Result<PageReply, FailureKind>, ghost p: Page)
      requires tf > 0
      modifies this`requests, this`slept
      ensures p.lo == lo && p.hi == hi && p.first == old(requests) <= p.last && p.last + 1 == requests
      ensures slept == old(slept) + p.paused
      ensures if r.Ok?
              then Served(config, exchange, instId, okxBar, tf, p) && r.value == PageOf(p.candles, Slots(lo, hi, tf))
              else Refused(config, exchange, instId, okxBar, tf, p, r.error)
    {
      var query := Query(instId, okxBar, Max(0, lo - tf), hi, config.pageLimit);
      var expected := Max(0, (hi - lo) / tf);
      SlotsByDivision(lo, hi, tf);
      ghost var task := TaskFor(config.pageLimit, instId, okxBar, tf, lo, hi);
      ghost var first := requests;
      ghost var last;
      var found: Result<map<int, Candle>, FailureKind>;
      found, last := FetchTask(Task(query, lo, hi, expected));
      p := Page(lo, hi, first, last, slept - old(slept), Merged(exchange, task, first, last + 1));
      r := if found.Ok? then Ok(PageOf(found.value, expected)) else Err(found.error);
    }

    /** `collected.setdefault(ts, candle)` for each candle of a page. */
    method SetDefaults(before: map<int, Candle>, candles: seq<Candle>) returns (m: map<int, Candle>)
      requires forall i, j | 0 <= i < j < |candles| :: candles[i].ts != candles[j].ts
      ensures m == ByTs(candles) + before
    {
      m := before;
      for i := 0 to |candles|
        invariant m == ByTs(candles[..i]) + before
      {
        assert candles[..i + 1][..i] == candles[..i];
        ByTsKeepsLast(candles[..i], candles[i].ts);
        if candles[i].ts !in m {
          m := m[candles[i].ts := candles[i]];
        }
      }
      assert candles[..|candles|] == candles;
    }

    /** The window below the cursor, and its page. */
    method NextPage(instId: string, okxBar: string, tf: int, start: int, end: int, ghost pages: seq<Page>, cursor: int)
      returns (page: Result<PageReply, FailureKind>, ghost p: Page)
      requires tf > 0 && !Ended(start, end, tf, pages) && Due(end, tf, pages, cursor)
      modifies this`requests, this`slept
      ensures p.first == old(requests) <= p.last && p.last + 1 == requests && slept == old(slept) + p.paused
      ensures Follows(start, end, Span(config.pageLimit, tf), tf, pages, p)
      ensures if page.Ok?
              then Served(config, exchange, instId, okxBar, tf, p) && page.value == PageOf(p.candles, Slots(p.lo, p.hi, tf))
              else Refused(config, exchange, instId, okxBar, tf, p, page.error)
    {
      SpanIsProduct(config.pageLimit, tf);
      var hi := Min(end, cursor + tf);
      var lo := Max(start, hi - config.pageLimit * tf);
      page, p := FetchPage(instId, okxBar, tf, lo, hi);
    }

    /** The rest of an iteration: the candles of the page, and the next cursor. */
    method TakePage(page: PageReply, tf: int, start: int, end: int, collected: map<int, Candle>, cursor: int,
                    ghost pages: seq<Page>, ghost p: Page)
      returns (collected': map<int, Candle>, more: bool, nextCursor: int)
      requires tf > 0 && InWindow(p) && page == PageOf(p.candles, Slots(p.lo, p.hi, tf))
      requires collected == Collected(pages) && Due(end, tf, pages, cursor) && p.hi == NextHi(end, pages)
      ensures collected' == Collected(pages + [p])
      ensures more == !Ended(start, end, tf, pages + [p])
      ensures more ==> Due(end, tf, pages + [p], nextCursor) && start <= nextCursor < cursor
    {
      assert (pages + [p])[..|pages|] == pages;
      ByTsOfInTsOrder(p.candles);
      InTsOrderDistinct(p.candles);
      collected' := SetDefaults(collected, page.candles);
      more, nextCursor := false, cursor;
      var oldest := page.oldest;
      if oldest.Some? && oldest.value > start {
        nextCursor := oldest.value - tf;
        more := nextCursor < cursor && nextCursor >= start;
      }
    }

    /** One iteration: fetch the page below the cursor, keep its candles, and say where to go on. */
    method WalkPage(instId: string, okxBar: string, tf: int, start: int, end: int, ghost from: nat,
                    ghost pages: seq<Page>, collected: map<int, Candle>, cursor: int)
      returns (failure: Option<FailureKind>, collected': map<int, Candle>, more: bool, nextCursor: int, ghost p: Page)
      requires tf > 0
      requires Fetching(config, exchange, instId, okxBar, tf, start, end, pages, from, requests)
      requires collected == Collected(pages)
      requires !Ended(start, end, tf, pages) && Due(end, tf, pages, cursor)
      modifies this`requests, this`slept
      ensures p.first == old(requests) <= p.last && p.last + 1 == requests
      ensures slept == old(slept) + p.paused
      ensures Follows(start, end, Span(config.pageLimit, tf), tf, pages, p)
      ensures failure.Some? ==> Refused(config, exchange, instId, okxBar, tf, p, failure.value)
      ensures failure.None? ==>
                && Fetching(config, exchange, instId, okxBar, tf, start, end, pages + [p], from, requests)
                && RangePauses(pages + [p]) == RangePauses(pages) + p.paused
                && collected' == Collected(pages + [p])
                && more == !Ended(start, end, tf, pages + [p])
                && (more ==> Due(end, tf, pages + [p], nextCursor) && start <= nextCursor < cursor)
    {
      var page: Result<PageReply, FailureKind>;
      page, p := NextPage(instId, okxBar, tf, start, end, pages, cursor);
      collected', more, nextCursor, failure := collected, false, cursor, None;
      if page.Err? {
        failure := Some(page.error);
        return;
      }
      FetchingOn(config, exchange, instId, okxBar, tf, start, end, from, pages, p);
      collected', more, nextCursor := TakePage(page.value, tf, start, end, collected, cursor, pages, p);
    }

    /** The cursor loop of `FetchRange`. */
    method WalkPages(instId: string, okxBar: string, tf: int, start: int, end: int)
      returns (r: Result<seq<Candle>, FetchError>, ghost pages: seq<Page>, ghost refused: Page)
      requires tf > 0
      modifies this`requests, this`slept
      ensures Fetched(config, exchange, instId, okxBar, tf, start, end, old(requests), requests, pages, refused, r)
      ensures slept == old(slept) + RangePauses(pages) + if r.Err? then refused.paused else 0.0
    {
      pages, refused := [], Page(start, end, 0, 0, 0.0, map[]);
      ghost var from := requests;
      var collected: map<int, Candle> := map[];
      var cursor := end - tf;
      var more := cursor >= start;
      while more
        invariant Fetching(config, exchange, instId, okxBar, tf, start, end, pages, from, requests)
        invariant collected == Collected(pages)
        invariant slept == old(slept) + RangePauses(pages)
        invariant more == !Ended(start, end, tf, pages)
        invariant more ==> Due(end, tf, pages, cursor)
        decreases more, cursor - start
      {
        var failure: Option<FailureKind>;
        ghost var p;
        failure, collected, more, cursor, p :=
          WalkPage(instId, okxBar, tf, start, end, from, pages, collected, cursor);
        if failure.Some? {
          return Err(RequestFailed(failure.value)), pages, p;
        }
        pages := pages + [p];
      }
      r := Ok(InTsOrder(collected));
    }

    method FetchRange(instId: string, bar: string, start: int, end: int)
      returns (r: Result<seq<Candle>, FetchError>, ghost pages: seq<Page>, ghost refused: Page)
      modifies this`requests, this`slept
      ensures start >= end ==> r == Ok([]) && requests == old(requests) && slept == old(slept)
      ensures start < end && bar !in TF_TO_MS ==>
                r == Err(UnsupportedTimeframe) && requests == old(requests) && slept == old(slept)
      ensures start < end && bar in TF_TO_MS ==>
                && Fetched(config, exchange, instId, HistoryBar(bar), TF_TO_MS[bar], start, end, old(requests), requests,
                           pages, refused, r)
                && slept == old(slept) + RangePauses(pages) + if r.Err? then refused.paused else 0.0
    {
      pages, refused := [], Page(start, end, 0, 0, 0.0, map[]);
      if start >= end {
        return Ok([]), pages, refused;
      }
      if bar !in TF_TO_MS {
        return Err(UnsupportedTimeframe), pages, refused;
      }
      r, pages, refused := WalkPages(instId, HistoryBar(bar), TF_TO_MS[bar], start, end);
    }
  }
}
