/**
  The older forward pager: it asks for rows from `since` on and moves `since` one bar past the newest
  row seen. There are no retries; a failed request fails the range.
 */
module ForwardPager {
  import opened Timestamps
  import opened Candles
  import opened Wrappers
  import opened HistoryClient
  import opened HistoryWalk

  /** The answer to request number `n` about one series, made with this `since`. */
  type Feed = (nat, int) -> Reply

  function AskFeed(x: Feed, n: nat, since: int): Reply { x(n, since) }

  /** What is asked about: an instrument, its symbol at the exchange and the exchange's timeframe. */
  datatype Series = Series(instId: string, symbol: string, timeframe: string)

  /** The answer to a request about a series, with its `since` and `limit`; each series may have other candles. */
  type Market = (nat, Series, int, nat) -> Reply

  /** The requests of this pager, all with the same limit. */
  function FeedOf(x: Market, series: Series): Feed { (n: nat, since: int) => x(n, series, since, 100) }

  datatype PagerError = UnsupportedInstrument | RequestFailed(kind: FailureKind)

  const CCXT_TIMEFRAMES: map<string, string> := map["1H" := "1h", "4H" := "4h", "12H" := "12h", "1D" := "1d", "1W" := "1w"]

  /** `instId.split("-")` */
  function Split(s: string): (parts: seq<string>)
    ensures parts != []
  {
    if s == [] then [[]]
    else
      var rest := Split(s[1..]);
      if s[0] == '-' then [[]] + rest else [[s[0]] + rest[0]] + rest[1..]
  }

  function ToCcxtSymbol(instId: string): Option<string> {
    var parts := Split(instId);
    if |parts| != 3 || parts[2] != "SWAP" || parts[0] == [] || parts[1] == [] then None
    else Some(parts[0] + "/" + parts[1] + ":" + parts[1])
  }

  /** The series that a request about this instrument and bar names, if the instrument is supported. */
  function SeriesOf(instId: string, bar: string): Option<Series> {
    var symbol := ToCcxtSymbol(instId);
    if symbol.None? then None
    else Some(Series(instId, symbol.value, if bar in CCXT_TIMEFRAMES then CCXT_TIMEFRAMES[bar] else bar))
  }

  /** This pager leaves the two extra volume columns empty. */
  function Bare(c: Candle): Candle { c.(volCcy := None, volUsd := None) }

  /** The same open time, prices and volume. */
  ghost predicate SameBar(a: Candle, b: Candle) {
    a.ts == b.ts && a.open == b.open && a.high == b.high && a.low == b.low && a.close == b.close && a.volume == b.volume
  }

  /** Two lists hold the same bars in the same order. */
  ghost predicate SameBars(a: seq<Candle>, b: seq<Candle>) {
    |a| == |b| && forall i | 0 <= i < |a| :: SameBar(a[i], b[i])
  }

  ghost function BareMap(m: map<int, Candle>): map<int, Candle> {
    map ts | ts in m :: Bare(m[ts])
  }

  /** The largest timestamp among `since` and the rows. */
  ghost function NewestSeen(since: int, rows: seq<Candle>): int {
    if rows == [] then since
    else Max(NewestSeen(since, rows[..|rows| - 1]), rows[|rows| - 1].ts)
  }

  /** Rows of `[start, end)` join `m`; the first row with a timestamp stays. */
  ghost function Keep(m: map<int, Candle>, rows: seq<Candle>, start: int, end: int): map<int, Candle> {
    if rows == [] then m
    else
      var kept, row := Keep(m, rows[..|rows| - 1], start, end), rows[|rows| - 1];
      if start <= row.ts < end && row.ts !in kept then kept[row.ts := Bare(row)] else kept
  }

  /** One answered request of a walk. */
  datatype Hop = Hop(since: int, request: nat, rows: seq<Candle>)

  ghost function NextSince(start: int, tf: int, hops: seq<Hop>): int {
    if hops == [] then start
    else NewestSeen(hops[|hops| - 1].since, hops[|hops| - 1].rows) + tf
  }

  ghost predicate Finished(start: int, end: int, tf: int, hops: seq<Hop>) {
    (hops != [] && hops[|hops| - 1].rows == []) || NextSince(start, tf, hops) >= end
  }

  /** The requests [from, to) in order, each one asked for by the rows of the one before it. */
  ghost predicate Hops(x: Feed, start: int, end: int, tf: int, hops: seq<Hop>, from: nat, to: nat)
    decreases |hops|
  {
    if hops == [] then from == to
    else
      var front, h := hops[..|hops| - 1], hops[|hops| - 1];
      && Hops(x, start, end, tf, front, from, h.request)
      && !Finished(start, end, tf, front)
      && h.since == NextSince(start, tf, front)
      && AskFeed(x, h.request, h.since) == Rows(h.rows)
      && to == h.request + 1
  }

  ghost function Gathered(hops: seq<Hop>, start: int, end: int): map<int, Candle>
    decreases |hops|
  {
    if hops == [] then map[]
    else Keep(Gathered(hops[..|hops| - 1], start, end), hops[|hops| - 1].rows, start, end)
  }

  /** What a forward fetch that used the requests [from, to) promises. */
  ghost predicate Forwarded(x: Feed, start: int, end: int, tf: int, from: nat, to: nat, hops: seq<Hop>,
                            r: Result<seq<Candle>, FailureKind>)
  {
    match r
    case Ok(candles) =>
      && Hops(x, start, end, tf, hops, from, to)
      && Finished(start, end, tf, hops)
      && candles == InTsOrder(Gathered(hops, start, end))
    case Err(kind) =>
      && from < to
      && Hops(x, start, end, tf, hops, from, to - 1)
      && !Finished(start, end, tf, hops)
      && AskFeed(x, to - 1, NextSince(start, tf, hops)) == Raised(kind)
  }

  class Adapter {
    const market: Market
    var requests: nat

    constructor (market: Market)
      ensures this.market == market && requests == 0
    {
      this.market, requests := market, 0;
    }

    /** The loop over the rows of one answer. */
    method TakeRows(before: map<int, Candle>, rows: seq<Candle>, since: int, start: int, end: int)
      returns (collected: map<int, Candle>, newest: int)
      ensures collected == Keep(before, rows, start, end) && newest == NewestSeen(since, rows)
    {
      collected, newest := before, since;
      for i := 0 to |rows|
        invariant collected == Keep(before, rows[..i], start, end) && newest == NewestSeen(since, rows[..i])
      {
        var row := rows[i];
        assert rows[..i + 1][..i] == rows[..i];
        if row.ts > newest {
          newest := row.ts;
        }
        if start <= row.ts < end && row.ts !in collected {
          collected := collected[row.ts := Candle(row.ts, row.open, row.high, row.low, row.close, row.volume, None, None)];
        }
      }
      assert rows[..|rows|] == rows;
    }

    method WalkForward(series: Series, tf: int, start: int, end: int)
      returns (r: Result<seq<Candle>, FailureKind>, ghost hops: seq<Hop>)
      requires tf > 0 && start < end
      modifies this
      ensures Forwarded(FeedOf(market, series), start, end, tf, old(requests), requests, hops, r)
    {
      hops := [];
      ghost var from := requests;
      var collected: map<int, Candle> := map[];
      var since := start;
      var more := true;
      while more
        invariant from <= requests && Hops(FeedOf(market, series), start, end, tf, hops, from, requests)
        invariant collected == Gathered(hops, start, end)
        invariant more == !Finished(start, end, tf, hops)
        invariant more ==> since == NextSince(start, tf, hops)
        decreases more, end - since
      {
        var reply := AskFeed(FeedOf(market, series), requests, since);
        ghost var request := requests;
        requests := requests + 1;
        if reply.Raised? {
          return Err(reply.kind), hops;
        }
        ghost var hop := Hop(since, request, reply.rows);
        HopsStep(FeedOf(market, series), start, end, tf, hops, from, hop);
        hops := hops + [hop];
        if reply.rows == [] {
          more := false;
        } else {
          var newest;
          collected, newest := TakeRows(collected, reply.rows, since, start, end);
          NewestSeenBounds(since, reply.rows);
          var nextSince := newest + tf;
          more := nextSince > since && nextSince < end;
          since := nextSince;
        }
      }
      r := Ok(InTsOrder(collected));
    }

    method GetHistoryCandles(instId: string, bar: string, start: int, end: int)
      returns (r: Result<seq<Candle>, PagerError>, ghost hops: seq<Hop>)
      modifies this
      ensures start >= end ==> r == Ok([]) && requests == old(requests)
      ensures start < end && SeriesOf(instId, bar).None? ==> r == Err(UnsupportedInstrument) && requests == old(requests)
      ensures start < end && SeriesOf(instId, bar).Some? ==>
                && r != Err(UnsupportedInstrument)
                && Forwarded(FeedOf(market, SeriesOf(instId, bar).value), start, end,
                             if bar in TF_TO_MS then TF_TO_MS[bar] else 60_000, old(requests), requests, hops,
                             if r.Ok? then Ok(r.value) else Err(r.error.kind))
    {
      hops := [];
      if start >= end {
        return Ok([]), hops;
      }
      var series := SeriesOf(instId, bar);
      if series.None? {
        return Err(UnsupportedInstrument), hops;
      }
      var walked;
      walked, hops := WalkForward(series.value, if bar in TF_TO_MS then TF_TO_MS[bar] else 60_000, start, end);
      r := if walked.Ok? then Ok(walked.value) else Err(PagerError.RequestFailed(walked.error));
    }
  }

  lemma {:induction false} HopsStep(x: Feed, start: int, end: int, tf: int, hops: seq<Hop>, from: nat, h: Hop)
    requires Hops(x, start, end, tf, hops, from, h.request) && !Finished(start, end, tf, hops)
    requires h.since == NextSince(start, tf, hops) && AskFeed(x, h.request, h.since) == Rows(h.rows)
    ensures Hops(x, start, end, tf, hops + [h], from, h.request + 1)
    ensures Gathered(hops + [h], start, end) == Keep(Gathered(hops, start, end), h.rows, start, end)
  {
    assert (hops + [h])[..|hops|] == hops;
  }

  lemma {:induction false} NewestSeenBounds(since: int, rows: seq<Candle>)
    ensures since <= NewestSeen(since, rows)
    ensures forall i | 0 <= i < |rows| :: rows[i].ts <= NewestSeen(since, rows)
    ensures NewestSeen(since, rows) == since || exists i :: 0 <= i < |rows| && rows[i].ts == NewestSeen(since, rows)
  {
    if rows != [] {
      var front := rows[..|rows| - 1];
      NewestSeenBounds(since, front);
      forall i | 0 <= i < |rows| ensures rows[i].ts <= NewestSeen(since, rows) {
        if i < |rows| - 1 {
          assert front[i] == rows[i];
        }
      }
      if NewestSeen(since, rows) == NewestSeen(since, front) != since {
        var i :| 0 <= i < |front| && front[i].ts == NewestSeen(since, front);
        assert rows[i].ts == NewestSeen(since, rows);
      }
    }
  }

  // ----- Instruments -----

  predicate DashFree(s: string) { '-' !in s }

  /** `"-".join(parts)` */
  function Dashed(parts: seq<string>): string
    requires parts != []
  {
    if |parts| == 1 then parts[0] else parts[0] + "-" + Dashed(parts[1..])
  }

  /** Splitting gives dash-free parts that join to the text again. */
  lemma {:induction false} SplitIsDashed(s: string)
    ensures Dashed(Split(s)) == s && forall i | 0 <= i < |Split(s)| :: DashFree(Split(s)[i])
  {
    if s != [] {
      var rest := Split(s[1..]);
      SplitIsDashed(s[1..]);
      assert s == [s[0]] + s[1..];
      if s[0] == '-' {
        assert ([[]] + rest)[1..] == rest;
      } else {
        assert ([[s[0]] + rest[0]] + rest[1..])[1..] == rest[1..];
      }
    }
  }

  /** It undoes joining of dash-free parts. */
  lemma {:induction false} SplitOfDashed(parts: seq<string>)
    requires parts != [] && forall i | 0 <= i < |parts| :: DashFree(parts[i])
    ensures Split(Dashed(parts)) == parts
    decreases |parts|, |parts[0]|
  {
    var s := Dashed(parts);
    if parts[0] != [] {
      var shorter := [parts[0][1..]] + parts[1..];
      assert shorter[1..] == parts[1..];
      assert s == [parts[0][0]] + Dashed(shorter) by {
        if |parts| > 1 {
          assert parts[0] + "-" + Dashed(parts[1..]) == [parts[0][0]] + (parts[0][1..] + "-" + Dashed(parts[1..]));
        }
      }
      assert s[0] in parts[0];
      SplitOfDashed(shorter);
      assert [parts[0][0]] + parts[0][1..] == parts[0];
    } else if |parts| > 1 {
      assert s == "-" + Dashed(parts[1..]);
      SplitOfDashed(parts[1..]);
      assert parts == [[]] + parts[1..];
    } else {
      assert parts == [[]];
    }
  }

  /** Exactly the instruments `BASE-QUOTE-SWAP` are supported, as `BASE/QUOTE:QUOTE`. */
  lemma {:induction false} SupportedInstruments(instId: string, symbol: string)
    ensures ToCcxtSymbol(instId) == Some(symbol) <==>
            exists base, quote ::
              && base != [] && quote != [] && DashFree(base) && DashFree(quote)
              && instId == Dashed([base, quote, "SWAP"]) && symbol == base + "/" + quote + ":" + quote
  {
    if ToCcxtSymbol(instId) == Some(symbol) {
      SplitIsDashed(instId);
      var parts := Split(instId);
      assert parts == [parts[0], parts[1], "SWAP"];
      assert instId == Dashed([parts[0], parts[1], "SWAP"]);
    }
    forall base, quote | base != [] && quote != [] && DashFree(base) && DashFree(quote) &&
                         instId == Dashed([base, quote, "SWAP"])
      ensures ToCcxtSymbol(instId) == Some(base + "/" + quote + ":" + quote)
    {
      SplitOfDashed([base, quote, "SWAP"]);
    }
  }

  /** A supported instrument is asked about under its symbol, in the exchange's spelling of the timeframe. */
  lemma {:induction false} SeriesNamed(instId: string, bar: string)
    requires SeriesOf(instId, bar).Some?
    ensures var series := SeriesOf(instId, bar).value;
            && series.instId == instId && ToCcxtSymbol(instId) == Some(series.symbol)
            && (bar == "1H" ==> series.timeframe == "1h")
            && (bar == "4H" ==> series.timeframe == "4h")
            && (bar == "12H" ==> series.timeframe == "12h")
            && (bar == "1D" ==> series.timeframe == "1d")
            && (bar == "1W" ==> series.timeframe == "1w")
            && (bar !in ["1H", "4H", "12H", "1D", "1W"] ==> series.timeframe == bar)
  {
    assert "1H"[1] == 'H' && "4H"[0] == '4' && |"12H"| == 3 && "1D"[1] == 'D' && "1W"[1] == 'W';
    assert ["1H", "4H", "12H", "1D", "1W"][0] == "1H" && ["1H", "4H", "12H", "1D", "1W"][1] == "4H";
    assert ["1H", "4H", "12H", "1D", "1W"][2] == "12H" && ["1H", "4H", "12H", "1D", "1W"][3] == "1D";
    assert ["1H", "4H", "12H", "1D", "1W"][4] == "1W";
  }

  // ----- Any feed -----

  /** `since` rises by a bar or more each time: the progress guard never stops a walk. */
  lemma {:induction false} SinceRises(start: int, tf: int, hops: seq<Hop>)
    requires tf > 0 && hops != []
    ensures hops[|hops| - 1].since + tf <= NextSince(start, tf, hops)
  {
    NewestSeenBounds(hops[|hops| - 1].since, hops[|hops| - 1].rows);
  }

  /** Whatever the answers, fewer than `(end - start) / tf + 1` requests are made. */
  lemma {:induction false} ForwardLength(x: Feed, start: int, end: int, tf: int, hops: seq<Hop>, from: nat, to: nat)
    requires tf > 0 && start < end && hops != [] && Hops(x, start, end, tf, hops, from, to)
    ensures start + Span(|hops| - 1, tf) <= hops[|hops| - 1].since < end
    ensures to - from == |hops|
    decreases |hops|
  {
    var front := hops[..|hops| - 1];
    if front != [] {
      ForwardLength(x, start, end, tf, front, from, hops[|hops| - 1].request);
      SinceRises(start, tf, front);
    }
  }

  // ----- An honest feed -----

  /** The oldest 100 stored rows from `since` on, in any order. */
  ghost predicate OldestRows(book: map<int, Candle>, since: int, rows: seq<Candle>) {
    var found := ByTs(rows).Keys;
    && (forall i | 0 <= i < |rows| :: rows[i].ts in book && SameBar(rows[i], book[rows[i].ts]) && since <= rows[i].ts)
    && (forall ts | ts in book && since <= ts && ts !in found ::
          |found| >= 100 && forall older | older in found :: older < ts)
  }

  ghost predicate HonestFeed(x: Feed, book: map<int, Candle>) {
    forall n: nat, since :: AskFeed(x, n, since).Rows? ==> OldestRows(book, since, AskFeed(x, n, since).rows)
  }

  /** An exchange that answers about a series from `book`: the oldest stored rows from `since` on, up to the limit. */
  ghost predicate HonestMarket(x: Market, series: Series, book: map<int, Candle>) {
    forall n: nat, since, limit: nat :: x(n, series, since, limit).Rows? ==>
      var rows := x(n, series, since, limit).rows;
      && (forall i | 0 <= i < |rows| :: rows[i].ts in book && SameBar(rows[i], book[rows[i].ts]) && since <= rows[i].ts)
      && (forall ts | ts in book && since <= ts && ts !in ByTs(rows) ::
            |ByTs(rows)| >= limit && forall older | older in ByTs(rows) :: older < ts)
  }

  /** This pager asks it with a limit of 100, and so has an honest feed. */
  lemma {:induction false} MarketFeeds(x: Market, series: Series, book: map<int, Candle>)
    ensures forall n: nat, since :: AskFeed(FeedOf(x, series), n, since) == x(n, series, since, 100)
    ensures HonestMarket(x, series, book) ==> HonestFeed(FeedOf(x, series), book)
  {
    if HonestMarket(x, series, book) {
      forall n: nat, since | AskFeed(FeedOf(x, series), n, since).Rows?
        ensures OldestRows(book, since, AskFeed(FeedOf(x, series), n, since).rows)
      {
        assert x(n, series, since, 100).Rows?;
      }
    }
  }

  /** The `n` oldest members. */
  ghost function OldestOf(s: set<int>, n: nat): set<int> {
    if n == 0 || s == {} then {} else {Oldest(s)} + OldestOf(s - {Oldest(s)}, n - 1)
  }

  lemma {:induction false} OldestOfIs(s: set<int>, n: nat)
    ensures OldestOf(s, n) <= s
    ensures forall ts | ts in s && ts !in OldestOf(s, n) ::
              |OldestOf(s, n)| >= n && forall older | older in OldestOf(s, n) :: older < ts
  {
    if n > 0 && s != {} {
      var m := Oldest(s);
      OldestOfIs(s - {m}, n - 1);
      assert m !in OldestOf(s - {m}, n - 1);
    }
  }

  lemma {:induction false} HonestRowsExist(book: map<int, Candle>, since: int)
    requires Keyed(book)
    ensures exists rows :: OldestRows(book, since, rows)
  {
    var asked := set ts | ts in book && since <= ts;
    OldestOfIs(asked, 100);
    var found := map ts | ts in OldestOf(asked, 100) :: book[ts];
    var rows := InTsOrder(found);
    ByTsOfInTsOrder(found);
    InTsOrderSorts(found);
    assert ByTs(rows).Keys == OldestOf(asked, 100);
    assert OldestRows(book, since, rows);
  }

  ghost function HonestRowsSince(book: map<int, Candle>, since: int): (rows: seq<Candle>)
    requires Keyed(book)
    ensures OldestRows(book, since, rows)
  {
    HonestRowsExist(book, since);
    var rows :| OldestRows(book, since, rows);
    rows
  }

  /** Some feed is honest about any given candles, and always answers. */
  lemma {:induction false} HonestFeedExists(book: map<int, Candle>)
    requires Keyed(book)
    ensures exists x: Feed :: HonestFeed(x, book) && forall n: nat, since :: AskFeed(x, n, since).Rows?
  {
    var x: Feed := (n: nat, since: int) => Rows(HonestRowsSince(book, since));
    assert HonestFeed(x, book);
  }

  lemma {:induction false} KeepMembers(m: map<int, Candle>, rows: seq<Candle>, start: int, end: int, ts: int)
    ensures ts in Keep(m, rows, start, end) <==> ts in m || (start <= ts < end && ts in ByTs(rows))
    ensures ts in m ==> Keep(m, rows, start, end)[ts] == m[ts]
    ensures ts in Keep(m, rows, start, end) && ts !in m ==>
              exists i :: 0 <= i < |rows| && rows[i].ts == ts && Keep(m, rows, start, end)[ts] == Bare(rows[i])
  {
    if rows != [] {
      var front, n := rows[..|rows| - 1], |rows| - 1;
      KeepMembers(m, front, start, end, ts);
      var kept := Keep(m, front, start, end);
      if ts in kept && ts !in m {
        var i :| 0 <= i < |front| && front[i].ts == ts && kept[ts] == Bare(front[i]);
        assert rows[i].ts == ts && Keep(m, rows, start, end)[ts] == Bare(rows[i]);
      } else if ts in Keep(m, rows, start, end) && ts !in m {
        assert rows[n].ts == ts && Keep(m, rows, start, end)[ts] == Bare(rows[n]);
      }
    }
  }

  lemma {:induction false} NewestIsRow(since: int, rows: seq<Candle>, book: map<int, Candle>)
    requires rows != [] && OldestRows(book, since, rows)
    ensures NewestSeen(since, rows) in ByTs(rows) && NewestSeen(since, rows) in book
  {
    NewestSeenBounds(since, rows);
    var newest := NewestSeen(since, rows);
    var i :| 0 <= i < |rows| && rows[i].ts == newest;
    ByTsKeepsLast(rows, newest);
  }

  /** No stored candle of the range hides between the newest row and the next `since`. */
  lemma {:induction false} HonestReach(book: map<int, Candle>, rows: seq<Candle>, since: int, tf: int, start: int,
                                       end: int, ts: int)
    requires tf > 0 && start <= since && rows != [] && OldestRows(book, since, rows)
    requires Spaced(InRange(book, start, end), tf)
    ensures ts in book && since <= ts < Min(end, NewestSeen(since, rows) + tf) ==> ts in ByTs(rows)
  {
    NewestSeenBounds(since, rows);
    NewestIsRow(since, rows, book);
    var newest := NewestSeen(since, rows);
    if ts in book && since <= ts < end && ts !in ByTs(rows) {
      assert newest < ts;
      assert newest in InRange(book, start, end) && ts in InRange(book, start, end);
    }
  }

  lemma {:induction false} HonestHopAt(book: map<int, Candle>, m: map<int, Candle>, rows: seq<Candle>, since: int,
                                       tf: int, start: int, end: int, ts: int)
    requires tf > 0 && start <= since < end && OldestRows(book, since, rows) && Spaced(InRange(book, start, end), tf)
    requires m == BareMap(Within(book, start, since))
    ensures ts in Keep(m, rows, start, end) <==>
            ts in book && start <= ts < if rows == [] then end else Min(end, NewestSeen(since, rows) + tf)
    ensures ts in Keep(m, rows, start, end) ==> Keep(m, rows, start, end)[ts] == Bare(book[ts])
  {
    NewestSeenBounds(since, rows);
    KeepMembers(m, rows, start, end, ts);
    ByTsKeepsLast(rows, ts);
    if rows != [] {
      NewestIsRow(since, rows, book);
      HonestReach(book, rows, since, tf, start, end, ts);
    }
  }

  /** One honest answer extends what is known below `since` to everything below the next `since`. */
  lemma {:induction false} HonestHop(book: map<int, Candle>, m: map<int, Candle>, rows: seq<Candle>, since: int,
                                     tf: int, start: int, end: int)
    requires tf > 0 && start <= since < end && OldestRows(book, since, rows) && Spaced(InRange(book, start, end), tf)
    requires m == BareMap(Within(book, start, since))
    ensures rows == [] ==> m == BareMap(Within(book, start, end))
    ensures Keep(m, rows, start, end) ==
            BareMap(Within(book, start, if rows == [] then end else Min(end, NewestSeen(since, rows) + tf)))
  {
    var upto := if rows == [] then end else Min(end, NewestSeen(since, rows) + tf);
    forall ts
      ensures ts in Keep(m, rows, start, end) <==> ts in book && start <= ts < upto
      ensures ts in Keep(m, rows, start, end) ==> Keep(m, rows, start, end)[ts] == Bare(book[ts])
    {
      HonestHopAt(book, m, rows, since, tf, start, end, ts);
    }
  }

  lemma {:induction false} HonestGathered(x: Feed, book: map<int, Candle>, start: int, end: int, tf: int,
                                          hops: seq<Hop>, from: nat, to: nat)
    requires tf > 0 && start < end && HonestFeed(x, book) && Spaced(InRange(book, start, end), tf)
    requires Hops(x, start, end, tf, hops, from, to)
    ensures Gathered(hops, start, end) ==
            BareMap(Within(book, start, if hops != [] && hops[|hops| - 1].rows == [] then end
                                        else Min(end, NextSince(start, tf, hops))))
    ensures start <= NextSince(start, tf, hops)
    decreases |hops|
  {
    if hops != [] {
      var front, h := hops[..|hops| - 1], hops[|hops| - 1];
      HonestGathered(x, book, start, end, tf, front, from, h.request);
      SinceRises(start, tf, hops);
      assert Gathered(front, start, end) == BareMap(Within(book, start, h.since));
      HonestHop(book, Gathered(front, start, end), h.rows, h.since, tf, start, end);
    }
  }

  lemma {:induction false} BareInOrder(m: map<int, Candle>)
    ensures |InTsOrder(BareMap(m))| == |InTsOrder(m)|
    ensures forall i | 0 <= i < |InTsOrder(m)| :: InTsOrder(BareMap(m))[i] == Bare(InTsOrder(m)[i])
  {
    assert BareMap(m).Keys == m.Keys;
    InTsOrderSorts(m);
    InTsOrderSorts(BareMap(m));
  }

  /**
    Against an honest feed the forward pager returns every stored candle of the range, gaps or not: the same
    open times, prices and volumes in the same order, and nothing in the two extra columns.
   */
  lemma {:induction false} ForwardExact(x: Feed, book: map<int, Candle>, start: int, end: int, tf: int,
                                        from: nat, to: nat, hops: seq<Hop>, candles: seq<Candle>)
    requires tf > 0 && start < end && HonestFeed(x, book) && Spaced(InRange(book, start, end), tf)
    requires Forwarded(x, start, end, tf, from, to, hops, Ok(candles))
    ensures SameBars(candles, InTsOrder(Within(book, start, end)))
    ensures forall i | 0 <= i < |candles| :: candles[i].volCcy == None && candles[i].volUsd == None
  {
    HonestGathered(x, book, start, end, tf, hops, from, to);
    BareInOrder(Within(book, start, end));
  }
}
