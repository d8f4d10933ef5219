/**
  The backward walk over pages. First against an exchange that may answer anything: it always moves
  down and ends. Then against an honest one: exactly when it returns every stored candle of the range.
 */
module HistoryWalk {
  import opened Timestamps
  import opened Candles
  import opened Wrappers
  import opened HistoryClient

  // ----- Any exchange -----

  /** Everything collected lies at or above the last page's window, and above its oldest candle. */
  lemma {:induction false} CollectedAbove(start: int, end: int, span: int, tf: int, pages: seq<Page>)
    requires tf > 0 && span >= 0 && start < end
    requires Walk(start, end, span, tf, pages)
    ensures forall ts | ts in Collected(pages) :: start <= ts < end
    ensures pages != [] ==>
              var p := pages[|pages| - 1];
              && start + tf <= p.hi <= end
              && (forall ts | ts in Collected(pages) :: p.lo <= ts)
              && (p.candles != map[] ==> forall ts | ts in Collected(pages) :: Oldest(p.candles.Keys) <= ts)
              && p.candles.Keys <= Collected(pages).Keys
    decreases |pages|
  {
    if pages != [] {
      CollectedAbove(start, end, span, tf, pages[..|pages| - 1]);
    }
  }

  /** The next page shares no timestamp with those before, so `setdefault` never finds its key taken. */
  lemma {:induction false} SetDefaultNeverCollides(start: int, end: int, span: int, tf: int, pages: seq<Page>, p: Page)
    requires tf > 0 && span >= 0 && start < end
    requires Walk(start, end, span, tf, pages) && Follows(start, end, span, tf, pages, p) && InWindow(p)
    ensures p.candles.Keys !! Collected(pages).Keys
    ensures forall ts | ts in Collected(pages) :: p.hi <= ts
  {
    CollectedAbove(start, end, span, tf, pages);
  }

  /** The next cursor is strictly below the current one: the stall guard never stops a walk. */
  lemma {:induction false} CursorFalls(start: int, end: int, span: int, tf: int, pages: seq<Page>, p: Page)
    requires Follows(start, end, span, tf, pages, p) && InWindow(p) && p.candles != map[]
    ensures NextHi(end, pages + [p]) - tf < NextHi(end, pages) - tf
  {
    assert Oldest(p.candles.Keys) in p.candles;
  }

  /** Whatever the answers, a walk has no more pages than the range has milliseconds above its first bar. */
  lemma {:induction false} WalkLength(start: int, end: int, span: int, tf: int, pages: seq<Page>)
    requires tf > 0 && span >= 0 && start < end
    requires Walk(start, end, span, tf, pages) && pages != []
    ensures pages[|pages| - 1].hi + |pages| - 1 <= end
    ensures |pages| <= end - start - tf + 1
    decreases |pages|
  {
    var front, p := pages[..|pages| - 1], pages[|pages| - 1];
    CollectedAbove(start, end, span, tf, pages);
    if front != [] {
      WalkLength(start, end, span, tf, front);
      var f := front[|front| - 1];
      assert Oldest(f.candles.Keys) in f.candles;
    }
  }

  lemma {:induction false} OldestKeepsDistance(start: int, end: int, span: int, tf: int, pages: seq<Page>)
    requires tf > 0 && span >= 0 && start < end
    requires Walk(start, end, span, tf, pages) && pages != [] && pages[|pages| - 1].candles != map[]
    requires Spaced(Collected(pages).Keys + {end}, tf)
    ensures Oldest(pages[|pages| - 1].candles.Keys) <= pages[|pages| - 1].hi - tf
  {
    var front, p := pages[..|pages| - 1], pages[|pages| - 1];
    var oldest := Oldest(p.candles.Keys);
    assert oldest in Collected(pages);
    if front != [] {
      CollectedAbove(start, end, span, tf, front);
      assert p.hi in Collected(front) && p.hi in Collected(pages);
    }
  }

  /** When answers and range end keep bar distance, there are at most `(end - start) / tf` pages. */
  lemma {:induction false} WalkLengthOnGrid(start: int, end: int, span: int, tf: int, pages: seq<Page>)
    requires tf > 0 && span >= 0 && start < end
    requires Walk(start, end, span, tf, pages)
    requires Spaced(Collected(pages).Keys + {end}, tf)
    ensures pages != [] ==> pages[|pages| - 1].hi + Span(|pages| - 1, tf) <= end
    ensures Span(|pages|, tf) <= end - start
    decreases |pages|
  {
    if pages != [] {
      var front, p := pages[..|pages| - 1], pages[|pages| - 1];
      CollectedAbove(start, end, span, tf, pages);
      assert Collected(front).Keys <= Collected(pages).Keys;
      WalkLengthOnGrid(start, end, span, tf, front);
      if front != [] {
        var f := front[|front| - 1];
        CollectedAbove(start, end, span, tf, front);
        OldestKeepsDistance(start, end, span, tf, front);
        assert p.hi <= f.hi - tf;
      }
    }
  }

  // ----- An honest exchange -----

  /** The newest `limit` stored rows strictly between `before` and `after`, in any order, repeated at will. */
  ghost predicate NewestRows(book: map<int, Candle>, q: Query, rows: seq<Candle>) {
    var found := ByTs(rows).Keys;
    && (forall i | 0 <= i < |rows| :: rows[i].ts in book && rows[i] == book[rows[i].ts])
    && (forall ts | ts in found :: q.before < ts < q.after)
    && (forall ts | ts in book && q.before < ts < q.after && ts !in found ::
          |found| >= q.limit && forall newer | newer in found :: ts < newer)
  }

  /** It may fail, but whenever it answers about this instrument and bar, it answers from `book`. */
  ghost predicate Honest(x: Exchange, book: map<int, Candle>, instId: string, bar: string) {
    forall n: nat, q: Query | q.instId == instId && q.bar == bar ::
      Ask(x, n, q).Rows? ==> NewestRows(book, q, Ask(x, n, q).rows)
  }

  ghost function InRange(book: map<int, Candle>, start: int, end: int): set<int> {
    set ts | ts in book && start <= ts < end
  }

  /** The stored candles of a window with a positive timestamp: `before` is never below zero. */
  ghost function PositiveWithin(book: map<int, Candle>, lo: int, hi: int): map<int, Candle> {
    map ts | ts in book && lo <= ts < hi && ts > 0 :: book[ts]
  }

  /** The `n` newest members. */
  ghost function NewestOf(s: set<int>, n: nat): set<int> {
    if n == 0 || s == {} then {} else {Newest(s)} + NewestOf(s - {Newest(s)}, n - 1)
  }

  lemma {:induction false} NewestOfIs(s: set<int>, n: nat)
    ensures NewestOf(s, n) <= s
    ensures forall ts | ts in s && ts !in NewestOf(s, n) ::
              |NewestOf(s, n)| >= n && forall newer | newer in NewestOf(s, n) :: ts < newer
  {
    if n > 0 && s != {} {
      var m := Newest(s);
      NewestOfIs(s - {m}, n - 1);
      assert m !in NewestOf(s - {m}, n - 1);
    }
  }

  /** Every query has an honest answer. */
  lemma {:induction false} HonestAnswerExists(book: map<int, Candle>, q: Query)
    requires Keyed(book)
    ensures exists rows :: NewestRows(book, q, rows)
  {
    var asked := set ts | ts in book && q.before < ts < q.after;
    NewestOfIs(asked, q.limit);
    var found := map ts | ts in NewestOf(asked, q.limit) :: book[ts];
    var rows := InTsOrder(found);
    ByTsOfInTsOrder(found);
    InTsOrderSorts(found);
    assert ByTs(rows).Keys == NewestOf(asked, q.limit);
    assert NewestRows(book, q, rows);
  }

  ghost function HonestAnswerTo(book: map<int, Candle>, q: Query): (rows: seq<Candle>)
    requires Keyed(book)
    ensures NewestRows(book, q, rows)
  {
    HonestAnswerExists(book, q);
    var rows :| NewestRows(book, q, rows);
    rows
  }

  /** So some exchange is honest about any given candles, and always answers. */
  lemma {:induction false} HonestExchangeExists(book: map<int, Candle>, instId: string, bar: string)
    requires Keyed(book)
    ensures exists x: Exchange :: Honest(x, book, instId, bar) && forall n: nat, q :: Ask(x, n, q).Rows?
  {
    var x: Exchange := (n: nat, q: Query) => Rows(HonestAnswerTo(book, q));
    assert Honest(x, book, instId, bar);
  }

  lemma {:induction false} HonestRows(book: map<int, Candle>, q: Query, rows: seq<Candle>)
    requires NewestRows(book, q, rows)
    ensures forall ts | ts in ByTs(rows) :: ts in book && ByTs(rows)[ts] == book[ts]
  {
    forall ts | ts in ByTs(rows) ensures ts in book && ByTs(rows)[ts] == book[ts] {
      ByTsKeepsLast(rows, ts);
      var k :| LastAt(rows, ts, k) && ByTs(rows)[ts] == rows[k];
    }
  }

  /** A row of the window cannot be crowded out: more than `limit` rows do not fit between it and `hi`. */
  lemma {:induction false} NotCrowdedOut(book: map<int, Candle>, q: Query, rows: seq<Candle>, tf: int, lo: int, ts: int)
    requires tf > 0 && NewestRows(book, q, rows) && Spaced(InRange(book, lo, q.after), tf)
    requires ts in book && lo <= ts && q.before < ts < q.after && q.after - lo <= Span(q.limit, tf)
    ensures ts in ByTs(rows)
  {
    HonestRows(book, q, rows);
    var found := ByTs(rows).Keys;
    var crowd := found + {ts};
    if forall newer | newer in found :: ts < newer {
      assert crowd <= InRange(book, lo, q.after);
      SpacedCount(crowd, tf, lo, q.after, q.limit);
    }
  }

  /** Every answer holds the page's whole window. */
  lemma {:induction false} HonestAnswer(book: map<int, Candle>, q: Query, rows: seq<Candle>, tf: int, lo: int, hi: int)
    requires tf > 0 && NewestRows(book, q, rows)
    requires q.before == Max(0, lo - tf) && q.after == hi
    requires hi - lo <= Span(q.limit, tf) && Spaced(InRange(book, lo, hi), tf)
    ensures Within(ByTs(rows), lo, hi) == PositiveWithin(book, lo, hi)
  {
    HonestRows(book, q, rows);
    forall ts | ts in PositiveWithin(book, lo, hi) ensures ts in ByTs(rows) {
      NotCrowdedOut(book, q, rows, tf, lo, ts);
    }
  }

  lemma {:induction false} HonestMerged(x: Exchange, book: map<int, Candle>, t: Task, tf: int, from: nat, to: nat)
    requires from <= to && tf > 0 && Honest(x, book, t.query.instId, t.query.bar)
    requires t.query.before == Max(0, t.lo - tf) && t.query.after == t.hi
    requires t.hi - t.lo <= Span(t.query.limit, tf) && Spaced(InRange(book, t.lo, t.hi), tf)
    ensures Merged(x, t, from, to) ==
            if Answers(x, t.query, from, to) == 0 then map[] else PositiveWithin(book, t.lo, t.hi)
  {
    if from < to {
      HonestMerged(x, book, t, tf, from, to - 1);
      var reply := Ask(x, to - 1, t.query);
      if reply.Rows? {
        HonestAnswer(book, t.query, reply.rows, tf, t.lo, t.hi);
      }
    }
  }

  /** Every page found exactly the reachable candles of its window. */
  ghost predicate HonestPages(book: map<int, Candle>, pages: seq<Page>)
    decreases |pages|
  {
    pages == [] ||
    var p := pages[|pages| - 1];
    HonestPages(book, pages[..|pages| - 1]) && p.candles == PositiveWithin(book, p.lo, p.hi)
  }

  lemma {:induction false} ServedHonestly(x: Exchange, book: map<int, Candle>, t: Task, tf: int, first: nat, last: nat)
    requires tf > 0 && Honest(x, book, t.query.instId, t.query.bar) && Spaced(InRange(book, t.lo, t.hi), tf)
    requires t.query.before == Max(0, t.lo - tf) && t.query.after == t.hi && t.hi - t.lo <= Span(t.query.limit, tf)
    requires first <= last && Ask(x, last, t.query).Rows?
    ensures Merged(x, t, first, last + 1) == PositiveWithin(book, t.lo, t.hi)
  {
    HonestMerged(x, book, t, tf, first, last + 1);
    assert Answers(x, t.query, first, last + 1) == Answers(x, t.query, first, last) + 1;
  }

  lemma {:induction false} PageHonest(c: Config, x: Exchange, book: map<int, Candle>, instId: string, okxBar: string,
                                      tf: int, start: int, end: int, p: Page)
    requires tf > 0 && Honest(x, book, instId, okxBar) && Spaced(InRange(book, start, end), tf)
    requires start <= p.lo && p.hi <= end && p.hi - p.lo <= Span(c.pageLimit, tf)
    requires Served(c, x, instId, okxBar, tf, p)
    ensures p.candles == PositiveWithin(book, p.lo, p.hi)
  {
    assert InRange(book, p.lo, p.hi) <= InRange(book, start, end);
    ServedHonestly(x, book, TaskFor(c.pageLimit, instId, okxBar, tf, p.lo, p.hi), tf, p.first, p.last);
  }

  lemma {:induction false} FetchedHonestly(c: Config, x: Exchange, book: map<int, Candle>, instId: string,
                                           okxBar: string, tf: int, start: int, end: int, pages: seq<Page>,
                                           from: nat, to: nat)
    requires tf > 0 && start < end && Honest(x, book, instId, okxBar) && Spaced(InRange(book, start, end), tf)
    requires Walk(start, end, Span(c.pageLimit, tf), tf, pages)
    requires AllServed(c, x, instId, okxBar, tf, pages, from, to)
    ensures HonestPages(book, pages)
    decreases |pages|
  {
    if pages != [] {
      var front, p := pages[..|pages| - 1], pages[|pages| - 1];
      FetchedHonestly(c, x, book, instId, okxBar, tf, start, end, front, from, p.first);
      assert start <= p.lo && p.hi <= end && p.hi - p.lo <= Span(c.pageLimit, tf) by {
        SpanSign(c.pageLimit, tf);
        CollectedAbove(start, end, Span(c.pageLimit, tf), tf, pages);
      }
      PageHonest(c, x, book, instId, okxBar, tf, start, end, p);
    }
  }

  lemma {:induction false} Joined(book: map<int, Candle>, lo: int, mid: int, hi: int)
    requires lo <= mid <= hi
    ensures PositiveWithin(book, lo, mid) + PositiveWithin(book, mid, hi) == PositiveWithin(book, lo, hi)
  {
  }

  lemma {:induction false} NothingBelowOldest(book: map<int, Candle>, lo: int, hi: int, end: int)
    requires hi <= end && PositiveWithin(book, lo, hi) != map[]
    ensures PositiveWithin(book, Oldest(PositiveWithin(book, lo, hi).Keys), end) == PositiveWithin(book, lo, end)
  {
    var oldest := Oldest(PositiveWithin(book, lo, hi).Keys);
    forall ts | ts in PositiveWithin(book, lo, end) ensures oldest <= ts {
      if ts < hi {
        assert ts in PositiveWithin(book, lo, hi).Keys;
      }
    }
  }

  /** Against an honest exchange the pages hold every reachable candle down to the last window. */
  lemma {:induction false} CollectedDownTo(book: map<int, Candle>, start: int, end: int, span: int, tf: int,
                                           pages: seq<Page>)
    requires tf > 0 && span >= 0 && start < end
    requires Walk(start, end, span, tf, pages) && HonestPages(book, pages) && pages != []
    ensures Collected(pages) == PositiveWithin(book, pages[|pages| - 1].lo, end)
    decreases |pages|
  {
    var front, p := pages[..|pages| - 1], pages[|pages| - 1];
    CollectedAbove(start, end, span, tf, pages);
    if front != [] {
      CollectedDownTo(book, start, end, span, tf, front);
      var f := front[|front| - 1];
      CollectedAbove(start, end, span, tf, front);
      NothingBelowOldest(book, f.lo, f.hi, end);
    }
    Joined(book, p.lo, p.hi, end);
  }

  /** Something is stored below `p`, but nothing less than `span` below it. */
  ghost predicate GapBelow(s: set<int>, p: int, span: int) {
    (exists a :: a in s && a < p) && forall a | a in s :: !(p - span <= a < p)
  }

  /** No run of missing slots as long as a page has an older candle of the range below it. */
  ghost predicate NoGap(s: set<int>, end: int, span: int) {
    !GapBelow(s, end, span) && forall p | p in s :: !GapBelow(s, p, span)
  }

  /** A walk never gets below a gap. */
  lemma {:induction false} GapStopsWalk(book: map<int, Candle>, start: int, end: int, span: int, tf: int,
                                        pages: seq<Page>, p: int)
    requires tf > 0 && span >= 0 && start < end
    requires Walk(start, end, span, tf, pages) && HonestPages(book, pages)
    requires p == end || p in PositiveWithin(book, start, end)
    requires GapBelow(PositiveWithin(book, start, end).Keys, p, span)
    ensures forall ts | ts in Collected(pages) :: p <= ts
    decreases |pages|
  {
    if pages != [] {
      var front, q := pages[..|pages| - 1], pages[|pages| - 1];
      GapStopsWalk(book, start, end, span, tf, front, p);
      CollectedAbove(start, end, span, tf, pages);
      if front != [] {
        CollectedAbove(start, end, span, tf, front);
        assert q.hi in Collected(front);
      }
      assert p <= q.hi;
      forall ts | ts in q.candles ensures p <= ts {
        assert ts in PositiveWithin(book, start, end);
      }
    }
  }

  /** So the candles below a gap are missed. */
  lemma {:induction false} GapLosesCandle(book: map<int, Candle>, start: int, end: int, span: int, tf: int,
                                          pages: seq<Page>, p: int)
    requires tf > 0 && span >= 0 && start < end
    requires Walk(start, end, span, tf, pages) && HonestPages(book, pages)
    requires p == end || p in PositiveWithin(book, start, end)
    requires GapBelow(PositiveWithin(book, start, end).Keys, p, span)
    ensures exists a :: a in PositiveWithin(book, start, end) && a !in Collected(pages)
  {
    GapStopsWalk(book, start, end, span, tf, pages, p);
    var a :| a in PositiveWithin(book, start, end).Keys && a < p;
    assert a !in Collected(pages);
  }

  /** A walk that ends on a page with candles has reached the bottom of the range. */
  lemma {:induction false} EndsAtBottom(book: map<int, Candle>, start: int, end: int, tf: int, pages: seq<Page>)
    requires pages != [] && Ended(start, end, tf, pages) && Spaced(InRange(book, start, end), tf)
    requires pages[|pages| - 1].candles != map[]
    requires pages[|pages| - 1].candles.Keys <= PositiveWithin(book, start, end).Keys
    ensures forall a | a in PositiveWithin(book, start, end) :: Oldest(pages[|pages| - 1].candles.Keys) <= a
  {
    var oldest := Oldest(pages[|pages| - 1].candles.Keys);
    assert oldest in InRange(book, start, end);
    assert forall a | a in PositiveWithin(book, start, end) :: a in InRange(book, start, end);
  }

  /** Without a gap, a walk that has ended holds every reachable candle of the range. */
  lemma {:induction false} NoGapCompletes(book: map<int, Candle>, start: int, end: int, span: int, tf: int,
                                          pages: seq<Page>)
    requires tf > 0 && span >= 0 && start < end
    requires Walk(start, end, span, tf, pages) && HonestPages(book, pages) && pages != []
    requires Ended(start, end, tf, pages) && Spaced(InRange(book, start, end), tf)
    requires NoGap(PositiveWithin(book, start, end).Keys, end, span)
    ensures Collected(pages) == PositiveWithin(book, start, end)
  {
    var front, p := pages[..|pages| - 1], pages[|pages| - 1];
    var reach := PositiveWithin(book, start, end).Keys;
    CollectedDownTo(book, start, end, span, tf, pages);
    CollectedAbove(start, end, span, tf, pages);
    if p.candles != map[] {
      EndsAtBottom(book, start, end, tf, pages);
    } else {
      if front != [] {
        CollectedAbove(start, end, span, tf, front);
        assert p.hi in Collected(front) && p.hi in Collected(pages);
      }
      assert !GapBelow(reach, p.hi, span);
      assert forall a | a in reach :: a in PositiveWithin(book, p.lo, p.hi) <==> p.lo <= a < p.hi;
    }
    assert forall a | a in reach :: p.lo <= a;
  }

  /** When a range is fetched completely, as the caller can tell from what is stored. */
  ghost predicate Fetchable(book: map<int, Candle>, limit: nat, tf: int, start: int, end: int) {
    var stored := InRange(book, start, end);
    && NoGap(stored, end, Span(limit, tf))
    && (forall ts | ts in stored :: ts > 0)
    && (stored == {} || start + tf <= end)
  }

  lemma {:induction false} FetchableCollected(book: map<int, Candle>, limit: nat, tf: int, start: int, end: int,
                                              pages: seq<Page>)
    requires tf > 0 && start < end && Spaced(InRange(book, start, end), tf)
    requires Walk(start, end, Span(limit, tf), tf, pages) && Ended(start, end, tf, pages) && HonestPages(book, pages)
    requires Fetchable(book, limit, tf, start, end)
    ensures Collected(pages) == Within(book, start, end)
  {
    var stored := InRange(book, start, end);
    var reach := PositiveWithin(book, start, end);
    assert reach.Keys == stored && reach == Within(book, start, end);
    if pages != [] {
      SpanSign(limit, tf);
      NoGapCompletes(book, start, end, Span(limit, tf), tf, pages);
    }
  }

  lemma {:induction false} CollectedFetchable(book: map<int, Candle>, limit: nat, tf: int, start: int, end: int,
                                              pages: seq<Page>)
    requires tf > 0 && start < end
    requires Walk(start, end, Span(limit, tf), tf, pages) && Ended(start, end, tf, pages) && HonestPages(book, pages)
    requires Collected(pages) == Within(book, start, end)
    ensures Fetchable(book, limit, tf, start, end)
  {
    var stored, span := InRange(book, start, end), Span(limit, tf);
    var reach := PositiveWithin(book, start, end);
    assert Within(book, start, end).Keys == stored;
    SpanSign(limit, tf);
    if pages != [] {
      CollectedAbove(start, end, span, tf, pages);
      CollectedDownTo(book, start, end, span, tf, pages);
      forall ts | ts in stored ensures ts in reach && ts > 0 {
        assert ts in Collected(pages);
      }
      assert reach.Keys == stored;
      forall p | p == end || p in stored ensures !GapBelow(stored, p, span) {
        if GapBelow(stored, p, span) {
          GapLosesCandle(book, start, end, span, tf, pages, p);
        }
      }
    }
  }

  lemma {:induction false} CollectedKeyed(start: int, end: int, span: int, tf: int, pages: seq<Page>)
    requires Walk(start, end, span, tf, pages)
    ensures Keyed(Collected(pages))
    decreases |pages|
  {
    if pages != [] {
      CollectedKeyed(start, end, span, tf, pages[..|pages| - 1]);
    }
  }

  /**
    Against an exchange that is honest about the instrument and bar, a range that comes back without error
    holds every stored candle of `[start, end)`, in order and once, if and only if there is no gap as long as a
    page above stored data, no stored candle at or before time zero, and room for one bar unless nothing is stored.
   */
  lemma {:induction false} FetchExact(c: Config, x: Exchange, book: map<int, Candle>, instId: string, okxBar: string,
                                      tf: int, start: int, end: int, from: nat, to: nat, pages: seq<Page>,
                                      refused: Page, candles: seq<Candle>)
    requires tf > 0 && start < end
    requires Keyed(book) && Honest(x, book, instId, okxBar) && Spaced(InRange(book, start, end), tf)
    requires Fetched(c, x, instId, okxBar, tf, start, end, from, to, pages, refused, Ok(candles))
    ensures candles == InTsOrder(Within(book, start, end)) <==> Fetchable(book, c.pageLimit, tf, start, end)
  {
    FetchedHonestly(c, x, book, instId, okxBar, tf, start, end, pages, from, to);
    if Fetchable(book, c.pageLimit, tf, start, end) {
      FetchableCollected(book, c.pageLimit, tf, start, end, pages);
    }
    if Collected(pages) == Within(book, start, end) {
      CollectedFetchable(book, c.pageLimit, tf, start, end, pages);
    }
    CollectedKeyed(start, end, Span(c.pageLimit, tf), tf, pages);
    ByTsOfInTsOrder(Collected(pages));
    ByTsOfInTsOrder(Within(book, start, end));
  }

  /** Complete or not, an honest fetch returns the stored candles of some upper part of the range. */
  lemma {:induction false} FetchIsUpperPart(c: Config, x: Exchange, book: map<int, Candle>, instId: string,
                                            okxBar: string, tf: int, start: int, end: int, from: nat, to: nat,
                                            pages: seq<Page>, refused: Page, candles: seq<Candle>)
    requires tf > 0 && start < end
    requires Keyed(book) && Honest(x, book, instId, okxBar) && Spaced(InRange(book, start, end), tf)
    requires Fetched(c, x, instId, okxBar, tf, start, end, from, to, pages, refused, Ok(candles))
    ensures exists lo :: start <= lo <= end && candles == InTsOrder(PositiveWithin(book, lo, end))
  {
    FetchedHonestly(c, x, book, instId, okxBar, tf, start, end, pages, from, to);
    SpanSign(c.pageLimit, tf);
    if pages == [] {
      assert PositiveWithin(book, end, end) == map[];
      assert candles == InTsOrder(PositiveWithin(book, end, end));
    } else {
      CollectedAbove(start, end, Span(c.pageLimit, tf), tf, pages);
      CollectedDownTo(book, start, end, Span(c.pageLimit, tf), tf, pages);
      assert candles == InTsOrder(PositiveWithin(book, pages[|pages| - 1].lo, end));
    }
  }

  /** For a start at or after the first bar and room for one bar, only gaps can lose candles. */
  lemma {:induction false} OnlyGapsLose(book: map<int, Candle>, limit: nat, tf: int, start: int, end: int)
    requires 0 < tf <= start && start + tf <= end
    ensures Fetchable(book, limit, tf, start, end) <==> NoGap(InRange(book, start, end), end, Span(limit, tf))
  {
    assert forall ts | ts in InRange(book, start, end) :: ts > 0;
  }

  function Flat(ts: int): Candle {
    Candle(ts, 1.0, 1.0, 1.0, 1.0, 1.0, None, None)
  }

  /** Three small ranges of minute candles that a fetch cannot complete, one for each condition. */
  lemma {:induction false} UnfetchableRanges()
    ensures !Fetchable(map[60_000 := Flat(60_000), 300_000 := Flat(300_000)], 2, 60_000, 60_000, 360_000)
    ensures !Fetchable(map[0 := Flat(0)], 100, 60_000, 0, 60_000)
    ensures !Fetchable(map[60_000 := Flat(60_000)], 100, 60_000, 59_000, 61_000)
  {
    var gap := InRange(map[60_000 := Flat(60_000), 300_000 := Flat(300_000)], 60_000, 360_000);
    assert 60_000 in gap && 300_000 in gap;
    assert Span(2, 60_000) == Span(1, 60_000) + 60_000 == 120_000;
    assert GapBelow(gap, 300_000, 120_000);
    assert 0 in InRange(map[0 := Flat(0)], 0, 60_000);
    assert 60_000 in InRange(map[60_000 := Flat(60_000)], 59_000, 61_000);
  }
}
