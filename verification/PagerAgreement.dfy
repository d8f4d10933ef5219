/** The backward and the forward pager on the same stored candles. */
module PagerAgreement {
  import opened Timestamps
  import opened Candles
  import opened Wrappers
  import opened HistoryClient
  import opened HistoryWalk
  import opened ForwardPager

  /** Listings of two parts of one book hold the same bars only for equal parts. */
  lemma {:induction false} SameBarsSameParts(book: map<int, Candle>, m: map<int, Candle>, n: map<int, Candle>)
    requires Keyed(book)
    requires forall ts | ts in m :: ts in book && m[ts] == book[ts]
    requires forall ts | ts in n :: ts in book && n[ts] == book[ts]
    requires SameBars(InTsOrder(m), InTsOrder(n))
    ensures m == n
  {
    InTsOrderSorts(m);
    InTsOrderSorts(n);
    var a, b := Ascending(m.Keys), Ascending(n.Keys);
    forall i | 0 <= i < |a| ensures a[i] == b[i] {
      assert SameBar(InTsOrder(m)[i], InTsOrder(n)[i]);
    }
    assert a == b;
    AscendingMembers(m.Keys);
    AscendingMembers(n.Keys);
    assert m.Keys == n.Keys;
  }

  lemma {:induction false} SameBarsThrough(a: seq<Candle>, b: seq<Candle>, c: seq<Candle>)
    requires SameBars(b, c)
    ensures SameBars(a, b) <==> SameBars(a, c)
  {
    forall i | 0 <= i < |a| && |a| == |b| ensures SameBar(a[i], b[i]) <==> SameBar(a[i], c[i]) {
      assert SameBar(b[i], c[i]);
    }
  }

  /**
    On one book, an error-free backward fetch and an error-free forward fetch of the same range return
    the same open times, prices and volumes, exactly when the range is fetchable backward.
   */
  lemma {:induction false} PagersAgree(c: Config, x: Exchange, y: Feed, book: map<int, Candle>, instId: string,
                                       okxBar: string, tf: int, start: int, end: int,
                                       from: nat, to: nat, pages: seq<Page>, refused: Page, backward: seq<Candle>,
                                       from': nat, to': nat, hops: seq<Hop>, forward: seq<Candle>)
    requires tf > 0 && start < end && Keyed(book) && Spaced(InRange(book, start, end), tf)
    requires Honest(x, book, instId, okxBar) && HonestFeed(y, book)
    requires Fetched(c, x, instId, okxBar, tf, start, end, from, to, pages, refused, Ok(backward))
    requires Forwarded(y, start, end, tf, from', to', hops, Ok(forward))
    ensures SameBars(backward, forward) <==> Fetchable(book, c.pageLimit, tf, start, end)
  {
    var all := Within(book, start, end);
    ForwardExact(y, book, start, end, tf, from', to', hops, forward);
    FetchExact(c, x, book, instId, okxBar, tf, start, end, from, to, pages, refused, backward);
    FetchIsUpperPart(c, x, book, instId, okxBar, tf, start, end, from, to, pages, refused, backward);
    SameBarsThrough(backward, forward, InTsOrder(all));
    if SameBars(backward, InTsOrder(all)) {
      var lo :| start <= lo <= end && backward == InTsOrder(PositiveWithin(book, lo, end));
      SameBarsSameParts(book, PositiveWithin(book, lo, end), all);
    }
  }
}
