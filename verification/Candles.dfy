/** Candle rows, timeframes and dictionaries of candles keyed by open time. */
module Candles {
  import opened Timestamps
  import opened Wrappers

  /** Open time in milliseconds and the row's columns; the last two are absent from short rows. */
  datatype Candle = Candle(ts: int, open: real, high: real, low: real, close: real, volume: real,
                           volCcy: Option<real>, volUsd: Option<real>)

  const TF_TO_MS: map<string, int> := map[
    "1m" := 60_000, "5m" := 300_000, "15m" := 900_000, "30m" := 1_800_000,
    "1H" := 3_600_000, "4H" := 14_400_000, "12H" := 43_200_000,
    "1D" := 86_400_000, "1W" := 604_800_000, "1M" := 2_592_000_000]

  ghost predicate Keyed(m: map<int, Candle>) {
    forall ts | ts in m :: m[ts].ts == ts
  }

  /** The values of a dictionary in ascending order of key. */
  function InTsOrder(m: map<int, Candle>): seq<Candle> {
    if m == map[] then []
    else
      var ts := Oldest(m.Keys);
      [m[ts]] + InTsOrder(m - {ts})
  }

  /** It is what sorting the keys and looking each one up gives. */
  lemma {:induction false} InTsOrderSorts(m: map<int, Candle>)
    ensures |InTsOrder(m)| == |Ascending(m.Keys)|
    ensures forall i | 0 <= i < |InTsOrder(m)| ::
              Ascending(m.Keys)[i] in m && InTsOrder(m)[i] == m[Ascending(m.Keys)[i]]
    ensures Keyed(m) ==> forall i | 0 <= i < |InTsOrder(m)| :: InTsOrder(m)[i].ts == Ascending(m.Keys)[i]
  {
    if m != map[] {
      var ts := Oldest(m.Keys);
      assert (m - {ts}).Keys == m.Keys - {ts};
      InTsOrderSorts(m - {ts});
    }
  }

  /** The dictionary left by storing each row under its open time, in order. */
  function ByTs(rows: seq<Candle>): (m: map<int, Candle>)
    ensures Keyed(m)
  {
    if rows == [] then map[]
    else ByTs(rows[..|rows| - 1])[rows[|rows| - 1].ts := rows[|rows| - 1]]
  }

  ghost function Within(m: map<int, Candle>, lo: int, hi: int): map<int, Candle> {
    map ts | ts in m && lo <= ts < hi :: m[ts]
  }

  /** `k` is the last position in `rows` with open time `ts`. */
  ghost predicate LastAt(rows: seq<Candle>, ts: int, k: int) {
    0 <= k < |rows| && rows[k].ts == ts && forall j | k < j < |rows| :: rows[j].ts != ts
  }

  /** The dictionary holds, per open time, exactly the last row that carries it. */
  lemma {:induction false} ByTsKeepsLast(rows: seq<Candle>, ts: int)
    ensures ts in ByTs(rows) <==> exists k :: 0 <= k < |rows| && rows[k].ts == ts
    ensures ts in ByTs(rows) ==> exists k :: LastAt(rows, ts, k) && ByTs(rows)[ts] == rows[k]
  {
    if rows != [] {
      var n := |rows| - 1;
      var front := rows[..n];
      ByTsKeepsLast(front, ts);
      if rows[n].ts == ts {
        assert LastAt(rows, ts, n);
      } else if ts in ByTs(front) {
        var k :| LastAt(front, ts, k) && ByTs(front)[ts] == front[k];
        assert LastAt(rows, ts, k) && ByTs(rows)[ts] == rows[k];
      } else {
        forall k | 0 <= k < |rows| ensures rows[k].ts != ts {
          if k < n { assert front[k].ts != ts; }
        }
      }
    }
  }

  /** Listing a dictionary in time order and storing it again gives it back. */
  lemma {:induction false} ByTsOfInTsOrder(m: map<int, Candle>)
    requires Keyed(m)
    ensures ByTs(InTsOrder(m)) == m
  {
    var keys := Ascending(m.Keys);
    var rows := InTsOrder(m);
    AscendingMembers(m.Keys);
    AscendingIncreases(m.Keys);
    InTsOrderSorts(m);
    forall ts ensures ts in ByTs(rows) <==> ts in m
              ensures ts in m ==> ByTs(rows)[ts] == m[ts] {
      ByTsKeepsLast(rows, ts);
      if ts in m {
        assert ts in keys;
        var i :| 0 <= i < |keys| && keys[i] == ts;
        assert rows[i].ts == ts;
      }
    }
  }
}
