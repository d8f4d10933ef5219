/**
  Dollar bars: rows are gathered until their turnover and their number reach the configured thresholds.
  The single-pass loop is proved to fold the segments of a greedy split of the rows.
 */
module DollarBars {
  import opened Arithmetic
  import opened Wrappers

  datatype VolumeUnit = Contracts | Base | Quote

  datatype Config = Config(dollarValue: real, volumeUnit: VolumeUnit, contractVal: real, minTrades: int)

  datatype Row = Row(ts: int, open: real, high: real, low: real, close: real, volume: real)

  /** A row together with its turnover. */
  datatype Tick = Tick(row: Row, turnover: real)

  datatype Bar = Bar(open: real, high: real, low: real, close: real, volume: real, turnover: real,
                     tsStart: int, tsEnd: int, durationSeconds: int, trades: int)

  /** A table of rows: its columns, and whether it is indexed by time. */
  datatype Frame = Frame(columns: set<string>, timeIndex: bool, rows: seq<Row>)

  datatype BarsError = MissingColumns | NotTimeIndex | NotMonotonic

  const REQUIRED := {"open", "high", "low", "close", "volume"}

  datatype ConfigError = BadDollarValue | BadContractVal | BadMinTrades

  /** A configuration comes into being only with positive values and at least one row for a bar. */
  method MakeConfig(dollarValue: real, volumeUnit: VolumeUnit, contractVal: real, minTrades: int)
    returns (r: Result<Config, ConfigError>)
    ensures r.Ok? <==> dollarValue > 0.0 && contractVal > 0.0 && minTrades >= 1
    ensures r.Ok? ==> r.value == Config(dollarValue, volumeUnit, contractVal, minTrades)
    ensures dollarValue <= 0.0 ==> r == Err(BadDollarValue)
    ensures dollarValue > 0.0 && contractVal <= 0.0 ==> r == Err(BadContractVal)
  {
    if dollarValue <= 0.0 {
      return Err(BadDollarValue);
    }
    if contractVal <= 0.0 {
      return Err(BadContractVal);
    }
    if minTrades < 1 {
      return Err(BadMinTrades);
    }
    r := Ok(Config(dollarValue, volumeUnit, contractVal, minTrades));
  }

  function RowTurnover(r: Row, c: Config): real {
    match c.volumeUnit
    case Contracts => r.volume * c.contractVal * r.close
    case Base => r.volume * r.close
    case Quote => r.volume
  }

  function MaxReal(a: real, b: real): real { if b > a then b else a }

  function MinReal(a: real, b: real): real { if b < a then b else a }

  /** Whole seconds of a duration in milliseconds, truncated toward zero. */
  function WholeSeconds(ms: int): int { if ms >= 0 then ms / 1000 else -((-ms) / 1000) }

  // ----- What a bar says about its rows -----

  function Volume(s: seq<Tick>): real {
    if s == [] then 0.0 else Volume(s[..|s| - 1]) + s[|s| - 1].row.volume
  }

  function Turnover(s: seq<Tick>): real {
    if s == [] then 0.0 else Turnover(s[..|s| - 1]) + s[|s| - 1].turnover
  }

  function High(s: seq<Tick>): real
    requires s != []
  {
    if |s| == 1 then s[0].row.high else MaxReal(High(s[..|s| - 1]), s[|s| - 1].row.high)
  }

  function Low(s: seq<Tick>): real
    requires s != []
  {
    if |s| == 1 then s[0].row.low else MinReal(Low(s[..|s| - 1]), s[|s| - 1].row.low)
  }

  function BarOf(s: seq<Tick>): Bar
    requires s != []
  {
    var first, last := s[0].row, s[|s| - 1].row;
    Bar(first.open, High(s), Low(s), last.close, Volume(s), Turnover(s),
        first.ts, last.ts, WholeSeconds(last.ts - first.ts), |s|)
  }

  // ----- The greedy split -----

  /** Both thresholds are met. */
  predicate Closes(c: Config, s: seq<Tick>) {
    Turnover(s) >= c.dollarValue && |s| >= c.minTrades
  }

  /** No non-empty prefix meets both thresholds. */
  predicate StillOpen(c: Config, s: seq<Tick>)
    decreases |s|
  {
    s == [] || (!Closes(c, s) && StillOpen(c, s[..|s| - 1]))
  }

  /** Length of the shortest closing prefix that is at least `k` long, or of everything. */
  function Cut(c: Config, s: seq<Tick>, k: nat): (n: nat)
    requires 1 <= k <= |s|
    ensures k <= n <= |s|
    decreases |s| - k
  {
    if k == |s| || Closes(c, s[..k]) then k else Cut(c, s, k + 1)
  }

  function Segments(c: Config, s: seq<Tick>): (segs: seq<seq<Tick>>)
    ensures forall i | 0 <= i < |segs| :: segs[i] != []
    decreases |s|
  {
    if s == [] then []
    else
      var n := Cut(c, s, 1);
      [s[..n]] + Segments(c, s[n..])
  }

  function BarsOf(segs: seq<seq<Tick>>): (bars: seq<Bar>)
    requires forall i | 0 <= i < |segs| :: segs[i] != []
    ensures |bars| == |segs| && forall i | 0 <= i < |bars| :: bars[i] == BarOf(segs[i])
  {
    seq(|segs|, i requires 0 <= i < |segs| => BarOf(segs[i]))
  }

  lemma {:induction false} OpenPrefix(c: Config, s: seq<Tick>, k: nat)
    requires k <= |s| && StillOpen(c, s)
    ensures StillOpen(c, s[..k]) && (k > 0 ==> !Closes(c, s[..k]))
    decreases |s|
  {
    if k < |s| {
      OpenPrefix(c, s[..|s| - 1], k);
      assert s[..|s| - 1][..k] == s[..k];
    } else {
      assert s[..k] == s;
    }
  }

  /** If everything before the last row is open, the cut of a longer sequence falls at or after it. */
  lemma {:induction false} CutAfterOpen(c: Config, s: seq<Tick>, rest: seq<Tick>, k: nat)
    requires s != [] && 1 <= k <= |s| && StillOpen(c, s[..|s| - 1])
    ensures Closes(c, s) || rest == [] ==> Cut(c, s + rest, k) == |s|
    ensures !Closes(c, s) ==> Cut(c, s + rest, k) >= |s|
    decreases |s| - k
  {
    if k < |s| {
      OpenPrefix(c, s[..|s| - 1], k);
      assert (s + rest)[..k] == s[..|s| - 1][..k];
      CutAfterOpen(c, s, rest, k + 1);
    } else {
      assert (s + rest)[..k] == s;
    }
  }

  /** A segment that closes with its last row is cut off, whatever follows. */
  lemma {:induction false} CutOffClosed(c: Config, s: seq<Tick>, rest: seq<Tick>)
    requires s != [] && StillOpen(c, s[..|s| - 1]) && Closes(c, s)
    ensures Segments(c, s + rest) == [s] + Segments(c, rest)
  {
    CutAfterOpen(c, s, rest, 1);
    assert (s + rest)[..|s|] == s && (s + rest)[|s|..] == rest;
  }

  /** Rows that never close a bar are one segment. */
  lemma {:induction false} OneOpenSegment(c: Config, s: seq<Tick>)
    requires s != [] && StillOpen(c, s)
    ensures Segments(c, s) == [s]
  {
    CutAfterOpen(c, s, [], 1);
    assert s + [] == s;
    assert s[..|s|] == s;
  }

  // ----- The loop -----

  /** The loop's running variables. */
  datatype Running = Running(open: real, high: real, low: real, close: real, volume: real, turnover: real,
                             trades: int, tsStart: int, isNew: bool)

  /** They describe the rows gathered since the last bar was closed. */
  ghost predicate Describes(v: Running, gathered: seq<Tick>) {
    && v.trades == |gathered|
    && v.isNew == (gathered == [])
    && v.volume == Volume(gathered)
    && v.turnover == Turnover(gathered)
    && (gathered != [] ==>
          && v.open == gathered[0].row.open
          && v.high == High(gathered)
          && v.low == Low(gathered)
          && v.close == gathered[|gathered| - 1].row.close
          && v.tsStart == gathered[0].row.ts)
  }

  /** The loop body up to the closing test: one more row is gathered. */
  method Gather(v: Running, t: Tick, ghost gathered: seq<Tick>) returns (v': Running)
    requires Describes(v, gathered)
    ensures Describes(v', gathered + [t])
  {
    assert (gathered + [t])[..|gathered|] == gathered;
    v' := v;
    if v.isNew {
      v' := v'.(open := t.row.open, high := t.row.high, low := t.row.low, tsStart := t.row.ts, isNew := false);
    } else {
      v' := v'.(high := MaxReal(v.high, t.row.high), low := MinReal(v.low, t.row.low));
    }
    v' := v'.(close := t.row.close, volume := v.volume + t.row.volume, turnover := v.turnover + t.turnover,
              trades := v.trades + 1);
  }

  method EmitBar(v: Running, tsEnd: int, ghost gathered: seq<Tick>) returns (bar: Bar)
    requires gathered != [] && Describes(v, gathered) && tsEnd == gathered[|gathered| - 1].row.ts
    ensures bar == BarOf(gathered)
  {
    bar := Bar(v.open, v.high, v.low, v.close, v.volume, v.turnover, v.tsStart, tsEnd,
               WholeSeconds(tsEnd - v.tsStart), v.trades);
  }

  /** After `i` rows: `done` has been cut off and emitted, `gathered` is still open. */
  ghost predicate Progress(c: Config, ticks: seq<Tick>, i: nat, bars: seq<Bar>, v: Running,
                           done: seq<seq<Tick>>, gathered: seq<Tick>)
  {
    && i <= |ticks|
    && (forall k | 0 <= k < |done| :: done[k] != [])
    && bars == BarsOf(done)
    && Describes(v, gathered)
    && StillOpen(c, gathered)
    && Segments(c, ticks) == done + Segments(c, gathered + ticks[i..])
    && (gathered != [] ==> i > 0 && gathered[|gathered| - 1] == ticks[i - 1])
  }

  lemma {:induction false} ProgressOpen(c: Config, ticks: seq<Tick>, i: nat, bars: seq<Bar>, v: Running, v': Running,
                                        done: seq<seq<Tick>>, gathered: seq<Tick>)
    requires i < |ticks| && Progress(c, ticks, i, bars, v, done, gathered)
    requires Describes(v', gathered + [ticks[i]]) && !Closes(c, gathered + [ticks[i]])
    ensures Progress(c, ticks, i + 1, bars, v', done, gathered + [ticks[i]])
  {
    assert gathered + ticks[i..] == gathered + [ticks[i]] + ticks[i + 1..];
    assert (gathered + [ticks[i]])[..|gathered|] == gathered;
  }

  lemma {:induction false} ProgressClosed(c: Config, ticks: seq<Tick>, i: nat, bars: seq<Bar>, v: Running, v': Running,
                                          done: seq<seq<Tick>>, gathered: seq<Tick>)
    requires i < |ticks| && Progress(c, ticks, i, bars, v, done, gathered)
    requires Closes(c, gathered + [ticks[i]]) && Describes(v', [])
    ensures Progress(c, ticks, i + 1, bars + [BarOf(gathered + [ticks[i]])], v', done + [gathered + [ticks[i]]], [])
  {
    var segment, rest := gathered + [ticks[i]], ticks[i + 1..];
    assert gathered + ticks[i..] == segment + rest;
    assert segment[..|gathered|] == gathered;
    CutOffClosed(c, segment, rest);
    assert [] + rest == rest;
    assert done + ([segment] + Segments(c, rest)) == done + [segment] + Segments(c, rest);
    assert bars + [BarOf(segment)] == BarsOf(done + [segment]);
  }

  /** One iteration of the loop. */
  method TakeRow(c: Config, ghost ticks: seq<Tick>, ghost i: nat, t: Tick, bars: seq<Bar>, v: Running,
                 ghost done: seq<seq<Tick>>, ghost gathered: seq<Tick>)
    returns (bars': seq<Bar>, v': Running, ghost done': seq<seq<Tick>>, ghost gathered': seq<Tick>)
    requires i < |ticks| && t == ticks[i] && Progress(c, ticks, i, bars, v, done, gathered)
    ensures Progress(c, ticks, i + 1, bars', v', done', gathered')
  {
    v' := Gather(v, t, gathered);
    if v'.turnover >= c.dollarValue && v'.trades >= c.minTrades {
      var bar := EmitBar(v', t.row.ts, gathered + [t]);
      v' := v'.(volume := 0.0, turnover := 0.0, trades := 0, isNew := true);
      bars', done', gathered' := bars + [bar], done + [gathered + [t]], [];
      ProgressClosed(c, ticks, i, bars, v, v', done, gathered);
    } else {
      bars', done', gathered' := bars, done, gathered + [t];
      ProgressOpen(c, ticks, i, bars, v, v', done, gathered);
    }
  }

  lemma {:induction false} ProgressStart(c: Config, ticks: seq<Tick>, v: Running)
    requires Describes(v, [])
    ensures Progress(c, ticks, 0, [], v, [], [])
  {
    assert [] + ticks[0..] == ticks && [] + Segments(c, ticks) == Segments(c, ticks);
  }

  /** After the loop: rows still gathered make the trailing partial bar. */
  method CloseTail(c: Config, ticks: seq<Tick>, bars: seq<Bar>, v: Running, ghost done: seq<seq<Tick>>,
                   ghost gathered: seq<Tick>)
    returns (bars': seq<Bar>)
    requires ticks != [] && Progress(c, ticks, |ticks|, bars, v, done, gathered)
    ensures bars' == BarsOf(Segments(c, ticks))
  {
    assert gathered + ticks[|ticks|..] == gathered;
    bars' := bars;
    if v.trades > 0 {
      OneOpenSegment(c, gathered);
      var bar := EmitBar(v, ticks[|ticks| - 1].row.ts, gathered);
      bars' := bars + [bar];
    }
  }

  method AggregateBars(c: Config, ticks: seq<Tick>) returns (bars: seq<Bar>)
    requires ticks != []
    ensures bars == BarsOf(Segments(c, ticks))
  {
    bars := [];
    var v := Running(0.0, 0.0, 0.0, 0.0, 0.0, 0.0, 0, ticks[0].row.ts, true);
    ghost var done: seq<seq<Tick>>, gathered: seq<Tick> := [], [];
    ProgressStart(c, ticks, v);
    for i := 0 to |ticks|
      invariant Progress(c, ticks, i, bars, v, done, gathered)
    {
      bars, v, done, gathered := TakeRow(c, ticks, i, ticks[i], bars, v, done, gathered);
    }
    bars := CloseTail(c, ticks, bars, v, done, gathered);
  }

  predicate Monotonic(rows: seq<Row>) {
    forall i | 0 < i < |rows| :: rows[i - 1].ts <= rows[i].ts
  }

  lemma {:induction false} MonotonicIsOrdered(rows: seq<Row>, i: nat, j: nat)
    requires Monotonic(rows) && i <= j < |rows|
    ensures rows[i].ts <= rows[j].ts
    decreases j
  {
    if i < j {
      MonotonicIsOrdered(rows, i, j - 1);
    }
  }

  /** Comparing neighbours is enough: equal times pass, and no row lies before an earlier one. */
  lemma {:induction false} MonotonicIff(rows: seq<Row>)
    ensures Monotonic(rows) <==> forall i, j | 0 <= i <= j < |rows| :: rows[i].ts <= rows[j].ts
  {
    if Monotonic(rows) {
      forall i: nat, j: nat | i <= j < |rows| ensures rows[i].ts <= rows[j].ts {
        MonotonicIsOrdered(rows, i, j);
      }
    }
  }

  function Ticks(rows: seq<Row>, c: Config): (ticks: seq<Tick>)
    ensures |ticks| == |rows| && forall i | 0 <= i < |ticks| :: ticks[i] == Tick(rows[i], RowTurnover(rows[i], c))
  {
    seq(|rows|, i requires 0 <= i < |rows| => Tick(rows[i], RowTurnover(rows[i], c)))
  }

  /** The first thing wrong with the input, if any. */
  function InputError(df: Frame): Option<BarsError> {
    if REQUIRED - df.columns != {} then Some(MissingColumns)
    else if !df.timeIndex then Some(NotTimeIndex)
    else if !Monotonic(df.rows) then Some(NotMonotonic)
    else None
  }

  method ValidateInput(df: Frame) returns (error: Option<BarsError>)
    ensures error == InputError(df)
    ensures error == Some(MissingColumns) <==>
            exists name :: name in {"open", "high", "low", "close", "volume"} && name !in df.columns
    ensures error == None ==> df.timeIndex && forall i, j | 0 <= i <= j < |df.rows| :: df.rows[i].ts <= df.rows[j].ts
    ensures error == Some(NotMonotonic) ==>
              df.timeIndex && exists i, j :: 0 <= i < j < |df.rows| && df.rows[j].ts < df.rows[i].ts
    ensures error == Some(NotTimeIndex) ==> !df.timeIndex
  {
    var missing := REQUIRED - df.columns;
    if missing != {} {
      var name :| name in missing;
      return Some(MissingColumns);
    }
    assert forall name | name in REQUIRED && name !in df.columns :: name in missing;
    if !df.timeIndex {
      return Some(NotTimeIndex);
    }
    MonotonicIff(df.rows);
    if |df.rows| > 1 && !Monotonic(df.rows) {
      return Some(NotMonotonic);
    }
    error := None;
  }

  method BuildDollarBars(df: Frame, c: Config) returns (r: Result<seq<Bar>, BarsError>)
    ensures r == if InputError(df).Some? then Err(InputError(df).value) else Ok(BarsOf(Segments(c, Ticks(df.rows, c))))
  {
    var error := ValidateInput(df);
    if error.Some? {
      return Err(error.value);
    }
    if |df.rows| == 0 {
      return Ok([]);
    }
    var bars := AggregateBars(c, Ticks(df.rows, c));
    r := Ok(bars);
  }

  // ----- What the greedy split means -----

  function Join(segs: seq<seq<Tick>>): seq<Tick> {
    if segs == [] then [] else segs[0] + Join(segs[1..])
  }

  /**
    A split is greedy: every segment but the last meets both thresholds, the last may fall short of them,
    and no segment meets them before its last row.
   */
  ghost predicate Greedy(c: Config, segs: seq<seq<Tick>>) {
    segs == [] ||
    (&& segs[0] != []
     && StillOpen(c, segs[0][..|segs[0]| - 1])
     && (|segs| > 1 ==> Closes(c, segs[0]))
     && Greedy(c, segs[1..]))
  }

  lemma {:induction false} CutIsGreedy(c: Config, s: seq<Tick>, k: nat)
    requires 1 <= k <= |s| && StillOpen(c, s[..k - 1])
    ensures var n := Cut(c, s, k); StillOpen(c, s[..n - 1]) && (n < |s| ==> Closes(c, s[..n]))
    decreases |s| - k
  {
    if k < |s| && !Closes(c, s[..k]) {
      assert s[..k][..k - 1] == s[..k - 1];
      CutIsGreedy(c, s, k + 1);
    }
  }

  lemma {:induction false} GreedyCons(c: Config, first: seq<Tick>, segs: seq<seq<Tick>>)
    requires first != [] && StillOpen(c, first[..|first| - 1]) && (segs != [] ==> Closes(c, first)) && Greedy(c, segs)
    ensures Greedy(c, [first] + segs) && Join([first] + segs) == first + Join(segs)
  {
    assert ([first] + segs)[1..] == segs;
  }

  /** The first segment and the rows after it. */
  lemma {:induction false} FirstSegment(c: Config, s: seq<Tick>) returns (first: seq<Tick>, rest: seq<Tick>)
    requires s != []
    ensures first != [] && first + rest == s && |rest| < |s|
    ensures StillOpen(c, first[..|first| - 1]) && (rest != [] ==> Closes(c, first))
    ensures Segments(c, s) == [first] + Segments(c, rest)
  {
    var n := Cut(c, s, 1);
    first, rest := s[..n], s[n..];
    CutIsGreedy(c, s, 1);
    assert first[..n - 1] == s[..n - 1];
  }

  /** The split loses no row, and it is greedy. */
  lemma {:induction false} SegmentsAreGreedy(c: Config, s: seq<Tick>)
    ensures Join(Segments(c, s)) == s && Greedy(c, Segments(c, s))
    decreases |s|
  {
    if s != [] {
      var first, rest := FirstSegment(c, s);
      SegmentsAreGreedy(c, rest);
      GreedyCons(c, first, Segments(c, rest));
    }
  }

  /** It is the only one. */
  lemma {:induction false} GreedyIsUnique(c: Config, segs: seq<seq<Tick>>)
    requires Greedy(c, segs)
    ensures segs == Segments(c, Join(segs))
    decreases |segs|
  {
    if segs != [] {
      GreedyIsUnique(c, segs[1..]);
      var first, rest := segs[0], Join(segs[1..]);
      if Closes(c, first) {
        CutOffClosed(c, first, rest);
      } else {
        assert segs == [first] && first + [] == first;
        OneOpenSegment(c, first);
      }
      assert segs == [first] + segs[1..];
    }
  }

  // ----- Conservation -----

  function SumVolume(bars: seq<Bar>): real {
    if bars == [] then 0.0 else bars[0].volume + SumVolume(bars[1..])
  }

  function SumTurnover(bars: seq<Bar>): real {
    if bars == [] then 0.0 else bars[0].turnover + SumTurnover(bars[1..])
  }

  function SumTrades(bars: seq<Bar>): int {
    if bars == [] then 0 else bars[0].trades + SumTrades(bars[1..])
  }

  lemma {:induction false} TotalsOfConcatenation(a: seq<Tick>, b: seq<Tick>)
    ensures Volume(a + b) == Volume(a) + Volume(b) && Turnover(a + b) == Turnover(a) + Turnover(b)
  {
    if b == [] {
      assert a + b == a;
    } else {
      TotalsOfConcatenation(a, b[..|b| - 1]);
      assert (a + b)[..|a + b| - 1] == a + b[..|b| - 1];
    }
  }

  lemma {:induction false} BarsConserve(segs: seq<seq<Tick>>)
    requires forall i | 0 <= i < |segs| :: segs[i] != []
    ensures SumVolume(BarsOf(segs)) == Volume(Join(segs))
    ensures SumTurnover(BarsOf(segs)) == Turnover(Join(segs))
    ensures SumTrades(BarsOf(segs)) == |Join(segs)|
  {
    if segs != [] {
      BarsConserve(segs[1..]);
      assert BarsOf(segs)[1..] == BarsOf(segs[1..]);
      TotalsOfConcatenation(segs[0], Join(segs[1..]));
    }
  }

  /** Volume, turnover and row count summed over the bars are those of the input. */
  lemma {:induction false} Conservation(c: Config, s: seq<Tick>)
    ensures var bars := BarsOf(Segments(c, s));
            SumVolume(bars) == Volume(s) && SumTurnover(bars) == Turnover(s) && SumTrades(bars) == |s|
  {
    SegmentsAreGreedy(c, s);
    BarsConserve(Segments(c, s));
  }

  // ----- Built bars against the frame -----

  /** Sum of volume * contract value * close. */
  ghost function ContractsTurnover(rows: seq<Row>, contractVal: real): real {
    if rows == [] then 0.0
    else
      ContractsTurnover(rows[..|rows| - 1], contractVal)
      + rows[|rows| - 1].volume * contractVal * rows[|rows| - 1].close
  }

  /** Sum of volume * close. */
  ghost function BaseTurnover(rows: seq<Row>): real {
    if rows == [] then 0.0
    else BaseTurnover(rows[..|rows| - 1]) + rows[|rows| - 1].volume * rows[|rows| - 1].close
  }

  /** Sum of volume. */
  ghost function QuoteTurnover(rows: seq<Row>): real {
    if rows == [] then 0.0 else QuoteTurnover(rows[..|rows| - 1]) + rows[|rows| - 1].volume
  }

  /** `money` is what the rows turned over, in the unit that the configuration says volumes are in. */
  ghost predicate TurnedOver(c: Config, rows: seq<Row>, money: real) {
    && (c.volumeUnit == Contracts ==> money == ContractsTurnover(rows, c.contractVal))
    && (c.volumeUnit == Base ==> money == BaseTurnover(rows))
    && (c.volumeUnit == Quote ==> money == QuoteTurnover(rows))
  }

  lemma {:induction false} TicksTurnover(c: Config, rows: seq<Row>)
    ensures TurnedOver(c, rows, Turnover(Ticks(rows, c)))
    ensures Volume(Ticks(rows, c)) == QuoteTurnover(rows)
  {
    if rows != [] {
      var front := rows[..|rows| - 1];
      TicksTurnover(c, front);
      assert Ticks(rows, c)[..|rows| - 1] == Ticks(front, c);
    }
  }

  /** The turnovers of the built bars sum to what the rows of the frame turned over. */
  lemma {:induction false} BuiltTurnover(c: Config, rows: seq<Row>)
    ensures TurnedOver(c, rows, SumTurnover(BarsOf(Segments(c, Ticks(rows, c)))))
  {
    Conservation(c, Ticks(rows, c));
    TicksTurnover(c, rows);
  }

  /** Both thresholds are met by the money that the rows turned over and by their number. */
  ghost predicate RowsClose(c: Config, rows: seq<Row>) {
    |rows| >= c.minTrades && exists money :: TurnedOver(c, rows, money) && money >= c.dollarValue
  }

  lemma {:induction false} RowsCloseIff(c: Config, rows: seq<Row>)
    ensures RowsClose(c, rows) <==> Closes(c, Ticks(rows, c))
  {
    TicksTurnover(c, rows);
  }

  /** What a bar says about the rows it stands for. */
  ghost predicate Summarises(c: Config, bar: Bar, part: seq<Row>) {
    && part != []
    && bar.open == part[0].open && bar.close == part[|part| - 1].close
    && bar.tsStart == part[0].ts && bar.tsEnd == part[|part| - 1].ts
    && bar.trades == |part| && bar.volume == QuoteTurnover(part) && TurnedOver(c, part, bar.turnover)
    && (forall i | 0 <= i < |part| :: bar.low <= part[i].low && part[i].high <= bar.high)
    && (exists i :: 0 <= i < |part| && part[i].high == bar.high)
    && (exists i :: 0 <= i < |part| && part[i].low == bar.low)
  }

  /** High and low are attained by a row and bound every row. */
  lemma {:induction false} HighLowExtremes(s: seq<Tick>) returns (h: nat, l: nat)
    requires s != []
    ensures h < |s| && s[h].row.high == High(s)
    ensures l < |s| && s[l].row.low == Low(s)
    ensures forall i | 0 <= i < |s| :: Low(s) <= s[i].row.low && s[i].row.high <= High(s)
  {
    var n := |s| - 1;
    h, l := n, n;
    if n > 0 {
      var front := s[..n];
      var h', l' := HighLowExtremes(front);
      assert front[h'] == s[h'] && front[l'] == s[l'];
      if s[n].row.high <= High(front) {
        h := h';
      }
      if s[n].row.low >= Low(front) {
        l := l';
      }
      forall i | 0 <= i < |s| ensures Low(s) <= s[i].row.low && s[i].row.high <= High(s) {
        if i < n {
          assert front[i] == s[i];
        }
      }
    }
  }

  lemma {:induction false} BarSummarises(c: Config, part: seq<Row>)
    requires part != []
    ensures Summarises(c, BarOf(Ticks(part, c)), part)
  {
    var ticks := Ticks(part, c);
    TicksTurnover(c, part);
    var h, l := HighLowExtremes(ticks);
    assert part[h].high == High(ticks) && part[l].low == Low(ticks);
    forall i | 0 <= i < |part| ensures Low(ticks) <= part[i].low && part[i].high <= High(ticks) {
      assert ticks[i].row == part[i];
    }
  }

  function JoinRows(parts: seq<seq<Row>>): seq<Row> {
    if parts == [] then [] else parts[0] + JoinRows(parts[1..])
  }

  function RowsOf(s: seq<Tick>): (rows: seq<Row>)
    ensures |rows| == |s| && forall i | 0 <= i < |rows| :: rows[i] == s[i].row
  {
    seq(|s|, i requires 0 <= i < |s| => s[i].row)
  }

  function PartsOf(segs: seq<seq<Tick>>): (parts: seq<seq<Row>>)
    ensures |parts| == |segs| && forall i | 0 <= i < |parts| :: parts[i] == RowsOf(segs[i])
  {
    seq(|segs|, i requires 0 <= i < |segs| => RowsOf(segs[i]))
  }

  lemma {:induction false} JoinedRows(segs: seq<seq<Tick>>)
    ensures JoinRows(PartsOf(segs)) == RowsOf(Join(segs))
  {
    if segs != [] {
      JoinedRows(segs[1..]);
      assert PartsOf(segs)[1..] == PartsOf(segs[1..]);
      assert RowsOf(segs[0] + Join(segs[1..])) == RowsOf(segs[0]) + RowsOf(Join(segs[1..]));
    }
  }

  lemma {:induction false} InJoin(segs: seq<seq<Tick>>, i: nat, t: Tick)
    requires i < |segs| && t in segs[i]
    ensures t in Join(segs)
  {
    if i > 0 {
      InJoin(segs[1..], i - 1, t);
    }
  }

  /** Taking the rows of priced ticks and pricing them again gives the ticks back. */
  lemma {:induction false} TicksOfRows(c: Config, s: seq<Tick>)
    requires forall t | t in s :: t.turnover == RowTurnover(t.row, c)
    ensures Ticks(RowsOf(s), c) == s
  {
    forall i | 0 <= i < |s| ensures Ticks(RowsOf(s), c)[i] == s[i] {
      assert s[i] in s;
    }
  }

  /** The segments are the ticks of consecutive parts of the frame. */
  lemma {:induction false} PartsOfFrame(c: Config, rows: seq<Row>) returns (parts: seq<seq<Row>>)
    ensures JoinRows(parts) == rows && |parts| == |Segments(c, Ticks(rows, c))|
    ensures forall i | 0 <= i < |parts| :: parts[i] != [] && Ticks(parts[i], c) == Segments(c, Ticks(rows, c))[i]
  {
    var ticks := Ticks(rows, c);
    var segs := Segments(c, ticks);
    SegmentsAreGreedy(c, ticks);
    JoinedRows(segs);
    assert RowsOf(ticks) == rows;
    parts := PartsOf(segs);
    forall i: nat | i < |segs| ensures Ticks(parts[i], c) == segs[i] {
      forall t: Tick | t in segs[i] ensures t.turnover == RowTurnover(t.row, c) {
        InJoin(segs, i, t);
        assert t in ticks;
      }
      TicksOfRows(c, segs[i]);
    }
  }

  lemma {:induction false} GreedyAt(c: Config, segs: seq<seq<Tick>>, i: nat)
    requires Greedy(c, segs) && i < |segs|
    ensures segs[i] != [] && StillOpen(c, segs[i][..|segs[i]| - 1]) && (i < |segs| - 1 ==> Closes(c, segs[i]))
    decreases |segs|
  {
    if i > 0 {
      GreedyAt(c, segs[1..], i - 1);
    }
  }

  /** A part closes with its last row, unless it is the last part, and never before. */
  ghost predicate ClosesLate(c: Config, part: seq<Row>, isLast: bool) {
    (isLast || RowsClose(c, part)) && forall k | 0 < k < |part| :: !RowsClose(c, part[..k])
  }

  lemma {:induction false} PartClosesLate(c: Config, part: seq<Row>, isLast: bool)
    requires part != [] && StillOpen(c, Ticks(part, c)[..|part| - 1]) && (isLast || Closes(c, Ticks(part, c)))
    ensures ClosesLate(c, part, isLast)
  {
    RowsCloseIff(c, part);
    var ticks := Ticks(part, c);
    forall k | 0 < k < |part| ensures !RowsClose(c, part[..k]) {
      OpenPrefix(c, ticks[..|part| - 1], k);
      assert ticks[..|part| - 1][..k] == Ticks(part[..k], c);
      RowsCloseIff(c, part[..k]);
    }
  }

  /**
    The closing rule of built bars: the frame falls into consecutive parts, one for each bar, which summarises it;
    every part but the last meets both thresholds, and no proper prefix of any part does.
   */
  lemma {:induction false} BuiltBarsRule(c: Config, rows: seq<Row>) returns (parts: seq<seq<Row>>)
    ensures JoinRows(parts) == rows
    ensures var bars := BarsOf(Segments(c, Ticks(rows, c)));
            && |bars| == |parts|
            && forall i | 0 <= i < |parts| ::
                 Summarises(c, bars[i], parts[i]) && ClosesLate(c, parts[i], i == |parts| - 1)
  {
    var ticks := Ticks(rows, c);
    var segs := Segments(c, ticks);
    parts := PartsOfFrame(c, rows);
    SegmentsAreGreedy(c, ticks);
    forall i: nat | i < |parts|
      ensures Summarises(c, BarsOf(segs)[i], parts[i]) && ClosesLate(c, parts[i], i == |parts| - 1)
    {
      GreedyAt(c, segs, i);
      BarSummarises(c, parts[i]);
      PartClosesLate(c, parts[i], i == |parts| - 1);
    }
  }

  /** A bar lasts the whole seconds between its first and last row; what is left over is less than one. */
  lemma {:induction false} DurationTruncates(ms: int)
    ensures var rest := ms - WholeSeconds(ms) * 1000;
            if ms >= 0 then 0 <= rest < 1000 else -1000 < rest <= 0
  {
    var n := if ms >= 0 then ms else -ms;
    assert n == n / 1000 * 1000 + n % 1000;
  }

  // ----- No look-ahead -----

  /** The segments that met their thresholds. */
  function Closed(c: Config, s: seq<Tick>): (segs: seq<seq<Tick>>)
    ensures forall i | 0 <= i < |segs| :: segs[i] != []
    decreases |s|
  {
    if s == [] then []
    else
      var n := Cut(c, s, 1);
      if Closes(c, s[..n]) then [s[..n]] + Closed(c, s[n..]) else []
  }

  /** The rows gathered for a bar that is not closed yet. */
  function Pending(c: Config, s: seq<Tick>): (rest: seq<Tick>)
    ensures |rest| <= |s|
    decreases |s|
  {
    if s == [] then []
    else
      var n := Cut(c, s, 1);
      if Closes(c, s[..n]) then Pending(c, s[n..]) else s
  }

  lemma {:induction false} ResumeAfterClosed(c: Config, first: seq<Tick>, tail: seq<Tick>, b: seq<Tick>,
                                             closed: seq<seq<Tick>>, rest: seq<seq<Tick>>)
    requires first != [] && StillOpen(c, first[..|first| - 1]) && Closes(c, first)
    requires Segments(c, tail + b) == closed + rest
    ensures Segments(c, first + tail + b) == [first] + closed + rest
  {
    CutOffClosed(c, first, tail + b);
    assert first + tail + b == first + (tail + b);
    assert [first] + (closed + rest) == [first] + closed + rest;
  }

  /**
    Rows that arrive later change no closed bar: the split of `a + b` starts with the closed segments of
    `a` and goes on with the rows that were pending after `a`.
   */
  lemma {:induction false} Resume(c: Config, a: seq<Tick>, b: seq<Tick>)
    ensures Segments(c, a + b) == Closed(c, a) + Segments(c, Pending(c, a) + b)
    ensures StillOpen(c, Pending(c, a))
    decreases |a|
  {
    if a == [] {
      assert [] + b == b;
    } else {
      var n := Cut(c, a, 1);
      var first, tail := a[..n], a[n..];
      CutIsGreedy(c, a, 1);
      assert first[..n - 1] == a[..n - 1];
      assert first + tail == a;
      if Closes(c, first) {
        Resume(c, tail, b);
        ResumeAfterClosed(c, first, tail, b, Closed(c, tail), Segments(c, Pending(c, tail) + b));
      } else {
        assert first == a;
      }
    }
  }

  /** Closed bars of a prefix are the first bars of the whole input; only a trailing partial bar can change. */
  lemma {:induction false} NoLookAhead(c: Config, a: seq<Tick>, b: seq<Tick>)
    ensures BarsOf(Closed(c, a)) <= BarsOf(Segments(c, a + b))
    ensures BarsOf(Segments(c, a)) ==
            BarsOf(Closed(c, a)) + if Pending(c, a) == [] then [] else [BarOf(Pending(c, a))]
  {
    Resume(c, a, b);
    Resume(c, a, []);
    assert a + [] == a && Pending(c, a) + [] == Pending(c, a);
    if Pending(c, a) != [] {
      OneOpenSegment(c, Pending(c, a));
    }
  }

  // ----- Bars against their rows -----

  ghost predicate Envelope(low: real, open: real, close: real, high: real) {
    low <= open && low <= close && open <= high && close <= high
  }

  /** Rows with a valid envelope give bars with a valid envelope. */
  lemma {:induction false} BarEnvelope(s: seq<Tick>)
    requires s != []
    requires forall i | 0 <= i < |s| :: Envelope(s[i].row.low, s[i].row.open, s[i].row.close, s[i].row.high)
    ensures Envelope(BarOf(s).low, BarOf(s).open, BarOf(s).close, BarOf(s).high)
  {
    var h, l := HighLowExtremes(s);
    assert Envelope(s[0].row.low, s[0].row.open, s[0].row.close, s[0].row.high);
    assert Envelope(s[|s| - 1].row.low, s[|s| - 1].row.open, s[|s| - 1].row.close, s[|s| - 1].row.high);
  }

  ghost predicate TimeOrdered(s: seq<Tick>) {
    forall i, j | 0 <= i <= j < |s| :: s[i].row.ts <= s[j].row.ts
  }

  /** Each bar ends no earlier than it starts, and no later than the next one starts. */
  ghost predicate SpansOrdered(bars: seq<Bar>) {
    && (forall i | 0 <= i < |bars| :: bars[i].tsStart <= bars[i].tsEnd && bars[i].durationSeconds >= 0)
    && (forall i, j | 0 <= i < j < |bars| :: bars[i].tsEnd <= bars[j].tsStart)
  }

  /** No bar starts before `ts`. */
  ghost predicate StartAfter(bars: seq<Bar>, ts: int) {
    forall i | 0 <= i < |bars| :: ts <= bars[i].tsStart
  }

  lemma {:induction false} SpansCons(bar: Bar, bars: seq<Bar>, ts: int)
    requires ts <= bar.tsStart <= bar.tsEnd && bar.durationSeconds >= 0
    requires SpansOrdered(bars) && StartAfter(bars, bar.tsEnd)
    ensures SpansOrdered([bar] + bars) && StartAfter([bar] + bars, ts)
  {
    var all := [bar] + bars;
    forall i | 0 <= i < |all|
      ensures all[i].tsStart <= all[i].tsEnd && all[i].durationSeconds >= 0 && ts <= all[i].tsStart
    {
      if i > 0 {
        assert all[i] == bars[i - 1];
      }
    }
    forall i, j | 0 <= i < j < |all| ensures all[i].tsEnd <= all[j].tsStart {
      assert all[j] == bars[j - 1];
      if i > 0 {
        assert all[i] == bars[i - 1];
      }
    }
  }

  lemma {:induction false} OrderedParts(first: seq<Tick>, rest: seq<Tick>)
    requires first != [] && TimeOrdered(first + rest)
    ensures TimeOrdered(rest) && first[0].row.ts <= first[|first| - 1].row.ts
    ensures rest != [] ==> first[|first| - 1].row.ts <= rest[0].row.ts
  {
    var s := first + rest;
    assert forall i | 0 <= i < |first| :: s[i] == first[i];
    assert forall i | 0 <= i < |rest| :: s[|first| + i] == rest[i];
    assert s[0].row.ts <= s[|first| - 1].row.ts;
    if rest != [] {
      assert s[|first| - 1].row.ts <= s[|first|].row.ts;
    }
  }

  lemma {:induction false} BarSpansOrdered(segs: seq<seq<Tick>>)
    requires forall i | 0 <= i < |segs| :: segs[i] != []
    requires TimeOrdered(Join(segs))
    ensures SpansOrdered(BarsOf(segs))
    ensures segs != [] ==> StartAfter(BarsOf(segs), Join(segs)[0].row.ts)
  {
    if segs != [] {
      var first, rest := segs[0], Join(segs[1..]);
      OrderedParts(first, rest);
      BarSpansOrdered(segs[1..]);
      SpansCons(BarOf(first), BarsOf(segs[1..]), first[0].row.ts);
      assert BarsOf(segs) == [BarOf(first)] + BarsOf(segs[1..]);
    }
  }

  /** With rows in time order, bar spans are ordered and do not overlap. */
  lemma {:induction false} SpansOfBars(c: Config, s: seq<Tick>)
    requires TimeOrdered(s)
    ensures SpansOrdered(BarsOf(Segments(c, s)))
  {
    SegmentsAreGreedy(c, s);
    BarSpansOrdered(Segments(c, s));
  }

  /** So it is for every frame that passes validation. */
  lemma {:induction false} SpansOfBuiltBars(c: Config, rows: seq<Row>)
    requires Monotonic(rows)
    ensures SpansOrdered(BarsOf(Segments(c, Ticks(rows, c))))
  {
    forall i: nat, j: nat | i <= j < |rows| ensures rows[i].ts <= rows[j].ts {
      MonotonicIsOrdered(rows, i, j);
    }
    SpansOfBars(c, Ticks(rows, c));
  }

  lemma {:induction false} TurnoverSign(s: seq<Tick>)
    requires forall i | 0 <= i < |s| :: s[i].turnover >= 0.0
    ensures Turnover(s) >= 0.0
  {
    if s != [] {
      TurnoverSign(s[..|s| - 1]);
    }
  }

  /** With non-negative turnover, closed bars times the threshold is at most the total turnover. */
  lemma {:induction false} ClosedBarsBound(c: Config, s: seq<Tick>)
    requires forall i | 0 <= i < |s| :: s[i].turnover >= 0.0
    ensures Times(|Closed(c, s)|, c.dollarValue) <= Turnover(s)
    decreases |s|
  {
    if s != [] {
      var n := Cut(c, s, 1);
      var first, rest := s[..n], s[n..];
      assert first + rest == s;
      if Closes(c, first) {
        ClosedBarsBound(c, rest);
        TotalsOfConcatenation(first, rest);
        assert Closed(c, s) == [first] + Closed(c, rest);
      } else {
        TurnoverSign(s);
      }
    }
  }
}
