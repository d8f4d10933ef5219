/** The backtest's profit and loss: a position machine over merged rows, against a list of round trips. */
module SignalPnl {
  import opened Arithmetic
  import opened Wrappers

  /** A signal merged with the close of the same time. */
  datatype Row = Row(signal: int, close: real)

  datatype Pnl = Pnl(list: seq<real>, total: real)

  datatype PnlError = ZeroDivision

  /** Relative move from `entry` to `close`. */
  function Move(close: real, entry: real): real
    requires entry != 0.0
  {
    (close - entry) / entry
  }

  /** The two formulas of the code, for a long and a short position. */
  function Return(side: int, close: real, entry: real): real
    requires entry != 0.0
  {
    if side == 1 then Move(close, entry) else -Move(close, entry)
  }

  lemma {:induction false} ShortReturn(close: real, entry: real)
    requires entry != 0.0
    ensures Return(-1, close, entry) == (entry - close) / entry
  {
  }

  predicate Enters(signal: int) { signal == 1 || signal == -1 }

  // ----- The machine -----

  /** What one row adds to the list and to the total, and the position after it. */
  datatype Booking = Booking(x: real, amount: real, side: int, entry: real)

  /** One row, in position `side` (0 for none) entered at `entry`. */
  function Next(row: Row, side: int, entry: real, commission: real): Booking
    requires side == 0 || entry != 0.0
  {
    if side == 0 then
      if Enters(row.signal) then Booking(0.0, 0.0, row.signal, row.close) else Booking(0.0, 0.0, 0, entry)
    else
      var gain := Return(side, row.close, entry);
      if row.signal == -side then Booking(gain - commission, gain - commission, 0, entry)
      else Booking(gain, 0.0, side, entry)
  }

  /** One more list element in front, and an amount added to the total. */
  function Booked(x: real, amount: real, rest: Result<Pnl, PnlError>): Result<Pnl, PnlError> {
    if rest.Ok? then Ok(Pnl([x] + rest.value.list, amount + rest.value.total)) else rest
  }

  /** Rows from `i` on. */
  function Run(rows: seq<Row>, i: nat, side: int, entry: real, commission: real): (r: Result<Pnl, PnlError>)
    requires i <= |rows|
    ensures r.Ok? ==> |r.value.list| == |rows| - i
    decreases |rows| - i
  {
    if i == |rows| then Ok(Pnl([], 0.0))
    else if side != 0 && entry == 0.0 then Err(ZeroDivision)
    else
      var b := Next(rows[i], side, entry, commission);
      Booked(b.x, b.amount, Run(rows, i + 1, b.side, b.entry, commission))
  }

  /** What the rest of the rows makes of the list and total so far. */
  function Prepended(list: seq<real>, total: real, rest: Result<Pnl, PnlError>): Result<Pnl, PnlError> {
    if rest.Ok? then Ok(Pnl(list + rest.value.list, total + rest.value.total)) else rest
  }

  lemma {:induction false} BookedSnoc(list: seq<real>, total: real, x: real, amount: real, rest: Result<Pnl, PnlError>)
    ensures Prepended(list, total, Booked(x, amount, rest)) == Prepended(list + [x], total + amount, rest)
  {
    if rest.Ok? {
      assert list + ([x] + rest.value.list) == list + [x] + rest.value.list;
    }
  }

  method CalcPnl(rows: seq<Row>, commission: real) returns (r: Result<Pnl, PnlError>)
    ensures r == Run(rows, 0, 0, 0.0, commission)
  {
    var pnlList: seq<real>, position, entryPrice, totalPnl := [], 0, 0.0, 0.0;
    assert forall rest: Result<Pnl, PnlError> | rest.Ok? :: [] + rest.value.list == rest.value.list;
    for i := 0 to |rows|
      invariant position == 0 || position == 1 || position == -1
      invariant Prepended(pnlList, totalPnl, Run(rows, i, position, entryPrice, commission)) ==
                Run(rows, 0, 0, 0.0, commission)
    {
      var row := rows[i];
      if position != 0 && entryPrice == 0.0 {
        return Err(ZeroDivision);
      }
      var x, amount, position', entryPrice' := 0.0, 0.0, position, entryPrice;
      if position == 0 {
        if row.signal == 1 {
          position', entryPrice' := 1, row.close;
        } else if row.signal == -1 {
          position', entryPrice' := -1, row.close;
        }
      } else {
        x := Return(position, row.close, entryPrice);
        if row.signal == -position {
          x := x - commission;
          amount, position' := x, 0;
        }
      }
      BookedSnoc(pnlList, totalPnl, x, amount, Run(rows, i + 1, position', entryPrice', commission));
      pnlList, totalPnl, position, entryPrice := pnlList + [x], totalPnl + amount, position', entryPrice';
    }
    r := Ok(Pnl(pnlList, totalPnl));
    assert pnlList + [] == pnlList;
  }

  // ----- Round trips -----

  /** A position: the row it was entered at, and the row that closed it, or the end of the data. */
  datatype Trip = Trip(entry: nat, end: nat, side: int)

  /** The first row from `i` on whose signal opens a position. */
  function FirstEntry(rows: seq<Row>, i: nat): (e: nat)
    requires i <= |rows|
    ensures i <= e <= |rows| && (e < |rows| ==> Enters(rows[e].signal))
    decreases |rows| - i
  {
    if i == |rows| || Enters(rows[i].signal) then i else FirstEntry(rows, i + 1)
  }

  /** The first row from `i` on whose signal is opposite to `side`. */
  function FirstExit(rows: seq<Row>, i: nat, side: int): (x: nat)
    requires i <= |rows|
    ensures i <= x <= |rows| && (x < |rows| ==> rows[x].signal == -side)
    decreases |rows| - i
  {
    if i == |rows| || rows[i].signal == -side then i else FirstExit(rows, i + 1, side)
  }

  /** Entries matched with exits; the last position may still be open, with `end` at the end of the data. */
  function Trips(rows: seq<Row>, i: nat): (trips: seq<Trip>)
    requires i <= |rows|
    ensures trips != [] ==> i <= trips[0].entry < trips[0].end <= |rows|
    decreases |rows| - i
  {
    var e := FirstEntry(rows, i);
    if e == |rows| then []
    else
      var x := FirstExit(rows, e + 1, rows[e].signal);
      [Trip(e, x, rows[e].signal)] + if x == |rows| then [] else Trips(rows, x + 1)
  }

  /** Some entry at price zero is followed by another row, which divides by it. */
  ghost predicate DividesByZero(rows: seq<Row>, trips: seq<Trip>) {
    trips != [] &&
    ((trips[0].entry + 1 < |rows| && rows[trips[0].entry].close == 0.0) || DividesByZero(rows, trips[1..]))
  }

  /** Every closed trip was entered at a price other than zero. */
  ghost predicate NonZeroEntries(rows: seq<Row>, trips: seq<Trip>) {
    trips == [] ||
    (&& trips[0].entry < |rows|
     && (trips[0].end < |rows| ==> rows[trips[0].entry].close != 0.0)
     && NonZeroEntries(rows, trips[1..]))
  }

  /** Sum over the closed trips of signed return less commission. */
  ghost function TripSum(rows: seq<Row>, trips: seq<Trip>, commission: real): real {
    if trips == [] then 0.0
    else
      var t := trips[0];
      (if t.entry < |rows| && t.end < |rows| && rows[t.entry].close != 0.0
       then Return(t.side, rows[t.end].close, rows[t.entry].close) - commission else 0.0)
      + TripSum(rows, trips[1..], commission)
  }

  ghost function ClosedTrips(rows: seq<Row>, trips: seq<Trip>): nat {
    if trips == [] then 0 else (if trips[0].end < |rows| then 1 else 0) + ClosedTrips(rows, trips[1..])
  }

  lemma {:induction false} FlatUntilEntry(rows: seq<Row>, i: nat, entry: real, commission: real)
    requires i <= |rows|
    ensures var e, r := FirstEntry(rows, i), Run(rows, i, 0, entry, commission);
            if e == |rows| then r.Ok? && r.value.total == 0.0
            else
              var rest := Run(rows, e + 1, rows[e].signal, rows[e].close, commission);
              (r.Ok? <==> rest.Ok?) && (r.Ok? ==> r.value.total == rest.value.total)
    decreases |rows| - i
  {
    if i < |rows| && !Enters(rows[i].signal) {
      FlatUntilEntry(rows, i + 1, entry, commission);
    }
  }

  lemma {:induction false} HeldUntilExit(rows: seq<Row>, i: nat, side: int, entry: real, commission: real)
    requires i <= |rows| && (side == 1 || side == -1) && entry != 0.0
    ensures var x, r := FirstExit(rows, i, side), Run(rows, i, side, entry, commission);
            if x == |rows| then r.Ok? && r.value.total == 0.0
            else
              var rest := Run(rows, x + 1, 0, entry, commission);
              && (r.Ok? <==> rest.Ok?)
              && (r.Ok? ==> r.value.total == Return(side, rows[x].close, entry) - commission + rest.value.total)
    decreases |rows| - i
  {
    if i < |rows| && rows[i].signal != -side {
      HeldUntilExit(rows, i + 1, side, entry, commission);
    }
  }

  lemma {:induction false} TripsTail(rows: seq<Row>, i: nat)
    requires i <= |rows| && Trips(rows, i) != []
    ensures var t := Trips(rows, i)[0];
            && i <= t.entry < t.end <= |rows|
            && Trips(rows, i)[1..] == if t.end == |rows| then [] else Trips(rows, t.end + 1)
  {
  }

  lemma {:induction false} NoEntryBefore(rows: seq<Row>, i: nat)
    requires i <= |rows|
    ensures forall j | i <= j < FirstEntry(rows, i) :: !Enters(rows[j].signal)
    decreases |rows| - i
  {
    if i < |rows| && !Enters(rows[i].signal) {
      NoEntryBefore(rows, i + 1);
    }
  }

  lemma {:induction false} NoExitBefore(rows: seq<Row>, i: nat, side: int)
    requires i <= |rows|
    ensures forall j | i <= j < FirstExit(rows, i, side) :: rows[j].signal != -side
    decreases |rows| - i
  {
    if i < |rows| && rows[i].signal != -side {
      NoExitBefore(rows, i + 1, side);
    }
  }

  /** A trip starts at the first entering signal and ends at the first opposite one. */
  lemma {:induction false} TripIsMatched(rows: seq<Row>, i: nat)
    requires i <= |rows| && Trips(rows, i) != []
    ensures var t := Trips(rows, i)[0];
            && Enters(rows[t.entry].signal) && t.side == rows[t.entry].signal
            && (t.end < |rows| ==> rows[t.end].signal == -t.side)
            && (forall j | i <= j < t.entry :: !Enters(rows[j].signal))
            && (forall j | t.entry < j < t.end :: rows[j].signal != -t.side)
  {
    NoEntryBefore(rows, i);
    NoExitBefore(rows, Trips(rows, i)[0].entry + 1, Trips(rows, i)[0].side);
  }

  /** A flat run goes to its first trip, and from the trip's end on to the rest. */
  lemma {:induction false} RunByTrip(rows: seq<Row>, i: nat, entry: real, commission: real)
    requires i <= |rows| && FirstEntry(rows, i) < |rows|
    ensures var t, r := Trips(rows, i)[0], Run(rows, i, 0, entry, commission);
            var price := rows[t.entry].close;
            if price == 0.0 then (r.Err? <==> t.entry + 1 < |rows|) && (r.Ok? ==> r.value.total == 0.0 && t.end == |rows|)
            else if t.end == |rows| then r.Ok? && r.value.total == 0.0
            else
              var rest := Run(rows, t.end + 1, 0, price, commission);
              && (r.Ok? <==> rest.Ok?)
              && (r.Ok? ==> r.value.total == Return(t.side, rows[t.end].close, price) - commission + rest.value.total)
  {
    FlatUntilEntry(rows, i, entry, commission);
    var e := FirstEntry(rows, i);
    if rows[e].close != 0.0 {
      HeldUntilExit(rows, e + 1, rows[e].signal, rows[e].close, commission);
    }
  }

  /** The run fails exactly on a zero division of some trip, and otherwise its total is the sum of the trips. */
  ghost predicate SumsTrips(r: Result<Pnl, PnlError>, rows: seq<Row>, trips: seq<Trip>, commission: real) {
    && (r.Err? <==> DividesByZero(rows, trips))
    && (r.Ok? ==> NonZeroEntries(rows, trips) && r.value.total == TripSum(rows, trips, commission))
  }

  /** One more trip in front of a run, given what it adds. */
  lemma {:induction false} SumsTripsStep(r: Result<Pnl, PnlError>, rest: Result<Pnl, PnlError>, rows: seq<Row>,
                                         t: Trip, later: seq<Trip>, gain: real, commission: real)
    requires t.entry < t.end < |rows| && rows[t.entry].close != 0.0
    requires gain == Return(t.side, rows[t.end].close, rows[t.entry].close)
    requires SumsTrips(rest, rows, later, commission)
    requires (r.Ok? <==> rest.Ok?) && (r.Ok? ==> r.value.total == gain - commission + rest.value.total)
    ensures SumsTrips(r, rows, [t] + later, commission)
  {
    assert ([t] + later)[1..] == later;
  }

  /**
    The total is the sum over matched entries and exits of the signed return less commission, and the
    computation fails exactly when some entry at price zero is followed by another row.
   */
  lemma {:induction false} TotalIsTripSum(rows: seq<Row>, i: nat, entry: real, commission: real)
    requires i <= |rows|
    ensures SumsTrips(Run(rows, i, 0, entry, commission), rows, Trips(rows, i), commission)
    decreases |rows| - i
  {
    var trips := Trips(rows, i);
    if trips == [] {
      FlatUntilEntry(rows, i, entry, commission);
    } else {
      var t := trips[0];
      TripsTail(rows, i);
      RunByTrip(rows, i, entry, commission);
      if t.end < |rows| && rows[t.entry].close != 0.0 {
        var price := rows[t.entry].close;
        TotalIsTripSum(rows, t.end + 1, price, commission);
        SumsTripsStep(Run(rows, i, 0, entry, commission), Run(rows, t.end + 1, 0, price, commission), rows,
                      t, trips[1..], Return(t.side, rows[t.end].close, price), commission);
        assert trips == [t] + trips[1..];
      }
    }
  }

  // ----- Commission and symmetry -----

  /** Commission is paid once per closed trip. */
  lemma {:induction false} CommissionPerTrip(rows: seq<Row>, trips: seq<Trip>, commission: real)
    requires NonZeroEntries(rows, trips)
    ensures TripSum(rows, trips, commission) ==
            TripSum(rows, trips, 0.0) - Times(ClosedTrips(rows, trips), commission)
  {
    if trips != [] {
      CommissionPerTrip(rows, trips[1..], commission);
    }
  }

  /** `total(c) == total(0) - c * closes`, for every run that does not fail. */
  lemma {:induction false} TotalByCommission(rows: seq<Row>, commission: real)
    ensures var r, free := Run(rows, 0, 0, 0.0, commission), Run(rows, 0, 0, 0.0, 0.0);
            && (r.Ok? <==> free.Ok?)
            && (r.Ok? ==> r.value.total == free.value.total - Times(ClosedTrips(rows, Trips(rows, 0)), commission))
  {
    TotalIsTripSum(rows, 0, 0.0, commission);
    TotalIsTripSum(rows, 0, 0.0, 0.0);
    if Run(rows, 0, 0, 0.0, commission).Ok? {
      CommissionPerTrip(rows, Trips(rows, 0), commission);
    }
  }

  ghost function Negated(rows: seq<Row>): (n: seq<Row>)
    ensures |n| == |rows| && forall k | 0 <= k < |rows| :: n[k] == Row(-rows[k].signal, rows[k].close)
  {
    seq(|rows|, k requires 0 <= k < |rows| => Row(-rows[k].signal, rows[k].close))
  }

  /** Both fail, or list and total of one are those of the other negated. */
  ghost predicate Opposites(r: Result<Pnl, PnlError>, n: Result<Pnl, PnlError>) {
    && (r.Ok? <==> n.Ok?)
    && (r.Ok? ==>
          && n.value.total == -r.value.total
          && |n.value.list| == |r.value.list|
          && forall k | 0 <= k < |r.value.list| :: n.value.list[k] == -r.value.list[k])
  }

  lemma {:induction false} BookedOpposite(b: Booking, n: Booking, r: Result<Pnl, PnlError>, r': Result<Pnl, PnlError>)
    requires n.x == -b.x && n.amount == -b.amount && Opposites(r, r')
    ensures Opposites(Booked(b.x, b.amount, r), Booked(n.x, n.amount, r'))
  {
  }

  lemma {:induction false} NextNegated(row: Row, side: int, entry: real)
    requires (side == 0 || entry != 0.0) && (side == 0 || side == 1 || side == -1)
    ensures var b := Next(row, side, entry, 0.0);
            Next(Row(-row.signal, row.close), -side, entry, 0.0) == Booking(-b.x, -b.amount, -b.side, b.entry)
  {
  }

  /** Without commission, negating every signal negates the list and the total. */
  lemma {:induction false} NegationSymmetry(rows: seq<Row>, i: nat, side: int, entry: real)
    requires i <= |rows| && (side == 0 || side == 1 || side == -1)
    ensures Opposites(Run(rows, i, side, entry, 0.0), Run(Negated(rows), i, -side, entry, 0.0))
    decreases |rows| - i
  {
    if i < |rows| && (side == 0 || entry != 0.0) {
      var b := Next(rows[i], side, entry, 0.0);
      NextNegated(rows[i], side, entry);
      NegationSymmetry(rows, i + 1, b.side, b.entry);
      BookedOpposite(b, Next(Negated(rows)[i], -side, entry, 0.0), Run(rows, i + 1, b.side, b.entry, 0.0),
                     Run(Negated(rows), i + 1, -b.side, b.entry, 0.0));
    }
  }

  // ----- The list -----

  /**
    Row `k` in terms of the trips: zero outside a trip and on its entry row, the signed return of the open
    position inside, less commission on the closing row.
   */
  ghost function MarkAt(rows: seq<Row>, trips: seq<Trip>, k: nat, commission: real): real
    requires k < |rows|
  {
    if trips == [] || k <= trips[0].entry then 0.0
    else if k > trips[0].end then MarkAt(rows, trips[1..], k, commission)
    else if rows[trips[0].entry].close == 0.0 then 0.0
    else
      Return(trips[0].side, rows[k].close, rows[trips[0].entry].close) - if k == trips[0].end then commission else 0.0
  }

  /** Up to the entry row the list is zero. */
  lemma {:induction false} FlatZero(rows: seq<Row>, i: nat, entry: real, commission: real, k: nat)
    requires i <= k < |rows| && k <= FirstEntry(rows, i) && Run(rows, i, 0, entry, commission).Ok?
    ensures Run(rows, i, 0, entry, commission).value.list[k - i] == 0.0
    decreases |rows| - i
  {
    if !Enters(rows[i].signal) && i < k {
      FlatZero(rows, i + 1, entry, commission, k);
    }
  }

  /** After the entry row, it is the list of the open position. */
  lemma {:induction false} FlatThenHeld(rows: seq<Row>, i: nat, entry: real, commission: real, k: nat)
    requires i <= k < |rows| && FirstEntry(rows, i) < k && Run(rows, i, 0, entry, commission).Ok?
    ensures var e := FirstEntry(rows, i);
            var rest := Run(rows, e + 1, rows[e].signal, rows[e].close, commission);
            rest.Ok? && Run(rows, i, 0, entry, commission).value.list[k - i] == rest.value.list[k - e - 1]
    decreases |rows| - i
  {
    if !Enters(rows[i].signal) && i < k {
      FlatThenHeld(rows, i + 1, entry, commission, k);
    }
  }

  /** Up to the closing row the list marks the position. */
  lemma {:induction false} HeldMark(rows: seq<Row>, i: nat, side: int, entry: real, commission: real, k: nat)
    requires i <= k < |rows| && k <= FirstExit(rows, i, side) && (side == 1 || side == -1) && entry != 0.0
    requires Run(rows, i, side, entry, commission).Ok?
    ensures Run(rows, i, side, entry, commission).value.list[k - i] ==
            Return(side, rows[k].close, entry) - if k == FirstExit(rows, i, side) then commission else 0.0
    decreases |rows| - i
  {
    if rows[i].signal != -side && i < k {
      HeldMark(rows, i + 1, side, entry, commission, k);
    }
  }

  /** After the closing row, it is the list of what follows. */
  lemma {:induction false} HeldThenFlat(rows: seq<Row>, i: nat, side: int, entry: real, commission: real, k: nat)
    requires i <= k < |rows| && FirstExit(rows, i, side) < k && (side == 1 || side == -1) && entry != 0.0
    requires Run(rows, i, side, entry, commission).Ok?
    ensures var x := FirstExit(rows, i, side);
            var rest := Run(rows, x + 1, 0, entry, commission);
            rest.Ok? && Run(rows, i, side, entry, commission).value.list[k - i] == rest.value.list[k - x - 1]
    decreases |rows| - i
  {
    if rows[i].signal != -side && i < k {
      HeldThenFlat(rows, i + 1, side, entry, commission, k);
    }
  }

  lemma {:induction false} ListWithinTrip(rows: seq<Row>, i: nat, entry: real, commission: real, k: nat)
    requires i <= k < |rows| && Run(rows, i, 0, entry, commission).Ok?
    requires Trips(rows, i) != [] && Trips(rows, i)[0].entry < k <= Trips(rows, i)[0].end
    ensures Run(rows, i, 0, entry, commission).value.list[k - i] == MarkAt(rows, Trips(rows, i), k, commission)
  {
    FlatThenHeld(rows, i, entry, commission, k);
    var e := FirstEntry(rows, i);
    HeldMark(rows, e + 1, rows[e].signal, rows[e].close, commission, k);
  }

  lemma {:induction false} ListAfterTrip(rows: seq<Row>, i: nat, entry: real, commission: real, k: nat)
    requires i <= k < |rows| && Run(rows, i, 0, entry, commission).Ok?
    requires Trips(rows, i) != [] && Trips(rows, i)[0].end < k
    ensures var t := Trips(rows, i)[0];
            var rest := Run(rows, t.end + 1, 0, rows[t.entry].close, commission);
            rest.Ok? && Run(rows, i, 0, entry, commission).value.list[k - i] == rest.value.list[k - t.end - 1]
  {
    FlatThenHeld(rows, i, entry, commission, k);
    var e := FirstEntry(rows, i);
    HeldThenFlat(rows, e + 1, rows[e].signal, rows[e].close, commission, k);
  }

  lemma {:induction false} MarkAfterTrip(rows: seq<Row>, i: nat, k: nat, commission: real)
    requires i <= k < |rows| && Trips(rows, i) != [] && Trips(rows, i)[0].end < k
    ensures MarkAt(rows, Trips(rows, i), k, commission) ==
            MarkAt(rows, Trips(rows, Trips(rows, i)[0].end + 1), k, commission)
  {
    TripsTail(rows, i);
  }

  lemma {:induction false} ListUpToTrip(rows: seq<Row>, i: nat, entry: real, commission: real, k: nat)
    requires i <= k < |rows| && Run(rows, i, 0, entry, commission).Ok?
    requires Trips(rows, i) == [] || k <= Trips(rows, i)[0].end
    ensures Run(rows, i, 0, entry, commission).value.list[k - i] == MarkAt(rows, Trips(rows, i), k, commission)
  {
    if Trips(rows, i) == [] || k <= Trips(rows, i)[0].entry {
      FlatZero(rows, i, entry, commission, k);
    } else {
      ListWithinTrip(rows, i, entry, commission, k);
    }
  }

  /** Every element of the list, in terms of the trips. */
  lemma {:induction false} ListIsMarks(rows: seq<Row>, i: nat, entry: real, commission: real, k: nat)
    requires i <= k < |rows| && Run(rows, i, 0, entry, commission).Ok?
    ensures Run(rows, i, 0, entry, commission).value.list[k - i] == MarkAt(rows, Trips(rows, i), k, commission)
    decreases |rows| - i
  {
    if Trips(rows, i) == [] || k <= Trips(rows, i)[0].end {
      ListUpToTrip(rows, i, entry, commission, k);
    } else {
      var t := Trips(rows, i)[0];
      ListAfterTrip(rows, i, entry, commission, k);
      ListIsMarks(rows, t.end + 1, rows[t.entry].close, commission, k);
      MarkAfterTrip(rows, i, k, commission);
    }
  }

  /** The list starts with 0.0, whatever the rows. */
  lemma {:induction false} ListStartsAtZero(rows: seq<Row>, commission: real)
    requires rows != [] && Run(rows, 0, 0, 0.0, commission).Ok?
    ensures Run(rows, 0, 0, 0.0, commission).value.list[0] == 0.0
  {
    FlatZero(rows, 0, 0.0, commission, 0);
  }
}
