/** The one-pass maximum drawdown of a cumulative series, against its definition over all pairs. */
module Drawdown {
  import opened SignalPnl
  import opened Wrappers

  /** Running totals. */
  function Cumulative(s: seq<real>): (c: seq<real>)
    ensures |c| == |s| && (s != [] ==> c[0] == s[0])
  {
    if s == [] then []
    else
      var front := Cumulative(s[..|s| - 1]);
      front + [if front == [] then s[0] else front[|front| - 1] + s[|s| - 1]]
  }

  /** Running maxima. */
  function RunningMax(c: seq<real>): (m: seq<real>)
    ensures |m| == |c|
  {
    if c == [] then []
    else
      var n := |c| - 1;
      var front := RunningMax(c[..n]);
      front + [if n > 0 && front[n - 1] > c[n] then front[n - 1] else c[n]]
  }

  /** Each running maximum is one of the values so far and bounds them all. */
  lemma {:induction false} RunningMaxIs(c: seq<real>, j: nat) returns (i: nat)
    requires j < |c|
    ensures i <= j && c[i] == RunningMax(c)[j]
    ensures forall k | 0 <= k <= j :: c[k] <= RunningMax(c)[j]
    decreases |c|
  {
    var n := |c| - 1;
    i := n;
    if j < n {
      i := RunningMaxIs(c[..n], j);
      assert forall k | 0 <= k <= j :: c[k] == c[..n][k];
    } else if n > 0 {
      var before := RunningMaxIs(c[..n], n - 1);
      assert forall k | 0 <= k < n :: c[k] == c[..n][k];
      if RunningMax(c[..n])[n - 1] > c[n] {
        i := before;
      }
    }
  }

  /** Percentage by which `value` lies below `peak`. */
  function Fall(peak: real, value: real): real
    requires peak != 0.0
  {
    (peak - value) / peak * 100.0
  }

  function MinOf(s: seq<real>): (m: real)
    requires s != []
    ensures m in s && forall i | 0 <= i < |s| :: m <= s[i]
  {
    if |s| == 1 then s[0]
    else
      var rest := MinOf(s[1..]);
      assert forall i | 0 < i < |s| :: s[i] == s[1..][i - 1];
      if s[0] < rest then s[0] else rest
  }

  function Abs(x: real): real { if x < 0.0 then -x else x }

  predicate NonZero(m: seq<real>) {
    forall j | 0 <= j < |m| :: m[j] != 0.0
  }

  /** The vector of changes from the running maximum, in percent of it. */
  function Drops(c: seq<real>): (d: seq<real>)
    requires NonZero(RunningMax(c))
    ensures |d| == |c|
  {
    var m := RunningMax(c);
    seq(|c|, j requires 0 <= j < |c| => -Fall(m[j], c[j]))
  }

  /**
    `calc_max_drawdown`. NumPy does not raise on a zero divisor; the first row with running maximum zero
    gives 0/0, which makes the minimum, and so the result, not a number. That is `None`.
   */
  function MaxDrawdown(pnlList: seq<real>): Option<real> {
    if pnlList == [] then Some(0.0)
    else if !NonZero(RunningMax(Cumulative(pnlList))) then None
    else Some(Abs(MinOf(Drops(Cumulative(pnlList)))))
  }

  /** Row `j` is zero, and every row before it is below zero. */
  ghost predicate ReachesZero(c: seq<real>, j: int) {
    0 <= j < |c| && c[j] == 0.0 && forall k | 0 <= k < j :: c[k] < 0.0
  }

  /** The series starts at zero or comes up from below to exactly zero. */
  ghost predicate TouchesZero(c: seq<real>) {
    exists j :: ReachesZero(c, j)
  }

  lemma {:induction false} ZeroReached(c: seq<real>, j: nat) returns (i: nat)
    requires j < |c| && RunningMax(c)[j] == 0.0
    ensures ReachesZero(c, i)
  {
    i := RunningMaxIs(c, j);
    while exists k: nat :: k < i && c[k] >= 0.0
      invariant i <= j && c[i] == 0.0
      decreases i
    {
      var k: nat :| k < i && c[k] >= 0.0;
      i := k;
    }
  }

  lemma {:induction false} ZeroPeakIffTouched(c: seq<real>)
    ensures !NonZero(RunningMax(c)) <==> TouchesZero(c)
  {
    if !NonZero(RunningMax(c)) {
      var j: nat :| j < |c| && RunningMax(c)[j] == 0.0;
      var i := ZeroReached(c, j);
    }
    if TouchesZero(c) {
      var j: nat :| ReachesZero(c, j);
      var i := RunningMaxIs(c, j);
      assert RunningMax(c)[j] == 0.0;
    }
  }

  /** The result is not a number exactly when the series starts at zero or comes up from below to exactly zero. */
  lemma {:induction false} NanIffReachesZero(s: seq<real>)
    ensures MaxDrawdown(s).None? <==> TouchesZero(Cumulative(s))
  {
    ZeroPeakIffTouched(Cumulative(s));
  }

  lemma {:induction false} StrictScale(x: real, y: real, b: real)
    requires b > 0.0 && x < y
    ensures x * b < y * b
  {
    assert (y - x) * b > 0.0;
  }

  lemma {:induction false} QuotientFallsStrictly(a: real, b: real, v: real)
    requires 0.0 < a < b && v > 0.0
    ensures v / b < v / a
  {
    var x, y := v / a, v / b;
    assert x * a == v && y * b == v && x > 0.0;
    assert x * (b - a) > 0.0;
    if x < y {
      StrictScale(x, y, b);
    }
  }

  lemma {:induction false} QuotientFalls(a: real, b: real, v: real)
    requires 0.0 < a < b && v >= 0.0
    ensures v / b <= v / a
  {
    if v > 0.0 {
      QuotientFallsStrictly(a, b, v);
    }
  }

  lemma {:induction false} Split(peak: real, v: real)
    requires peak > 0.0
    ensures Fall(peak, v) == (1.0 - v / peak) * 100.0
  {
    assert peak / peak == 1.0;
    assert (peak - v) / peak == peak / peak - v / peak;
  }

  /** The higher peak shows the larger fall of a value above zero, the smaller fall of one below. */
  lemma {:induction false} FallByPeak(a: real, b: real, v: real)
    requires 0.0 < a < b
    ensures Fall(a, v) <= Fall(b, v) <==> v >= 0.0
  {
    Split(a, v);
    Split(b, v);
    if v >= 0.0 {
      QuotientFalls(a, b, v);
    } else {
      QuotientFallsStrictly(a, b, -v);
      assert v / a == -((-v) / a) && v / b == -((-v) / b);
    }
  }

  lemma {:induction false} FallSign(peak: real, v: real)
    requires peak > 0.0 && v <= peak
    ensures Fall(peak, v) >= 0.0
  {
    assert (peak - v) / peak >= 0.0;
  }

  /**
    The drop that the scan computes for row `b` covers the fall from an earlier positive value if and only
    if the row is not below zero, or that value is the running maximum itself.
   */
  lemma {:induction false} RowCovers(c: seq<real>, a: nat, b: nat)
    requires NonZero(RunningMax(c)) && a <= b < |c| && c[a] > 0.0
    ensures Drops(c)[b] <= 0.0
    ensures Fall(c[a], c[b]) <= -Drops(c)[b] <==> c[b] >= 0.0 || c[a] == RunningMax(c)[b]
  {
    var m := RunningMax(c)[b];
    var i := RunningMaxIs(c, b);
    assert c[b] <= m && c[a] <= m;
    FallSign(m, c[b]);
    if c[a] < m {
      FallByPeak(c[a], m, c[b]);
    }
  }

  /** `i` is a positive high as of row `j`. */
  ghost predicate PeakAt(c: seq<real>, i: int, j: int) {
    0 <= i <= j < |c| && c[i] > 0.0 && forall k | 0 <= k <= j :: c[k] <= c[i]
  }

  /** A row whose running maximum is not positive contributes nothing below zero, the first row zero. */
  lemma {:induction false} RowSign(c: seq<real>, j: nat)
    requires NonZero(RunningMax(c)) && j < |c|
    ensures RunningMax(c)[j] < 0.0 ==> Drops(c)[j] >= 0.0
    ensures Drops(c)[0] == 0.0
  {
    var i := RunningMaxIs(c, j);
    var i0 := RunningMaxIs(c, 0);
    var m, v := RunningMax(c)[j], c[j];
    assert v <= m;
    if m < 0.0 {
      assert (m - v) / m <= 0.0;
    }
    assert (c[0] - c[0]) / c[0] == 0.0;
  }

  /** The result, when it is a number, is zero or the fall of some row from its peak; it is never negative. */
  lemma {:induction false} ScanAttained(s: seq<real>) returns (i: nat, j: nat)
    requires s != [] && MaxDrawdown(s).Some?
    ensures j < |s| && MaxDrawdown(s).value == -Drops(Cumulative(s))[j] && Drops(Cumulative(s))[j] <= 0.0
    ensures forall b | 0 <= b < |s| :: Drops(Cumulative(s))[j] <= Drops(Cumulative(s))[b]
    ensures MaxDrawdown(s).value == 0.0 ||
            (PeakAt(Cumulative(s), i, j) && MaxDrawdown(s).value == Fall(Cumulative(s)[i], Cumulative(s)[j]))
  {
    var c := Cumulative(s);
    var d := Drops(c);
    j :| 0 <= j < |d| && d[j] == MinOf(d);
    RowSign(c, j);
    i := RunningMaxIs(c, j);
  }

  /**
    The maximum drawdown is the largest percentage fall of a row from the highest value up to it, where that
    is positive, and zero without one.
   */
  lemma {:induction false} ScanIsPeakFall(s: seq<real>)
    requires MaxDrawdown(s).Some?
    ensures var c, d := Cumulative(s), MaxDrawdown(s).value;
            && d >= 0.0
            && (forall i, j | PeakAt(c, i, j) :: Fall(c[i], c[j]) <= d)
            && (d == 0.0 || exists i, j :: PeakAt(c, i, j) && d == Fall(c[i], c[j]))
  {
    var c, d := Cumulative(s), MaxDrawdown(s).value;
    if s != [] {
      var p, q := ScanAttained(s);
      forall i, j | PeakAt(c, i, j) ensures Fall(c[i], c[j]) <= d {
        var k := RunningMaxIs(c, j);
        RowCovers(c, i, j);
      }
    }
  }

  /** `d` is the largest percentage drop from an earlier or equal positive point to a later one. */
  ghost predicate LargestDrop(c: seq<real>, d: real) {
    && (exists i, j :: 0 <= i <= j < |c| && c[i] > 0.0 && d == Fall(c[i], c[j]))
    && (forall i, j | 0 <= i <= j < |c| && c[i] > 0.0 :: Fall(c[i], c[j]) <= d)
  }

  /** Row `j` is below zero, after a positive row `i`. */
  ghost predicate Sinks(c: seq<real>, i: int, j: int) {
    0 <= i <= j < |c| && c[i] > 0.0 && c[j] < 0.0
  }

  ghost predicate NeverSinks(c: seq<real>) {
    forall i, j :: !Sinks(c, i, j)
  }

  /** No fall from a positive row to one below zero is larger than that from `i` to `j`. */
  ghost predicate DeepestSink(c: seq<real>, i: int, j: int) {
    Sinks(c, i, j) && forall a, b | Sinks(c, a, b) :: Fall(c[a], c[b]) <= Fall(c[i], c[j])
  }

  /** The deepest one starts at the highest value so far. */
  ghost predicate SinksFromPeak(c: seq<real>) {
    exists i, j :: DeepestSink(c, i, j) && PeakAt(c, i, j)
  }

  lemma {:induction false} FallSize(peak: real, v: real)
    requires peak > 0.0
    ensures Fall(peak, v) > 100.0 <==> v < 0.0
  {
    Split(peak, v);
    var q := v / peak;
    assert q * peak == v;
    if q >= 0.0 {
      assert q * peak >= 0.0;
    } else {
      assert (-q) * peak > 0.0;
    }
  }

  /** Where rows sink below zero, the row that the scan picks is one of them. */
  lemma {:induction false} ScanSinks(s: seq<real>, a: nat, b: nat) returns (i: nat, j: nat)
    requires s != [] && MaxDrawdown(s).Some? && Sinks(Cumulative(s), a, b)
    ensures Sinks(Cumulative(s), i, j) && PeakAt(Cumulative(s), i, j)
    ensures MaxDrawdown(s).value == Fall(Cumulative(s)[i], Cumulative(s)[j])
  {
    var c := Cumulative(s);
    i, j := ScanAttained(s);
    var k := RunningMaxIs(c, b);
    RowCovers(c, k, b);
    FallSize(c[k], c[b]);
    if MaxDrawdown(s).value != 0.0 {
      FallSize(c[i], c[j]);
    }
  }

  lemma {:induction false} ScanCoversPairs(s: seq<real>)
    requires s != [] && MaxDrawdown(s).Some?
    requires NeverSinks(Cumulative(s)) || SinksFromPeak(Cumulative(s))
    ensures forall a, b | 0 <= a <= b < |s| && Cumulative(s)[a] > 0.0 ::
              Fall(Cumulative(s)[a], Cumulative(s)[b]) <= MaxDrawdown(s).value
  {
    var c := Cumulative(s);
    var i', j' := ScanAttained(s);
    forall a: nat, b: nat | a <= b < |s| && c[a] > 0.0 ensures Fall(c[a], c[b]) <= MaxDrawdown(s).value {
      RowCovers(c, a, b);
      if c[b] < 0.0 {
        assert Sinks(c, a, b);
        ScanIsPeakFall(s);
      }
    }
  }

  /**
    With some positive row, the scan finds the largest drop over all pairs of rows if and only if no row sinks
    below zero after a positive one, or the deepest such fall starts at the highest value so far.
   */
  lemma {:induction false} ScanIsLargestDrop(s: seq<real>, k: nat)
    requires k < |s| && Cumulative(s)[k] > 0.0 && MaxDrawdown(s).Some?
    ensures LargestDrop(Cumulative(s), MaxDrawdown(s).value) <==>
            NeverSinks(Cumulative(s)) || SinksFromPeak(Cumulative(s))
  {
    var c, d := Cumulative(s), MaxDrawdown(s).value;
    if LargestDrop(c, d) && !NeverSinks(c) {
      var a: nat, b: nat :| Sinks(c, a, b);
      var i, j := ScanSinks(s, a, b);
      assert DeepestSink(c, i, j);
    }
    if NeverSinks(c) || SinksFromPeak(c) {
      ScanCoversPairs(s);
      var i, j := ScanAttained(s);
      assert Fall(c[k], c[k]) == 0.0;
    }
  }

  lemma {:induction false} CumulativeAt(s: seq<real>, j: nat)
    requires j < |s|
    ensures Cumulative(s)[j] == if j == 0 then s[0] else Cumulative(s)[j - 1] + s[j]
    decreases |s|
  {
    if j < |s| - 1 {
      CumulativeAt(s[..|s| - 1], j);
    }
  }

  lemma {:induction false} RunningMaxAt(c: seq<real>, j: nat)
    requires j < |c|
    ensures RunningMax(c)[j] == if j > 0 && RunningMax(c)[j - 1] > c[j] then RunningMax(c)[j - 1] else c[j]
    decreases |c|
  {
    if j < |c| - 1 {
      RunningMaxAt(c[..|c| - 1], j);
    }
  }

  /**
    Below zero the scan can miss it: gains of 1, 1 and -3 go through 1, 2 and -1; the scan sees the drop of
    150 % from 2, not the one of 200 % from 1.
   */
  lemma {:induction false} ScanMissesBelowZero(s: seq<real>)
    requires |s| == 3 && s[0] == 1.0 && s[1] == 1.0 && s[2] == -3.0
    ensures MaxDrawdown(s) == Some(150.0) && Fall(Cumulative(s)[0], Cumulative(s)[2]) == 200.0
    ensures !LargestDrop(Cumulative(s), 150.0)
  {
    var c := Cumulative(s);
    CumulativeAt(s, 0);
    CumulativeAt(s, 1);
    CumulativeAt(s, 2);
    RunningMaxAt(c, 0);
    RunningMaxAt(c, 1);
    RunningMaxAt(c, 2);
    var d := Drops(c);
    assert d[0] == 0.0 && d[1] == 0.0 && d[2] == -150.0;
    assert MinOf(d) <= d[2];
    var k :| 0 <= k < |d| && d[k] == MinOf(d);
    assert MinOf(d) == -150.0;
  }

  /**
    The list that the profit-and-loss machine produces starts with 0.0, so the drawdown that `calc_metrics`
    reports is not a number for any data on which that machine succeeds.
   */
  lemma {:induction false} PnlDrawdownIsNan(rows: seq<Row>, commission: real)
    requires rows != [] && Run(rows, 0, 0, 0.0, commission).Ok?
    ensures MaxDrawdown(Run(rows, 0, 0, 0.0, commission).value.list).None?
  {
    ListStartsAtZero(rows, commission);
    var list := Run(rows, 0, 0, 0.0, commission).value.list;
    NanIffReachesZero(list);
    assert ReachesZero(Cumulative(list), 0);
  }
}
