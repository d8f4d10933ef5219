/** Finite sets of timestamps: extremes, ascending enumeration, and how many spaced ones fit a window. */
module Timestamps {

  lemma {:induction false} HasMember(s: set<int>)
    requires s != {}
    ensures exists x :: x in s
  {
    if forall x :: x !in s {}
  }

  lemma {:induction false} OldestExists(s: set<int>)
    requires s != {}
    ensures exists m :: m in s && forall x | x in s :: m <= x
  {
    HasMember(s);
    var x :| x in s;
    var rest := s - {x};
    if rest != {} {
      OldestExists(rest);
      var m :| m in rest && forall y | y in rest :: m <= y;
      var least := if m <= x then m else x;
      forall y | y in s ensures least <= y {
        assert y == x || y in rest;
      }
      assert least in s;
    } else {
      forall y | y in s ensures x <= y {
        assert y == x || y in rest;
      }
    }
  }

  lemma {:induction false} NewestExists(s: set<int>)
    requires s != {}
    ensures exists m :: m in s && forall x | x in s :: x <= m
  {
    HasMember(s);
    var x :| x in s;
    var rest := s - {x};
    if rest != {} {
      NewestExists(rest);
      var m :| m in rest && forall y | y in rest :: y <= m;
      var greatest := if x <= m then m else x;
      forall y | y in s ensures y <= greatest {
        assert y == x || y in rest;
      }
      assert greatest in s;
    } else {
      forall y | y in s ensures y <= x {
        assert y == x || y in rest;
      }
    }
  }

  /** Python's `min` over the keys of a dictionary. */
  function Oldest(s: set<int>): (m: int)
    requires s != {}
    ensures m in s && forall x | x in s :: m <= x
  {
    OldestExists(s);
    var m :| m in s && forall x | x in s :: m <= x;
    m
  }

  /** Python's `max` over the keys of a dictionary. */
  function Newest(s: set<int>): (m: int)
    requires s != {}
    ensures m in s && forall x | x in s :: x <= m
  {
    NewestExists(s);
    var m :| m in s && forall x | x in s :: x <= m;
    m
  }

  /** Python's `sorted` over the keys of a dictionary. */
  function Ascending(s: set<int>): seq<int> {
    if s == {} then []
    else
      var m := Oldest(s);
      [m] + Ascending(s - {m})
  }

  lemma {:induction false} AscendingMembers(s: set<int>)
    ensures forall x :: x in Ascending(s) <==> x in s
    ensures |Ascending(s)| == |s|
  {
    if s != {} {
      var m := Oldest(s);
      AscendingMembers(s - {m});
      assert forall x :: x in [m] + Ascending(s - {m}) <==> x == m || x in Ascending(s - {m});
    }
  }

  predicate Increasing(r: seq<int>) {
    forall i, j | 0 <= i < j < |r| :: r[i] < r[j]
  }

  lemma {:induction false} AscendingIncreases(s: set<int>)
    ensures Increasing(Ascending(s))
  {
    if s != {} {
      var m := Oldest(s);
      var rest := Ascending(s - {m});
      AscendingIncreases(s - {m});
      AscendingMembers(s - {m});
      forall i | 0 <= i < |rest| ensures m < rest[i] {
        assert rest[i] in rest;
      }
    }
  }

  /** `Ascending` is the only strictly increasing listing of a set. */
  lemma {:induction false} AscendingUnique(s: set<int>, r: seq<int>)
    requires Increasing(r) && s == set x | x in r
    ensures r == Ascending(s)
    decreases |r|
  {
    if r != [] {
      var rest := r[1..];
      assert r == [r[0]] + rest;
      assert r[0] in r && r[0] in s;
      var m := Oldest(s);
      var j :| 0 <= j < |r| && r[j] == m;
      assert m == r[0];
      assert s - {m} == set x | x in rest by {
        assert r[0] !in rest;
      }
      AscendingUnique(s - {m}, rest);
    }
  }

  /** The length of `n` bars. */
  ghost function Span(n: nat, tf: int): int {
    if n == 0 then 0 else Span(n - 1, tf) + tf
  }

  lemma {:induction false} SpanIsProduct(n: nat, tf: int)
    ensures Span(n, tf) == n * tf
  {
    if n > 0 {
      SpanIsProduct(n - 1, tf);
      assert n * tf == (n - 1) * tf + tf;
    }
  }

  lemma {:induction false} SpanSign(n: nat, tf: int)
    requires tf > 0
    ensures Span(n, tf) >= n
  {
    if n > 0 {
      SpanSign(n - 1, tf);
    }
  }

  /** Any two members lie at least `tf` apart, as candle open times of one timeframe do. */
  ghost predicate Spaced(s: set<int>, tf: int) {
    forall a, b | a in s && b in s && a < b :: b - a >= tf
  }

  /** A half-open window no longer than `n` bars holds at most `n` spaced timestamps. */
  lemma {:induction false} SpacedCount(s: set<int>, tf: int, lo: int, hi: int, n: nat)
    requires tf > 0 && Spaced(s, tf)
    requires forall x | x in s :: lo <= x < hi
    requires hi - lo <= Span(n, tf)
    ensures |s| <= n
    decreases n
  {
    if s != {} {
      var m := Newest(s);
      assert n > 0;
      var rest := s - {m};
      assert forall x | x in rest :: lo <= x < m - tf + 1;
      SpacedCount(rest, tf, lo, m - tf + 1, n - 1);
      assert |s| == |rest| + 1;
    }
  }

  /** A subset with as many members as the whole is the whole. */
  lemma {:induction false} FullSubset(a: set<int>, b: set<int>)
    requires a <= b && |a| >= |b|
    ensures a == b
  {
    assert b == a + (b - a);
    assert |b| == |a| + |b - a|;
  }
}
