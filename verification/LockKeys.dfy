/** The keys of job locks: which targets share a lock. */
module LockKeys {
  import opened CacheKeys
  import opened Wrappers

  /** What `job_lock` is asked to lock. */
  datatype Target = Target(job: string, symbol: Option<string>, timeframe: Option<string>)

  /** A part that is absent or empty is not used. */
  function Given(part: Option<string>): seq<string> {
    if part.Some? && part.value != [] then [part.value] else []
  }

  function Parts(t: Target): seq<string> { [t.job] + Given(t.symbol) + Given(t.timeframe) }

  function LockKey(ns: string, t: Target): string {
    Joined(NonEmpty([ns, "lock"] + Parts(t)))
  }

  lemma {:induction false} LockKeyShape(ns: string, t: Target)
    ensures var base, parts := Joined(NonEmpty([ns, "lock"])), NonEmpty(Parts(t));
            LockKey(ns, t) == if parts == [] then base else base + [':'] + Joined(parts)
  {
    NonEmptyConcat([ns, "lock"], Parts(t));
    NonEmptyConcat([ns], ["lock"]);
    assert [ns, "lock"] == [ns] + ["lock"];
    assert NonEmpty(["lock"]) == ["lock"];
    if NonEmpty(Parts(t)) == [] {
      assert NonEmpty([ns, "lock"]) + [] == NonEmpty([ns, "lock"]);
    } else {
      JoinedConcat(NonEmpty([ns, "lock"]), NonEmpty(Parts(t)));
    }
  }

  /** Targets with colon-free parts share a lock if and only if their non-empty parts are the same list. */
  lemma {:induction false} SharedIff(ns: string, t: Target, u: Target)
    requires ColonFree(Parts(t)) && ColonFree(Parts(u))
    ensures LockKey(ns, t) == LockKey(ns, u) <==> NonEmpty(Parts(t)) == NonEmpty(Parts(u))
  {
    LockKeyShape(ns, t);
    LockKeyShape(ns, u);
    var base, a, b := Joined(NonEmpty([ns, "lock"])), NonEmpty(Parts(t)), NonEmpty(Parts(u));
    if LockKey(ns, t) == LockKey(ns, u) && a != [] && b != [] {
      assert (base + [':'] + Joined(a))[|base| + 1..] == Joined(a);
      assert (base + [':'] + Joined(b))[|base| + 1..] == Joined(b);
      NonEmptyIsClean(Parts(t));
      NonEmptyIsClean(Parts(u));
      JoinedInjective(a, b);
    }
  }

  lemma {:induction false} NonEmptyParts(t: Target)
    requires t.job != []
    ensures NonEmpty(Parts(t)) == [t.job] + (Given(t.symbol) + Given(t.timeframe))
  {
    NonEmptyConcat([t.job] + Given(t.symbol), Given(t.timeframe));
    NonEmptyConcat([t.job], Given(t.symbol));
  }

  /** A part's text; an absent one is like an empty one. */
  function Text(part: Option<string>): string {
    if part.Some? then part.value else []
  }

  /** Two lists of at most one element each, put together. */
  lemma {:induction false} SameConcat(a: seq<string>, b: seq<string>, c: seq<string>, d: seq<string>)
    requires |a| <= 1 && |b| <= 1 && |c| <= 1 && |d| <= 1
    ensures a + b == c + d <==> (a == c && b == d) || (a == d && b == c == []) || (b == c && a == d == [])
  {
    var x, y := a + b, c + d;
    if x == y {
      assert |a| + |b| == |c| + |d|;
      if |a| == |c| {
        assert a == x[..|a|] && b == x[|a|..] && c == y[..|a|] && d == y[|a|..];
      } else if |a| == 1 {
        assert a == x && d == y;
      } else {
        assert b == x && c == y;
      }
    }
  }

  /**
    For named jobs: exactly when the job is the same and so are symbol and timeframe, or one target names only a
    symbol and the other only a timeframe of the same text.
   */
  lemma {:induction false} SharedTargets(ns: string, t: Target, u: Target)
    requires t.job != [] && u.job != [] && ColonFree(Parts(t)) && ColonFree(Parts(u))
    ensures LockKey(ns, t) == LockKey(ns, u) <==>
            && t.job == u.job
            && (|| (Text(t.symbol) == Text(u.symbol) && Text(t.timeframe) == Text(u.timeframe))
                || (Text(t.symbol) == Text(u.timeframe) && Text(t.timeframe) == Text(u.symbol) == [])
                || (Text(t.timeframe) == Text(u.symbol) && Text(t.symbol) == Text(u.timeframe) == []))
  {
    SharedIff(ns, t, u);
    NonEmptyParts(t);
    NonEmptyParts(u);
    var a, b := [t.job] + (Given(t.symbol) + Given(t.timeframe)), [u.job] + (Given(u.symbol) + Given(u.timeframe));
    assert a[0] == t.job && a[1..] == Given(t.symbol) + Given(t.timeframe);
    assert b[0] == u.job && b[1..] == Given(u.symbol) + Given(u.timeframe);
    SameConcat(Given(t.symbol), Given(t.timeframe), Given(u.symbol), Given(u.timeframe));
  }

  /** So a lock for a symbol and one for a timeframe of the same name are one lock. */
  lemma {:induction false} SymbolIsTimeframe(ns: string, job: string, x: string)
    ensures LockKey(ns, Target(job, Some(x), None)) == LockKey(ns, Target(job, None, Some(x)))
  {
    assert Parts(Target(job, Some(x), None)) == Parts(Target(job, None, Some(x)));
  }

  /** The word after the prefix stands at the same place in every key. */
  lemma {:induction false} WordAfterPrefix(ns: string, word: string, parts: seq<string>)
    requires word != []
    ensures var key, k := Joined(NonEmpty([ns, word] + parts)), if ns == [] then 0 else |ns| + 1;
            k < |key| && key[k] == word[0]
  {
    assert [ns, word] + parts == [ns] + ([word] + parts);
    NonEmptyConcat([ns], [word] + parts);
    NonEmptyConcat([word], parts);
    var rest := NonEmpty([word] + parts);
    assert rest == [word] + NonEmpty(parts);
    if NonEmpty(parts) != [] {
      JoinedConcat([word], NonEmpty(parts));
    } else {
      assert rest == [word];
    }
    if ns != [] {
      assert NonEmpty([ns]) == [ns];
      JoinedConcat([ns], rest);
    } else {
      assert NonEmpty([ns]) + rest == rest;
    }
  }

  /** No lock is a cached value. */
  lemma {:induction false} LockIsNotCached(ns: string, t: Target, r: Request)
    ensures LockKey(ns, t) != Key(ns, r)
  {
    WordAfterPrefix(ns, "lock", Parts(t));
    WordAfterPrefix(ns, "cache", [Name(r.group)] + r.parts);
    assert [ns, "cache", Name(r.group)] + r.parts == [ns, "cache"] + ([Name(r.group)] + r.parts);
    var k := if ns == [] then 0 else |ns| + 1;
    assert LockKey(ns, t)[k] == 'l' && Key(ns, r)[k] == 'c';
  }

  /** Optional text after a colon. */
  function Suffix(text: string): string {
    if text == [] then [] else [':'] + text
  }

  lemma {:induction false} JoinedParts(job: string, symbol: seq<string>, timeframe: seq<string>)
    requires |symbol| <= 1 && |timeframe| <= 1
    requires (symbol != [] ==> symbol[0] != []) && (timeframe != [] ==> timeframe[0] != [])
    ensures Joined([job] + (symbol + timeframe)) ==
            job + Suffix(if symbol == [] then [] else symbol[0]) + Suffix(if timeframe == [] then [] else timeframe[0])
  {
    if symbol == [] && timeframe == [] {
      assert [job] + (symbol + timeframe) == [job];
    } else if symbol == [] {
      assert symbol + timeframe == timeframe == [timeframe[0]];
      JoinedConcat([job], timeframe);
    } else if timeframe == [] {
      assert symbol + timeframe == symbol == [symbol[0]];
      JoinedConcat([job], symbol);
    } else {
      assert symbol == [symbol[0]] && timeframe == [timeframe[0]];
      JoinedConcat([job], symbol + timeframe);
      JoinedConcat(symbol, timeframe);
    }
  }

  lemma {:induction false} AfterLock(ns: string, text: string)
    ensures ns + [':'] + "lock" + [':'] + text == ns + ":lock:" + text
  {
    assert [':'] + "lock" + [':'] == ":lock:";
    assert ns + [':'] + "lock" + [':'] + text == ns + ([':'] + "lock" + [':']) + text;
  }

  /** The text of a lock's key: the prefix, the job, and the symbol and timeframe that are given. */
  lemma {:induction false} LockKeyText(ns: string, t: Target)
    requires ns != [] && t.job != []
    ensures LockKey(ns, t) == ns + ":lock:" + (t.job + Suffix(Text(t.symbol)) + Suffix(Text(t.timeframe)))
  {
    var text := t.job + Suffix(Text(t.symbol)) + Suffix(Text(t.timeframe));
    assert Joined(NonEmpty(Parts(t))) == text by {
      NonEmptyParts(t);
      JoinedParts(t.job, Given(t.symbol), Given(t.timeframe));
    }
    assert NonEmpty(Parts(t)) != [] by {
      NonEmptyParts(t);
    }
    assert LockKey(ns, t) == ns + [':'] + "lock" + [':'] + text by {
      LockKeyShape(ns, t);
      BaseText(ns, "lock");
    }
    AfterLock(ns, text);
  }
}
