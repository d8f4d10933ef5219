/**
  The read-through cache as a protocol: calls of `get_cached` interleave with each other, with
  invalidations, with expiry and with Redis failures. Values are JSON texts.
 */
module ReadThroughCache {
  import opened CacheKeys
  import opened Timestamps
  import opened Wrappers

  datatype Config = Config(ns: string, metadataTtlMs: nat, listTtlMs: nat, timestampTtlMs: nat)

  function Ttl(c: Config, g: Group): nat {
    match g
    case ExchangeMetadata => c.metadataTtlMs
    case InstrumentList => c.listTtlMs
    case LastTimestamp => c.timestampTtlMs
  }

  /** A completed loader run: what was asked for, what it gave, which call made it, and whether in our process. */
  datatype Loaded = Loaded(request: Request, value: string, caller: nat, ours: bool)

  /** A stored value, the loader run it came from, when it was written and when it goes. */
  datatype Entry = Entry(value: string, load: nat, written: int, expires: int)

  datatype Phase =
    | Reading
    | Loading
    | Writing(load: nat)
    | FromCache(value: string, load: nat, readAt: int, written: int)
    | FromLoader(value: string, load: nat)
    | LoaderFailed

  /** A call of `get_cached`, in the process whose counters are observed or in another one. */
  datatype Call = Call(request: Request, phase: Phase, ours: bool)

  /**
    `hits` and `misses` are the counters of the observed process, any one of those that share the store.
    `loads` records all loader runs, `raised` and `garbled` what happened in that process.
   */
  datatype State = State(now: int, store: map<string, Entry>, calls: map<nat, Call>, loads: seq<Loaded>,
                         raised: nat, garbled: nat, hits: nat, misses: nat)

  datatype Step =
    | Tick(ms: nat)
    | Expire(gone: string)
    | Start(c: nat, request: Request, ours: bool)
    | ReadHit(c: nat)                          // GET returns a value
    | ReadGarbled(c: nat)                      // GET returns a text that does not parse
    | ReadAbsent(c: nat)                       // GET returns nothing
    | ReadFails(c: nat)                        // Redis is unavailable
    | LoaderReturns(c: nat, value: string)
    | LoaderRaises(c: nat)
    | Write(c: nat, stored: bool)              // SET EX, or its failure
    | Delete(keys: set<string>)                // an invalidation by anyone

  predicate InPhase(s: State, c: nat, p: Phase) { c in s.calls && s.calls[c].phase == p }

  predicate Live(s: State, key: string) { key in s.store && s.now < s.store[key].expires }

  function CallKey(cfg: Config, s: State, c: nat): string
    requires c in s.calls
  {
    Key(cfg.ns, s.calls[c].request)
  }

  predicate Enabled(cfg: Config, s: State, a: Step) {
    match a
    case Tick(_) => true
    case Expire(key) => key in s.store && s.store[key].expires <= s.now
    case Start(c, _, _) => c !in s.calls
    case ReadHit(c) => InPhase(s, c, Reading) && Live(s, CallKey(cfg, s, c))
    case ReadGarbled(c) => InPhase(s, c, Reading) && Live(s, CallKey(cfg, s, c))
    case ReadAbsent(c) => InPhase(s, c, Reading) && !Live(s, CallKey(cfg, s, c))
    case ReadFails(c) => InPhase(s, c, Reading)
    case LoaderReturns(c, _) => InPhase(s, c, Loading)
    case LoaderRaises(c) => InPhase(s, c, Loading)
    case Write(c, _) => c in s.calls && s.calls[c].phase.Writing? && s.calls[c].phase.load < |s.loads|
    case Delete(_) => true
  }

  function Set(s: State, c: nat, p: Phase): map<nat, Call>
    requires c in s.calls
  {
    s.calls[c := s.calls[c].(phase := p)]
  }

  /** One, if the call is of the observed process. */
  function Counted(s: State, c: nat): nat
    requires c in s.calls
  {
    if s.calls[c].ours then 1 else 0
  }

  function Apply(cfg: Config, s: State, a: Step): State
    requires Enabled(cfg, s, a)
  {
    match a
    case Tick(ms) => s.(now := s.now + ms)
    case Expire(key) => s.(store := s.store - {key})
    case Start(c, request, ours) => s.(calls := s.calls[c := Call(request, Reading, ours)])
    case ReadHit(c) =>
      var e := s.store[CallKey(cfg, s, c)];
      s.(calls := Set(s, c, FromCache(e.value, e.load, s.now, e.written)), hits := s.hits + Counted(s, c))
    case ReadGarbled(c) =>
      var n := Counted(s, c);
      s.(calls := Set(s, c, Loading), garbled := s.garbled + n, hits := s.hits + n, misses := s.misses + n)
    case ReadAbsent(c) => s.(calls := Set(s, c, Loading), misses := s.misses + Counted(s, c))
    case ReadFails(c) => s.(calls := Set(s, c, Loading), misses := s.misses + Counted(s, c))
    case LoaderReturns(c, value) =>
      s.(calls := Set(s, c, Writing(|s.loads|)),
         loads := s.loads + [Loaded(s.calls[c].request, value, c, s.calls[c].ours)])
    case LoaderRaises(c) => s.(calls := Set(s, c, LoaderFailed), raised := s.raised + Counted(s, c))
    case Write(c, stored) =>
      var l := s.calls[c].phase.load;
      var entry := Entry(s.loads[l].value, l, s.now, s.now + Ttl(cfg, s.calls[c].request.group));
      s.(calls := Set(s, c, FromLoader(s.loads[l].value, l)),
         store := if stored then s.store[CallKey(cfg, s, c) := entry] else s.store)
    case Delete(keys) => s.(store := s.store - keys)
  }

  /**
    Nothing protects a call: at any time the clock may move, expired entries may go, keys may be deleted and new calls
    begin; every read may fail, every loader may raise, and every write may work or fail.
   */
  lemma {:induction false} AnythingMayHappen(cfg: Config, s: State, c: nat, key: string, ms: nat, r: Request, v: string,
                                             keys: set<string>)
    ensures Enabled(cfg, s, Tick(ms)) && Enabled(cfg, s, Delete(keys))
    ensures key in s.store && s.store[key].expires <= s.now ==> Enabled(cfg, s, Expire(key))
    ensures c !in s.calls ==> Enabled(cfg, s, Start(c, r, true)) && Enabled(cfg, s, Start(c, r, false))
    ensures c in s.calls && s.calls[c].phase == Reading ==>
              && Enabled(cfg, s, ReadFails(c))
              && (Enabled(cfg, s, ReadAbsent(c)) || (Enabled(cfg, s, ReadHit(c)) && Enabled(cfg, s, ReadGarbled(c))))
    ensures c in s.calls && s.calls[c].phase == Loading ==>
              Enabled(cfg, s, LoaderReturns(c, v)) && Enabled(cfg, s, LoaderRaises(c))
    ensures c in s.calls && s.calls[c].phase.Writing? && s.calls[c].phase.load < |s.loads| ==>
              Enabled(cfg, s, Write(c, true)) && Enabled(cfg, s, Write(c, false))
  {
  }

  ghost predicate Run(cfg: Config, s: State, steps: seq<Step>, t: State)
    decreases |steps|
  {
    if steps == [] then s == t
    else Enabled(cfg, s, steps[0]) && Run(cfg, Apply(cfg, s, steps[0]), steps[1..], t)
  }

  ghost predicate Init(s: State) {
    s.store == map[] && s.calls == map[] && s.loads == [] && s.raised == s.garbled == s.hits == s.misses == 0
  }

  // ----- The invariant -----

  /** A stored value is the result of a loader run for the same key, kept for the ttl of its group. */
  ghost predicate EntryBacked(cfg: Config, s: State, key: string, e: Entry) {
    && e.load < |s.loads|
    && e.value == s.loads[e.load].value
    && key == Key(cfg.ns, s.loads[e.load].request)
    && e.written <= s.now
    && e.expires == e.written + Ttl(cfg, s.loads[e.load].request.group)
  }

  ghost predicate CallBacked(cfg: Config, s: State, c: nat, call: Call) {
    match call.phase
    case Writing(l) => l < |s.loads| && s.loads[l] == Loaded(call.request, s.loads[l].value, c, call.ours)
    case FromLoader(v, l) => l < |s.loads| && s.loads[l] == Loaded(call.request, v, c, call.ours)
    case FromCache(v, l, readAt, written) =>
      && l < |s.loads|
      && v == s.loads[l].value
      && Key(cfg.ns, call.request) == Key(cfg.ns, s.loads[l].request)
      && written <= readAt < written + Ttl(cfg, s.loads[l].request.group)
    case _ => true
  }

  /** The observed process's calls whose loader is running. */
  ghost function InFlight(s: State): set<nat> {
    set c | c in s.calls && s.calls[c].ours && s.calls[c].phase == Loading
  }

  /** Its calls that the cache answered. */
  ghost function Served(s: State): set<nat> {
    set c | c in s.calls && s.calls[c].ours && s.calls[c].phase.FromCache?
  }

  /** How many loader runs are its own. */
  ghost function OurLoads(loads: seq<Loaded>): nat {
    if loads == [] then 0 else OurLoads(loads[..|loads| - 1]) + if loads[|loads| - 1].ours then 1 else 0
  }

  ghost predicate Inv(cfg: Config, s: State) {
    && (forall k | k in s.store :: EntryBacked(cfg, s, k, s.store[k]))
    && (forall c | c in s.calls :: CallBacked(cfg, s, c, s.calls[c]))
    && s.misses == OurLoads(s.loads) + s.raised + |InFlight(s)|
    && s.hits == |Served(s)| + s.garbled
  }

  lemma {:induction false} EntriesKept(cfg: Config, s: State, a: Step)
    requires Inv(cfg, s) && Enabled(cfg, s, a)
    ensures var t := Apply(cfg, s, a); forall k | k in t.store :: EntryBacked(cfg, t, k, t.store[k])
  {
    var t := Apply(cfg, s, a);
    if a.Write? {
      assert CallBacked(cfg, s, a.c, s.calls[a.c]);
    }
    forall k | k in t.store ensures EntryBacked(cfg, t, k, t.store[k]) {
      if k in s.store {
        assert EntryBacked(cfg, s, k, s.store[k]);
      }
    }
  }

  lemma {:induction false} CallsKept(cfg: Config, s: State, a: Step)
    requires Inv(cfg, s) && Enabled(cfg, s, a)
    ensures var t := Apply(cfg, s, a); forall c | c in t.calls :: CallBacked(cfg, t, c, t.calls[c])
  {
    var t := Apply(cfg, s, a);
    forall c | c in t.calls ensures CallBacked(cfg, t, c, t.calls[c]) {
      if c in s.calls {
        assert CallBacked(cfg, s, c, s.calls[c]);
        if a.ReadHit? && c == a.c {
          assert EntryBacked(cfg, s, CallKey(cfg, s, c), s.store[CallKey(cfg, s, c)]);
        }
      }
    }
  }

  lemma {:induction false} OneChanged(a: set<nat>, b: set<nat>, c: nat)
    requires forall x | x != c :: x in a <==> x in b
    ensures |b| - |a| == (if c in b then 1 else 0) - (if c in a then 1 else 0)
  {
    var rest := a - {c};
    assert rest == b - {c};
    assert c in a ==> a == rest + {c};
    assert c !in a ==> a == rest;
    assert c in b ==> b == rest + {c};
    assert c !in b ==> b == rest;
  }

  /** A call of the observed process that enters or leaves its loader changes the number of running loaders by one. */
  lemma {:induction false} InFlightAfterSet(s: State, c: nat, p: Phase)
    requires c in s.calls
    ensures var t := s.(calls := Set(s, c, p));
            |InFlight(t)| == |InFlight(s)| + (if p == Loading then Counted(s, c) else 0)
                                           - (if s.calls[c].phase == Loading then Counted(s, c) else 0)
  {
    OneChanged(InFlight(s), InFlight(s.(calls := Set(s, c, p))), c);
  }

  /** One that gets its answer from the cache adds one to those served. */
  lemma {:induction false} ServedAfterSet(s: State, c: nat, p: Phase)
    requires c in s.calls && !s.calls[c].phase.FromCache?
    ensures |Served(s.(calls := Set(s, c, p)))| == |Served(s)| + if p.FromCache? then Counted(s, c) else 0
  {
    OneChanged(Served(s), Served(s.(calls := Set(s, c, p))), c);
  }

  lemma {:induction false} CountsDepend(s: State, t: State)
    requires s.calls == t.calls
    ensures InFlight(s) == InFlight(t) && Served(s) == Served(t)
  {
  }

  lemma {:induction false} StepCounted(cfg: Config, s: State, a: Step)
    requires Inv(cfg, s) && Enabled(cfg, s, a)
    ensures var t := Apply(cfg, s, a);
            t.misses == OurLoads(t.loads) + t.raised + |InFlight(t)| && t.hits == |Served(t)| + t.garbled
  {
    var t := Apply(cfg, s, a);
    if a.Tick? || a.Expire? || a.Delete? {
      CountsDepend(s, t);
    } else if a.Start? {
      assert InFlight(t) == InFlight(s) && Served(t) == Served(s);
    } else {
      var u := s.(calls := Set(s, a.c, t.calls[a.c].phase));
      InFlightAfterSet(s, a.c, t.calls[a.c].phase);
      ServedAfterSet(s, a.c, t.calls[a.c].phase);
      CountsDepend(u, t);
      if a.LoaderReturns? {
        assert t.loads[..|t.loads| - 1] == s.loads;
      }
    }
  }

  lemma {:induction false} RunKeepsInv(cfg: Config, s: State, steps: seq<Step>, t: State)
    requires Inv(cfg, s) && Run(cfg, s, steps, t)
    ensures Inv(cfg, t)
    decreases |steps|
  {
    if steps != [] {
      EntriesKept(cfg, s, steps[0]);
      CallsKept(cfg, s, steps[0]);
      StepCounted(cfg, s, steps[0]);
      RunKeepsInv(cfg, Apply(cfg, s, steps[0]), steps[1..], t);
    }
  }

  lemma {:induction false} InitInv(cfg: Config, s: State)
    requires Init(s)
    ensures Inv(cfg, s)
  {
    assert InFlight(s) == {} && Served(s) == {};
  }

  // ----- Provenance -----

  /**
    After any run, what a call returns is the value of a completed loader run: its own, or one for a
    request with the same key whose write was younger than the ttl when the value was read.
   */
  lemma {:induction false} Provenance(cfg: Config, s: State, steps: seq<Step>, t: State, c: nat)
    requires Init(s) && Run(cfg, s, steps, t) && c in t.calls
    ensures var call := t.calls[c];
            && (call.phase.FromLoader? ==>
                  && call.phase.load < |t.loads|
                  && t.loads[call.phase.load] == Loaded(call.request, call.phase.value, c, call.ours))
            && (call.phase.FromCache? ==>
                  && call.phase.load < |t.loads|
                  && t.loads[call.phase.load].value == call.phase.value
                  && Key(cfg.ns, t.loads[call.phase.load].request) == Key(cfg.ns, call.request)
                  && call.phase.written <= call.phase.readAt
                  && call.phase.readAt < call.phase.written + Ttl(cfg, t.loads[call.phase.load].request.group))
  {
    InitInv(cfg, s);
    RunKeepsInv(cfg, s, steps, t);
    assert CallBacked(cfg, t, c, t.calls[c]);
  }

  /** With colon-free key parts, the same key means the same group and parts, so the ttl is the call's own. */
  lemma {:induction false} CleanProvenance(cfg: Config, s: State, steps: seq<Step>, t: State, c: nat)
    requires Init(s) && Run(cfg, s, steps, t) && c in t.calls && t.calls[c].phase.FromCache?
    requires ColonFree(t.calls[c].request.parts) && forall l | 0 <= l < |t.loads| :: ColonFree(t.loads[l].request.parts)
    ensures var call := t.calls[c];
            && call.phase.load < |t.loads|
            && t.loads[call.phase.load].request.group == call.request.group
            && NonEmpty(t.loads[call.phase.load].request.parts) == NonEmpty(call.request.parts)
            && call.phase.readAt < call.phase.written + Ttl(cfg, call.request.group)
  {
    Provenance(cfg, s, steps, t, c);
    KeyInjective(cfg.ns, t.calls[c].request, t.loads[t.calls[c].phase.load].request);
  }

  /**
    In each process the miss counter is the number of its loader runs, finished, failed or still going. The hit
    counter is the number of its calls that the cache answered, and of texts that did not parse: those count as both.
   */
  lemma {:induction false} CountersAreRuns(cfg: Config, s: State, steps: seq<Step>, t: State)
    requires Init(s) && Run(cfg, s, steps, t)
    ensures t.misses == OurLoads(t.loads) + t.raised + |InFlight(t)|
    ensures t.hits == |Served(t)| + t.garbled
  {
    InitInv(cfg, s);
    RunKeepsInv(cfg, s, steps, t);
  }

  // ----- Invalidation -----

  /**
    Deleting a scanned set of keys that match a group's pattern leaves every entry of another group, and
    every entry cached without key parts, as it was.
   */
  lemma {:induction false} OtherGroupsUntouched(cfg: Config, s: State, g: Group, keys: set<string>, r: Request)
    requires forall k | k in keys :: Matches(cfg.ns, g, k)
    requires ColonFree(r.parts)
    ensures r.group != g || NonEmpty(r.parts) == [] ==>
              var t, key := Apply(cfg, s, Delete(keys)), Key(cfg.ns, r);
              (key in t.store <==> key in s.store) && (key in s.store ==> t.store[key] == s.store[key])
  {
    GroupMatchesExactly(cfg.ns, g, r);
  }

  /** Deleting every key that the pattern matches removes exactly the group's entries with key parts. */
  lemma {:induction false} GroupInvalidated(cfg: Config, s: State, g: Group, keys: set<string>, r: Request)
    requires forall k :: k in keys <==> k in s.store && Matches(cfg.ns, g, k)
    requires ColonFree(r.parts) && Key(cfg.ns, r) in s.store
    ensures Key(cfg.ns, r) !in Apply(cfg, s, Delete(keys)).store <==> r.group == g && NonEmpty(r.parts) != []
  {
    GroupMatchesExactly(cfg.ns, g, r);
  }

  /** From `since` on: the key holds nothing older, and calls begun since then got nothing older. */
  ghost predicate FreshSince(cfg: Config, s: State, key: string, since: int, earlier: set<nat>) {
    && since <= s.now
    && (key in s.store ==> since <= s.store[key].written)
    && forall c | c in s.calls && c !in earlier && CallKey(cfg, s, c) == key && s.calls[c].phase.FromCache? ::
         since <= s.calls[c].phase.written
  }

  lemma {:induction false} FreshStep(cfg: Config, s: State, a: Step, key: string, since: int, earlier: set<nat>)
    requires Enabled(cfg, s, a) && FreshSince(cfg, s, key, since, earlier)
    ensures FreshSince(cfg, Apply(cfg, s, a), key, since, earlier)
  {
    var t := Apply(cfg, s, a);
    forall c | c in t.calls && c !in earlier && CallKey(cfg, t, c) == key && t.calls[c].phase.FromCache?
      ensures since <= t.calls[c].phase.written
    {
      if c in s.calls {
        assert CallKey(cfg, s, c) == CallKey(cfg, t, c);
      }
    }
  }

  lemma {:induction false} FreshKept(cfg: Config, s: State, steps: seq<Step>, t: State, key: string, since: int,
                                     earlier: set<nat>)
    requires Run(cfg, s, steps, t) && FreshSince(cfg, s, key, since, earlier)
    ensures FreshSince(cfg, t, key, since, earlier)
    decreases |steps|
  {
    if steps != [] {
      FreshStep(cfg, s, steps[0], key, since, earlier);
      FreshKept(cfg, Apply(cfg, s, steps[0]), steps[1..], t, key, since, earlier);
    }
  }

  /**
    After a key was deleted, whatever else happens, a call begun later is answered from the cache only with
    a value written at the deletion or later.
   */
  lemma {:induction false} InvalidationHolds(cfg: Config, s: State, keys: set<string>, steps: seq<Step>, t: State, c: nat)
    requires Run(cfg, Apply(cfg, s, Delete(keys)), steps, t)
    requires c !in s.calls && c in t.calls && CallKey(cfg, t, c) in keys && t.calls[c].phase.FromCache?
    ensures s.now <= t.calls[c].phase.written
  {
    FreshKept(cfg, Apply(cfg, s, Delete(keys)), steps, t, CallKey(cfg, t, c), s.now, s.calls.Keys);
  }

  lemma {:induction false} RunCons(cfg: Config, s: State, a: Step, rest: seq<Step>, t: State)
    requires Enabled(cfg, s, a) && Run(cfg, Apply(cfg, s, a), rest, t)
    ensures Run(cfg, s, [a] + rest, t)
  {
    assert ([a] + rest)[1..] == rest;
  }

  /** A call that has its loader's value and has not written it yet. */
  function Unwritten(r: Request, value: string): State {
    State(0, map[], map[1 := Call(r, Writing(0), true)], [Loaded(r, value, 1, true)], 0, 0, 0, 1)
  }

  lemma {:induction false} UnwrittenReached(cfg: Config, r: Request, value: string)
    returns (s0: State, steps: seq<Step>)
    ensures Init(s0) && Run(cfg, s0, steps, Unwritten(r, value))
  {
    s0 := State(0, map[], map[], [], 0, 0, 0, 0);
    var s1 := Apply(cfg, s0, Start(1, r, true));
    var s2 := Apply(cfg, s1, ReadAbsent(1));
    assert Apply(cfg, s2, LoaderReturns(1, value)) == Unwritten(r, value);
    RunCons(cfg, s2, LoaderReturns(1, value), [], Unwritten(r, value));
    RunCons(cfg, s1, ReadAbsent(1), [LoaderReturns(1, value)], Unwritten(r, value));
    steps := [ReadAbsent(1)] + [LoaderReturns(1, value)];
    RunCons(cfg, s0, Start(1, r, true), steps, Unwritten(r, value));
    steps := [Start(1, r, true)] + steps;
  }

  /**
    Written, not loaded: a loader run that ended before the deletion can still be written after it, and
    then answers a call begun after the deletion.
   */
  lemma {:induction false} StaleLoadSurvives(cfg: Config, r: Request, value: string)
    returns (s0: State, before: seq<Step>, s: State, after: seq<Step>, t: State)
    requires Ttl(cfg, r.group) > 0
    ensures Init(s0) && Run(cfg, s0, before, s) && |s.loads| == 1 && 2 !in s.calls
    ensures Run(cfg, Apply(cfg, s, Delete({Key(cfg.ns, r)})), after, t)
    ensures 2 in t.calls && t.calls[2].request == r && t.calls[2].phase.FromCache?
    ensures t.calls[2].phase.value == value && t.calls[2].phase.load == 0
  {
    s := Unwritten(r, value);
    s0, before := UnwrittenReached(cfg, r, value);
    var d := Apply(cfg, s, Delete({Key(cfg.ns, r)}));
    var d1 := Apply(cfg, d, Write(1, true));
    var d2 := Apply(cfg, d1, Start(2, r, false));
    t := Apply(cfg, d2, ReadHit(2));
    RunCons(cfg, d2, ReadHit(2), [], t);
    RunCons(cfg, d1, Start(2, r, false), [ReadHit(2)], t);
    after := [Start(2, r, false)] + [ReadHit(2)];
    RunCons(cfg, d, Write(1, true), after, t);
    after := [Write(1, true)] + after;
  }

  /** A call begun after `s` was answered with the result of a loader run that had ended by then. */
  ghost predicate ServesOld(cfg: Config, s: State, t: State, c: nat, key: string) {
    && c !in s.calls && c in t.calls && CallKey(cfg, t, c) == key
    && t.calls[c].phase.FromCache? && t.calls[c].phase.load < |s.loads|
  }

  /** A call has its loader's value for this key and has not written it. */
  ghost predicate Unsettled(cfg: Config, s: State, c: nat, key: string) {
    c in s.calls && CallKey(cfg, s, c) == key && s.calls[c].phase.Writing?
  }

  /** The key, calls about to write it, and answers to calls begun since, stem from load `n` or later. */
  ghost predicate NewOnly(cfg: Config, s: State, key: string, n: nat, earlier: set<nat>) {
    && n <= |s.loads|
    && (key in s.store ==> n <= s.store[key].load)
    && (forall c | Unsettled(cfg, s, c, key) :: n <= s.calls[c].phase.load)
    && (forall c | c in s.calls && c !in earlier && CallKey(cfg, s, c) == key && s.calls[c].phase.FromCache? ::
          n <= s.calls[c].phase.load)
  }

  lemma {:induction false} NewOnlyStep(cfg: Config, s: State, a: Step, key: string, n: nat, earlier: set<nat>)
    requires Enabled(cfg, s, a) && NewOnly(cfg, s, key, n, earlier)
    ensures NewOnly(cfg, Apply(cfg, s, a), key, n, earlier)
  {
    var t := Apply(cfg, s, a);
    if a.Write? && CallKey(cfg, s, a.c) == key {
      assert Unsettled(cfg, s, a.c, key);
    }
    forall c | Unsettled(cfg, t, c, key) ensures n <= t.calls[c].phase.load {
      if c in s.calls {
        assert CallKey(cfg, s, c) == key;
        assert s.calls[c].phase.Writing? ==> Unsettled(cfg, s, c, key);
      }
    }
    forall c | c in t.calls && c !in earlier && CallKey(cfg, t, c) == key && t.calls[c].phase.FromCache?
      ensures n <= t.calls[c].phase.load
    {
      if c in s.calls {
        assert CallKey(cfg, s, c) == key;
      }
    }
  }

  lemma {:induction false} NewOnlyKept(cfg: Config, s: State, steps: seq<Step>, t: State, key: string, n: nat,
                                       earlier: set<nat>)
    requires Run(cfg, s, steps, t) && NewOnly(cfg, s, key, n, earlier)
    ensures NewOnly(cfg, t, key, n, earlier)
    decreases |steps|
  {
    if steps != [] {
      NewOnlyStep(cfg, s, steps[0], key, n, earlier);
      NewOnlyKept(cfg, Apply(cfg, s, steps[0]), steps[1..], t, key, n, earlier);
    }
  }

  lemma {:induction false} UnusedId(ids: set<nat>) returns (id: nat)
    ensures id !in ids
  {
    if ids == {} {
      id := 0;
    } else {
      var all := set i: nat | i in ids :: i as int;
      assert all != {} by {
        var i :| i in ids;
        assert i as int in all;
      }
      var m := Newest(all);
      id := m + 1;
      assert id in ids ==> id as int in all;
    }
  }

  /** A write after the deletion, and a read of what was written. */
  lemma {:induction false} LateWriteServed(cfg: Config, s: State, key: string, w: nat)
    returns (steps: seq<Step>, t: State, c: nat)
    requires Inv(cfg, s) && Unsettled(cfg, s, w, key) && Ttl(cfg, s.calls[w].request.group) > 0
    ensures Run(cfg, Apply(cfg, s, Delete({key})), steps, t) && ServesOld(cfg, s, t, c, key)
  {
    assert CallBacked(cfg, s, w, s.calls[w]);
    c := UnusedId(s.calls.Keys);
    var r := s.calls[w].request;
    var d := Apply(cfg, s, Delete({key}));
    var d1 := Apply(cfg, d, Write(w, true));
    var d2 := Apply(cfg, d1, Start(c, r, true));
    t := Apply(cfg, d2, ReadHit(c));
    RunCons(cfg, d2, ReadHit(c), [], t);
    RunCons(cfg, d1, Start(c, r, true), [ReadHit(c)], t);
    steps := [Start(c, r, true)] + [ReadHit(c)];
    RunCons(cfg, d, Write(w, true), steps, t);
    steps := [Write(w, true)] + steps;
  }

  /** Some run after the deletion of the key serves a value loaded before it. */
  ghost predicate StalePossible(cfg: Config, s: State, key: string) {
    exists steps, t, c :: Run(cfg, Apply(cfg, s, Delete({key})), steps, t) && ServesOld(cfg, s, t, c, key)
  }

  /**
    In any reachable state, with positive ttls: after a key is deleted, a call begun later can be served a value loaded
    before the deletion if and only if at the deletion some call has loaded a value for that key and not written it.
   */
  lemma {:induction false} StaleIffUnsettled(cfg: Config, s: State, key: string)
    requires Inv(cfg, s) && forall g :: Ttl(cfg, g) > 0
    ensures StalePossible(cfg, s, key) <==> exists w :: Unsettled(cfg, s, w, key)
  {
    if w: nat :| Unsettled(cfg, s, w, key) {
      var steps, t, c := LateWriteServed(cfg, s, key, w);
      assert StalePossible(cfg, s, key);
    } else if StalePossible(cfg, s, key) {
      var steps, t, c :| Run(cfg, Apply(cfg, s, Delete({key})), steps, t) && ServesOld(cfg, s, t, c, key);
      var d := Apply(cfg, s, Delete({key}));
      assert forall w :: Unsettled(cfg, d, w, key) ==> Unsettled(cfg, s, w, key);
      assert NewOnly(cfg, d, key, |s.loads|, s.calls.Keys);
      NewOnlyKept(cfg, d, steps, t, key, |s.loads|, s.calls.Keys);
    }
  }

  // ----- How long a value is served -----

  /** The key carries this value until `expires`. */
  ghost predicate Carries(s: State, key: string, value: string, expires: int) {
    key in s.store && s.store[key].value == value && s.store[key].expires == expires
  }

  /** The setting that says for how long values of a group are kept. */
  function Setting(cfg: Config, g: Group): nat {
    match g
    case LastTimestamp => cfg.timestampTtlMs
    case InstrumentList => cfg.listTtlMs
    case ExchangeMetadata => cfg.metadataTtlMs
  }

  /** Writing a value makes the key carry it for exactly the time set for its group. */
  lemma {:induction false} WriteKeeps(cfg: Config, s: State, c: nat)
    requires Enabled(cfg, s, Write(c, true))
    ensures var key, l := Key(cfg.ns, s.calls[c].request), s.calls[c].phase.load;
            Carries(Apply(cfg, s, Write(c, true)), key, s.loads[l].value, s.now + Setting(cfg, s.calls[c].request.group))
  {
  }

  /** Some step of the run touches the key: another write or a deletion. */
  ghost predicate Touches(cfg: Config, s: State, a: Step, key: string) {
    || (a.Write? && a.stored && a.c in s.calls && Key(cfg.ns, s.calls[a.c].request) == key)
    || (a.Delete? && key in a.keys)
  }

  /** No step of the run touches the key. */
  ghost predicate Untouched(cfg: Config, s: State, steps: seq<Step>, key: string)
    decreases |steps|
  {
    steps == [] ||
    (&& Enabled(cfg, s, steps[0]) && !Touches(cfg, s, steps[0], key)
     && Untouched(cfg, Apply(cfg, s, steps[0]), steps[1..], key))
  }

  lemma {:induction false} GoneStays(cfg: Config, s: State, steps: seq<Step>, t: State, key: string)
    requires Run(cfg, s, steps, t) && Untouched(cfg, s, steps, key) && key !in s.store
    ensures s.now <= t.now && key !in t.store
    decreases |steps|
  {
    if steps != [] {
      GoneStays(cfg, Apply(cfg, s, steps[0]), steps[1..], t, key);
    }
  }

  lemma {:induction false} CarriedOn(cfg: Config, s: State, steps: seq<Step>, t: State, key: string, value: string,
                                     expires: int)
    requires Run(cfg, s, steps, t) && Untouched(cfg, s, steps, key) && Carries(s, key, value, expires)
    ensures s.now <= t.now && (t.now < expires ==> Carries(t, key, value, expires))
    ensures key in t.store ==> Carries(t, key, value, expires)
    decreases |steps|
  {
    if steps != [] {
      var u := Apply(cfg, s, steps[0]);
      if key in u.store {
        CarriedOn(cfg, u, steps[1..], t, key, value, expires);
      } else {
        assert steps[0].Expire?;
        GoneStays(cfg, u, steps[1..], t, key);
      }
    }
  }

  /**
    After a value was written, and as long as its key is neither written again nor deleted, a read of the key finds
    exactly that value before the time set for its group is over, and nothing from then on.
   */
  lemma {:induction false} ServedForTtl(cfg: Config, s: State, c: nat, steps: seq<Step>, t: State, r: nat)
    requires Enabled(cfg, s, Write(c, true))
    requires Run(cfg, Apply(cfg, s, Write(c, true)), steps, t)
    requires Untouched(cfg, Apply(cfg, s, Write(c, true)), steps, Key(cfg.ns, s.calls[c].request))
    requires InPhase(t, r, Reading) && Key(cfg.ns, t.calls[r].request) == Key(cfg.ns, s.calls[c].request)
    ensures var until := s.now + Setting(cfg, s.calls[c].request.group);
            && (Enabled(cfg, t, ReadHit(r)) <==> t.now < until)
            && (Enabled(cfg, t, ReadAbsent(r)) <==> t.now >= until)
            && (t.now < until ==>
                  t.store[Key(cfg.ns, t.calls[r].request)].value == s.loads[s.calls[c].phase.load].value)
  {
    var key, u := Key(cfg.ns, s.calls[c].request), Apply(cfg, s, Write(c, true));
    WriteKeeps(cfg, s, c);
    CarriedOn(cfg, u, steps, t, key, s.loads[s.calls[c].phase.load].value, s.now + Setting(cfg, s.calls[c].request.group));
  }

  ghost function Elapsed(steps: seq<Step>): nat
    decreases |steps|
  {
    if steps == [] then 0 else (if steps[0].Tick? then steps[0].ms else 0) + Elapsed(steps[1..])
  }

  /** Time passes by as much as the ticks say. */
  lemma {:induction false} TicksAddUp(cfg: Config, s: State, steps: seq<Step>, t: State)
    requires Run(cfg, s, steps, t)
    ensures t.now == s.now + Elapsed(steps)
    decreases |steps|
  {
    if steps != [] {
      TicksAddUp(cfg, Apply(cfg, s, steps[0]), steps[1..], t);
    }
  }

  // ----- The code of one call -----

  datatype Answer = Value(json: string) | LoaderError

  datatype ReadFate = Answered | Garbled | Unavailable

  lemma {:induction false} RunSnoc(cfg: Config, s: State, steps: seq<Step>, t: State, a: Step)
    requires Run(cfg, s, steps, t) && Enabled(cfg, t, a)
    ensures Run(cfg, s, steps + [a], Apply(cfg, t, a))
    decreases |steps|
  {
    if steps == [] {
      assert [] + [a] == [a] && [a][1..] == [];
    } else {
      RunSnoc(cfg, Apply(cfg, s, steps[0]), steps[1..], t, a);
      assert (steps + [a])[1..] == steps[1..] + [a];
    }
  }

  /** The call whose step it is. */
  function Caller(a: Step): Option<nat> {
    match a
    case Start(c, _, _) => Some(c)
    case ReadHit(c) => Some(c)
    case ReadGarbled(c) => Some(c)
    case ReadAbsent(c) => Some(c)
    case ReadFails(c) => Some(c)
    case LoaderReturns(c, _) => Some(c)
    case LoaderRaises(c) => Some(c)
    case Write(c, _) => Some(c)
    case _ => None
  }

  /** What becomes of the GET of call `c`, given whether the key is live. */
  function ReadStep(c: nat, live: bool, read: ReadFate): Step {
    if read == Unavailable then ReadFails(c)
    else if !live then ReadAbsent(c)
    else if read == Answered then ReadHit(c) else ReadGarbled(c)
  }

  /** A scan: before each of the first `n` batches is deleted, others take the steps `others[i]`. */
  ghost function Scan(batches: seq<set<string>>, others: seq<seq<Step>>, n: nat): seq<Step>
    requires n <= |batches| && n <= |others|
  {
    if n == 0 then [] else Scan(batches, others, n - 1) + others[n - 1] + [Delete(batches[n - 1])]
  }

  ghost function Union(batches: seq<set<string>>, n: nat): set<string>
    requires n <= |batches|
  {
    if n == 0 then {} else Union(batches, n - 1) + batches[n - 1]
  }

  lemma {:induction false} RunSplit(cfg: Config, s: State, steps: seq<Step>, a: Step, t: State) returns (u: State)
    requires Run(cfg, s, steps + [a], t)
    ensures Run(cfg, s, steps, u) && Enabled(cfg, u, a) && t == Apply(cfg, u, a)
    decreases |steps|
  {
    if steps == [] {
      assert [] + [a] == [a] && [a][1..] == [];
      u := s;
    } else {
      assert (steps + [a])[1..] == steps[1..] + [a];
      u := RunSplit(cfg, Apply(cfg, s, steps[0]), steps[1..], a, t);
    }
  }

  lemma {:induction false} ScanDepends(batches: seq<set<string>>, a: seq<seq<Step>>, b: seq<seq<Step>>, n: nat)
    requires n <= |batches| && n <= |a| && n <= |b| && a[..n] == b[..n]
    ensures Scan(batches, a, n) == Scan(batches, b, n)
  {
    if n > 0 {
      assert a[..n - 1] == a[..n][..n - 1] && a[n - 1] == a[..n][n - 1] && b[n - 1] == b[..n][n - 1];
      ScanDepends(batches, a, b, n - 1);
    }
  }

  /** A scan with no step of others in between takes exactly the scanned keys away. */
  lemma {:induction false} ScanAlone(cfg: Config, s: State, batches: seq<set<string>>, others: seq<seq<Step>>, n: nat,
                                     t: State)
    requires n <= |batches| && n <= |others| && (forall i | 0 <= i < n :: others[i] == [])
    requires Run(cfg, s, Scan(batches, others, n), t)
    ensures t == s.(store := s.store - Union(batches, n))
  {
    if n == 0 {
      assert s.store - {} == s.store;
    } else {
      var front := Scan(batches, others, n - 1);
      assert front + others[n - 1] == front;
      var u := RunSplit(cfg, s, front, Delete(batches[n - 1]), t);
      ScanAlone(cfg, s, batches, others, n - 1, u);
      assert s.store - Union(batches, n - 1) - batches[n - 1] == s.store - Union(batches, n);
    }
  }

  class Cache {
    const cfg: Config
    var s: State
    ghost var trace: seq<Step>
    ghost const s0: State

    constructor (cfg: Config, now: int)
      ensures Valid() && trace == [] && this.cfg == cfg
    {
      this.cfg := cfg;
      s := State(now, map[], map[], [], 0, 0, 0, 0);
      s0 := State(now, map[], map[], [], 0, 0, 0, 0);
      trace := [];
    }

    /** The present state is the outcome of the steps so far. */
    ghost predicate Valid()
      reads this
    {
      Init(s0) && Run(cfg, s0, trace, s)
    }

    method Do(a: Step)
      requires Valid() && Enabled(cfg, s, a)
      modifies this
      ensures Valid() && s == Apply(cfg, old(s), a) && trace == old(trace) + [a]
    {
      RunSnoc(cfg, s0, trace, s, a);
      s, trace := Apply(cfg, s, a), trace + [a];
    }

    /** While call `c` waits, whatever is possible of the proposed steps happens, other than its own. */
    method Elsewhere(c: nat, steps: seq<Step>) returns (ghost done: seq<Step>)
      requires Valid() && c in s.calls
      modifies this
      ensures Valid() && trace == old(trace) + done && old(s).loads <= s.loads
      ensures c in s.calls && s.calls[c] == old(s).calls[c]
      ensures forall a | a in done :: a in steps && Caller(a) != Some(c)
    {
      done := [];
      for i := 0 to |steps|
        invariant Valid() && trace == old(trace) + done && old(s).loads <= s.loads
        invariant c in s.calls && s.calls[c] == old(s).calls[c]
        invariant forall a | a in done :: a in steps && Caller(a) != Some(c)
      {
        if Caller(steps[i]) != Some(c) && Enabled(cfg, s, steps[i]) {
          Do(steps[i]);
          done := done + [steps[i]];
        }
      }
    }

    /** The first half: exactly the read happens, and the cache answers if and only if a live value is read and parses. */
    method Read(c: nat, read: ReadFate) returns (hit: bool)
      requires Valid() && InPhase(s, c, Reading)
      modifies this
      ensures Valid() && c in s.calls
      ensures s.calls[c].request == old(s).calls[c].request && s.calls[c].ours == old(s).calls[c].ours
      ensures hit <==> read == Answered && Live(old(s), CallKey(cfg, old(s), c))
      ensures var a := ReadStep(c, Live(old(s), CallKey(cfg, old(s), c)), read);
              Enabled(cfg, old(s), a) && s == Apply(cfg, old(s), a) && trace == old(trace) + [a]
      ensures if hit
              then s.calls[c].phase.FromCache? && s.calls[c].phase.value == old(s).store[CallKey(cfg, old(s), c)].value
              else s.calls[c].phase == Loading
      ensures s.misses - old(s).misses == if hit then 0 else Counted(old(s), c)
      ensures s.hits - old(s).hits ==
              if read != Unavailable && Live(old(s), CallKey(cfg, old(s), c)) then Counted(old(s), c) else 0
    {
      var live := Live(s, CallKey(cfg, s, c));
      hit := read == Answered && live;
      if hit {
        Do(ReadHit(c));
      } else if read == Unavailable {
        Do(ReadFails(c));
      } else if live {
        Do(ReadGarbled(c));
      } else {
        Do(ReadAbsent(c));
      }
    }

    /** The call has its loader's answer, and a stored value is in the store from now on for its ttl. */
    ghost predicate Settled(c: nat, loader: Answer, stored: bool)
      requires c in s.calls
      reads this
    {
      match loader
      case LoaderError => s.calls[c].phase == LoaderFailed
      case Value(v) =>
        && s.calls[c].phase.FromLoader? && s.calls[c].phase.value == v
        && (stored ==>
              var key := CallKey(cfg, s, c);
              && key in s.store && s.store[key].value == v && s.store[key].written == s.now
              && s.store[key].expires == s.now + Ttl(cfg, s.calls[c].request.group))
    }

    lemma ValidWrites(c: nat)
      requires Valid() && c in s.calls && s.calls[c].phase.Writing?
      ensures s.calls[c].phase.load < |s.loads| && s.loads[s.calls[c].phase.load].caller == c
    {
      InitInv(cfg, s0);
      RunKeepsInv(cfg, s0, trace, s);
      assert CallBacked(cfg, s, c, s.calls[c]);
    }

    /** The second half: the loader, then the write. */
    method LoadAndStore(c: nat, during: seq<Step>, loader: Answer, between: seq<Step>, stored: bool) returns (r: Answer)
      requires Valid() && InPhase(s, c, Loading)
      modifies this
      ensures Valid() && |old(trace)| <= |trace| && trace[..|old(trace)|] == old(trace)
      ensures c in s.calls && s.calls[c].request == old(s).calls[c].request && s.calls[c].ours == old(s).calls[c].ours
      ensures r == loader && Settled(c, loader, stored)
    {
      ghost var t0 := trace;
      ghost var waited := Elsewhere(c, during);
      assert trace[..|t0|] == t0;
      if loader.LoaderError? {
        Do(LoaderRaises(c));
        return LoaderError;
      }
      Do(LoaderReturns(c, loader.json));
      waited := Elsewhere(c, between);
      ValidWrites(c);
      Do(Write(c, stored));
      r := Value(s.calls[c].phase.value);
    }

    /**
      `get_cached`: the first GET may be answered, garbled or fail, the loader may give a value or raise,
      the SET may fail. An exception reaches the caller only from the loader. `atRead` is the state in which
      the GET takes effect, after `n` steps.
     */
    method GetCached(c: nat, request: Request, ours: bool, first: seq<Step>, read: ReadFate, during: seq<Step>,
                     loader: Answer, between: seq<Step>, stored: bool)
      returns (r: Answer, ghost atRead: State, ghost n: nat)
      requires Valid() && c !in s.calls
      modifies this
      ensures Valid() && c in s.calls && s.calls[c].request == request && s.calls[c].ours == ours
      ensures |old(trace)| < n < |trace| && trace[..|old(trace)|] == old(trace)
      ensures Run(cfg, s0, trace[..n], atRead) && c in atRead.calls && atRead.calls[c] == Call(request, Reading, ours)
      ensures trace[n] == ReadStep(c, Live(atRead, Key(cfg.ns, request)), read)
      ensures s.calls[c].phase.FromCache? <==> trace[n] == ReadHit(c)
      ensures trace[n] == ReadHit(c) ==>
                r == Value(atRead.store[Key(cfg.ns, request)].value) && s == Apply(cfg, atRead, ReadHit(c))
      ensures trace[n] != ReadHit(c) ==> r == loader && Settled(c, loader, stored)
    {
      Do(Start(c, request, ours));
      ghost var waited := Elsewhere(c, first);
      n, atRead := |trace|, s;
      assert trace[..n] == trace;
      ghost var before := trace;
      var hit := Read(c, read);
      assert trace[..n] == before;
      if hit {
        return Value(s.calls[c].phase.value), atRead, n;
      }
      ghost var sofar := trace;
      r := LoadAndStore(c, during, loader, between, stored);
      assert trace[..n] == sofar[..n] && trace[n] == sofar[n];
    }

    /** Steps of others that go on with a run. */
    method Between(steps: seq<Step>, ghost start: State, ghost sofar: seq<Step>) returns (ghost done: seq<Step>)
      requires Valid() && Run(cfg, start, sofar, s)
      modifies this
      ensures Valid() && trace == old(trace) + done && Run(cfg, start, sofar + done, s)
      ensures forall a | a in done :: a in steps
    {
      done := [];
      assert sofar + [] == sofar;
      for i := 0 to |steps|
        invariant Valid() && trace == old(trace) + done && Run(cfg, start, sofar + done, s)
        invariant forall a | a in done :: a in steps
      {
        if Enabled(cfg, s, steps[i]) {
          RunSnoc(cfg, start, sofar + done, s, steps[i]);
          Do(steps[i]);
          assert sofar + done + [steps[i]] == sofar + (done + [steps[i]]);
          done := done + [steps[i]];
        }
      }
    }

    /** One round of the scan. */
    method ScanBatch(batches: seq<set<string>>, i: nat, between: nat -> seq<Step>, ghost trace0: seq<Step>,
                     ghost start: State, ghost before: seq<seq<Step>>)
      returns (ghost others: seq<seq<Step>>)
      requires Valid() && i < |batches| && |before| == i
      requires trace == trace0 + Scan(batches, before, i) && Run(cfg, start, Scan(batches, before, i), s)
      modifies this
      ensures Valid() && |others| == i + 1 && others[..i] == before
      ensures forall a | a in others[i] :: a in between(i)
      ensures trace == trace0 + Scan(batches, others, i + 1) && Run(cfg, start, Scan(batches, others, i + 1), s)
    {
      ghost var done := Between(between(i), start, Scan(batches, before, i));
      others := before + [done];
      ScanDepends(batches, before, others, i);
      RunSnoc(cfg, start, Scan(batches, before, i) + done, s, Delete(batches[i]));
      Do(Delete(batches[i]));
      assert trace == trace0 + (Scan(batches, before, i) + done + [Delete(batches[i])]);
    }

    /**
      `invalidate`: one key, or a scan whose batches hold keys that match the group's pattern, with anything
      happening before each. Redis may fail before batch `failAt`, which ends the scan quietly. Nothing else is
      done than these deletions and the steps of others.
     */
    method Invalidate(g: Group, parts: seq<string>, batches: seq<set<string>>, failAt: nat, between: nat -> seq<Step>)
      returns (ghost others: seq<seq<Step>>)
      requires Valid() && forall i | 0 <= i < |batches| :: forall k | k in batches[i] :: Matches(cfg.ns, g, k)
      modifies this
      ensures Valid()
      ensures parts != [] && failAt > 0 ==>
                && s == Apply(cfg, old(s), Delete({Key(cfg.ns, Request(g, parts))}))
                && trace == old(trace) + [Delete({Key(cfg.ns, Request(g, parts))})]
      ensures parts != [] && failAt == 0 ==> s == old(s) && trace == old(trace)
      ensures parts == [] ==>
                && |others| == (if failAt < |batches| then failAt else |batches|)
                && Run(cfg, old(s), Scan(batches, others, |others|), s)
                && trace == old(trace) + Scan(batches, others, |others|)
                && forall i | 0 <= i < |others| :: forall a | a in others[i] :: a in between(i)
    {
      others := [];
      if parts != [] {
        if failAt > 0 {
          Do(Delete({Key(cfg.ns, Request(g, parts))}));
        }
        return;
      }
      var i := 0;
      while i < |batches| && i < failAt
        invariant 0 <= i <= |batches| && i <= failAt && |others| == i
        invariant Valid() && trace == old(trace) + Scan(batches, others, i)
        invariant Run(cfg, old(s), Scan(batches, others, i), s)
        invariant forall j | 0 <= j < i :: forall a | a in others[j] :: a in between(j)
      {
        others := ScanBatch(batches, i, between, old(trace), old(s), others);
        i := i + 1;
      }
    }
  }
}
