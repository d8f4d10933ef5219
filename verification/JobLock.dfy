/**
  The Redis job lock as a protocol: any number of processes, a clock, and a store whose keys expire.
  Redis commands are atomic; everything else interleaves freely, and processes may crash anywhere.
 */
module JobLock {
  import opened Wrappers

  /** A key's value and the time at which Redis drops it. */
  datatype Entry = Entry(id: nat, expires: int)

  datatype Phase = Trying(attempt: nat) | Holding | Conflict | Unavailable | Released | Crashed

  /** One use of `job_lock`; `sets` counts its SET commands, `lease` is the expiry its own SET obtained. */
  datatype Proc = Proc(id: nat, key: string, timeoutMs: nat, attempts: nat, sets: nat, lease: Option<int>, phase: Phase)

  datatype State = State(now: int, store: map<string, Entry>, procs: map<nat, Proc>)

  datatype Step =
    | Tick(ms: nat)                                  // time passes
    | Expire(gone: string)                           // Redis drops an expired key
    | Begin(p: nat, key: string, id: nat, timeoutMs: nat, attempts: nat)
    | Attempt(p: nat)                                // SET NX EX, reply received
    | LostReply(p: nat)                              // SET NX EX, reply lost: the caller gets an exception
    | RedisDown(p: nat)                              // the command never arrives
    | Release(p: nat, delivered: bool)               // compare-and-delete, or its failure
    | Crash(p: nat)

  /** The process whose step it is; the clock and Redis have none. */
  function Actor(a: Step): Option<nat> {
    match a
    case Tick(_) => None
    case Expire(_) => None
    case Begin(p, _, _, _, _) => Some(p)
    case Attempt(p) => Some(p)
    case LostReply(p) => Some(p)
    case RedisDown(p) => Some(p)
    case Release(p, _) => Some(p)
    case Crash(p) => Some(p)
  }

  /** GET finds the key. */
  predicate Live(s: State, key: string) {
    key in s.store && s.now < s.store[key].expires
  }

  /** A lock id is drawn anew for each use. */
  predicate FreshId(s: State, id: nat) {
    (forall q | q in s.procs :: s.procs[q].id != id) && (forall k | k in s.store :: s.store[k].id != id)
  }

  predicate Enabled(s: State, a: Step) {
    match a
    case Tick(_) => true
    case Expire(key) => key in s.store && s.store[key].expires <= s.now
    case Begin(p, _, id, timeoutMs, _) => p !in s.procs && timeoutMs > 0 && FreshId(s, id)
    case Attempt(p) => p in s.procs && s.procs[p].phase.Trying?
    case LostReply(p) => p in s.procs && s.procs[p].phase.Trying?
    case RedisDown(p) => p in s.procs && s.procs[p].phase.Trying?
    case Release(p, _) => p in s.procs && s.procs[p].phase.Holding?
    case Crash(p) => p in s.procs && (s.procs[p].phase.Trying? || s.procs[p].phase.Holding?)
  }

  /** SET key id NX EX timeout. */
  function SetNx(s: State, v: Proc): map<string, Entry> {
    if Live(s, v.key) then s.store else s.store[v.key := Entry(v.id, s.now + v.timeoutMs)]
  }

  /** Delete the key if it still carries this id. */
  function CompareAndDelete(s: State, v: Proc): map<string, Entry> {
    if Live(s, v.key) && s.store[v.key].id == v.id then s.store - {v.key} else s.store
  }

  /** The process after its SET: leased, or on to its next attempt, or out of attempts. */
  function AfterSet(s: State, v: Proc, heard: bool): Proc
    requires v.phase.Trying?
  {
    var a := v.phase.attempt;
    var lease := if Live(s, v.key) then v.lease else Some(s.now + v.timeoutMs);
    v.(sets := v.sets + 1,
       lease := lease,
       phase := if !heard then Unavailable
                else if !Live(s, v.key) then Holding
                else if a + 1 < v.attempts then Trying(a + 1) else Conflict)
  }

  function Apply(s: State, a: Step): State
    requires Enabled(s, a)
  {
    match a
    case Tick(ms) => s.(now := s.now + ms)
    case Expire(key) => s.(store := s.store - {key})
    case Begin(p, key, id, timeoutMs, attempts) =>
      s.(procs := s.procs[p := Proc(id, key, timeoutMs, attempts, 0, None, if attempts == 0 then Conflict else Trying(0))])
    case Attempt(p) => State(s.now, SetNx(s, s.procs[p]), s.procs[p := AfterSet(s, s.procs[p], true)])
    case LostReply(p) => State(s.now, SetNx(s, s.procs[p]), s.procs[p := AfterSet(s, s.procs[p], false)])
    case RedisDown(p) => s.(procs := s.procs[p := s.procs[p].(phase := Unavailable)])
    case Release(p, delivered) =>
      State(s.now, if delivered then CompareAndDelete(s, s.procs[p]) else s.store,
            s.procs[p := s.procs[p].(phase := Released)])
    case Crash(p) => s.(procs := s.procs[p := s.procs[p].(phase := Crashed)])
  }

  /**
    Nothing protects a process: at any time the clock may move, expired keys may go, a new process may begin with any
    timeout, and one that tries or holds may crash; each command and each release may work or fail.
   */
  lemma {:induction false} AnythingMayHappen(s: State, p: nat, key: string, ms: nat, id: nat, timeoutMs: nat, attempts: nat)
    ensures Enabled(s, Tick(ms))
    ensures key in s.store && s.store[key].expires <= s.now ==> Enabled(s, Expire(key))
    ensures p !in s.procs && timeoutMs >= 1 && FreshId(s, id) ==> Enabled(s, Begin(p, key, id, timeoutMs, attempts))
    ensures p in s.procs && s.procs[p].phase.Trying? ==>
              Enabled(s, Attempt(p)) && Enabled(s, LostReply(p)) && Enabled(s, RedisDown(p)) && Enabled(s, Crash(p))
    ensures p in s.procs && s.procs[p].phase == Holding ==>
              Enabled(s, Release(p, true)) && Enabled(s, Release(p, false)) && Enabled(s, Crash(p))
  {
  }

  /** Doing `steps` one after the other leads from `s` to `t`. */
  ghost predicate Run(s: State, steps: seq<Step>, t: State)
    decreases |steps|
  {
    if steps == [] then s == t
    else Enabled(s, steps[0]) && Run(Apply(s, steps[0]), steps[1..], t)
  }

  /** No process has begun; the store may hold anything. */
  ghost predicate Init(s: State) {
    s.procs == map[]
  }

  // ----- The invariant -----

  ghost predicate DistinctIds(s: State) {
    forall p, q | p in s.procs && q in s.procs && p != q :: s.procs[p].id != s.procs[q].id
  }

  /** A process's attempts and phase tell how many SETs it sent and whether one succeeded. */
  ghost predicate WellPhased(v: Proc, now: int) {
    && v.timeoutMs > 0 && v.sets <= v.attempts
    && (v.phase.Trying? ==> v.sets == v.phase.attempt < v.attempts && v.lease.None?)
    && (v.phase.Holding? ==> v.sets > 0 && v.lease.Some?)
    && (v.phase.Released? ==> v.sets > 0 && v.lease.Some?)
    && (v.phase.Conflict? ==> v.sets == v.attempts && v.lease.None?)
    && (v.lease.Some? ==> v.lease.value <= now + v.timeoutMs)
  }

  /** Until it runs out, a lease that was not released is in the store under its owner's id. */
  ghost predicate LeaseKept(s: State, v: Proc) {
    v.lease.Some? && s.now < v.lease.value && !v.phase.Released? ==>
      v.key in s.store && s.store[v.key] == Entry(v.id, v.lease.value)
  }

  /** Whatever carries a process's id is that process's own lease. */
  ghost predicate EntryOwned(s: State, v: Proc) {
    forall k | k in s.store && s.store[k].id == v.id :: k == v.key && v.lease == Some(s.store[k].expires)
  }

  ghost predicate Inv(s: State) {
    && DistinctIds(s)
    && (forall p | p in s.procs :: WellPhased(s.procs[p], s.now))
    && (forall p | p in s.procs :: LeaseKept(s, s.procs[p]))
    && (forall p | p in s.procs :: EntryOwned(s, s.procs[p]))
  }

  lemma {:induction false} SetKeepsInv(s: State, p: nat, heard: bool)
    requires Inv(s) && p in s.procs && s.procs[p].phase.Trying?
    ensures Inv(State(s.now, SetNx(s, s.procs[p]), s.procs[p := AfterSet(s, s.procs[p], heard)]))
  {
    var v := s.procs[p];
    var t := State(s.now, SetNx(s, v), s.procs[p := AfterSet(s, v, heard)]);
    forall q | q in t.procs ensures LeaseKept(t, t.procs[q]) && EntryOwned(t, t.procs[q]) {
      assert q in s.procs && LeaseKept(s, s.procs[q]) && EntryOwned(s, s.procs[q]);
    }
    forall q, r | q in t.procs && r in t.procs && q != r ensures t.procs[q].id != t.procs[r].id {
      assert s.procs[q].id != s.procs[r].id;
    }
    forall q | q in t.procs ensures WellPhased(t.procs[q], t.now) {
      assert WellPhased(s.procs[q], s.now);
    }
  }

  lemma {:induction false} ReleaseKeepsInv(s: State, p: nat, delivered: bool)
    requires Inv(s) && p in s.procs && s.procs[p].phase.Holding?
    ensures Inv(Apply(s, Release(p, delivered)))
  {
    var v := s.procs[p];
    var t := Apply(s, Release(p, delivered));
    forall q | q in t.procs ensures LeaseKept(t, t.procs[q]) && EntryOwned(t, t.procs[q]) {
      assert q in s.procs && LeaseKept(s, s.procs[q]) && EntryOwned(s, s.procs[q]);
      assert q != p ==> s.procs[q].id != v.id;
    }
    forall q, r | q in t.procs && r in t.procs && q != r ensures t.procs[q].id != t.procs[r].id {
      assert s.procs[q].id != s.procs[r].id;
    }
    forall q | q in t.procs ensures WellPhased(t.procs[q], t.now) {
      assert WellPhased(s.procs[q], s.now);
    }
  }

  lemma {:induction false} BeginKeepsInv(s: State, a: Step)
    requires Inv(s) && a.Begin? && Enabled(s, a)
    ensures Inv(Apply(s, a))
  {
    var t := Apply(s, a);
    forall q | q in t.procs ensures LeaseKept(t, t.procs[q]) && EntryOwned(t, t.procs[q]) && WellPhased(t.procs[q], t.now) {
      if q != a.p {
        assert LeaseKept(s, s.procs[q]) && EntryOwned(s, s.procs[q]) && WellPhased(s.procs[q], s.now);
      }
    }
  }

  /** Steps that touch neither the store nor any lease. */
  lemma {:induction false} QuietKeepsInv(s: State, p: nat, phase: Phase)
    requires Inv(s) && p in s.procs && (phase.Unavailable? || phase.Crashed?)
    requires s.procs[p].phase.Trying? || s.procs[p].phase.Holding?
    ensures Inv(s.(procs := s.procs[p := s.procs[p].(phase := phase)]))
  {
    var t := s.(procs := s.procs[p := s.procs[p].(phase := phase)]);
    forall q | q in t.procs ensures LeaseKept(t, t.procs[q]) && EntryOwned(t, t.procs[q]) && WellPhased(t.procs[q], t.now) {
      assert LeaseKept(s, s.procs[q]) && EntryOwned(s, s.procs[q]) && WellPhased(s.procs[q], s.now);
    }
    forall q, r | q in t.procs && r in t.procs && q != r ensures t.procs[q].id != t.procs[r].id {
      assert s.procs[q].id != s.procs[r].id;
    }
  }

  lemma {:induction false} TimeKeepsInv(s: State, a: Step)
    requires Inv(s) && (a.Tick? || a.Expire?) && Enabled(s, a)
    ensures Inv(Apply(s, a))
  {
    var t := Apply(s, a);
    forall q | q in t.procs ensures LeaseKept(t, t.procs[q]) && EntryOwned(t, t.procs[q]) && WellPhased(t.procs[q], t.now) {
      assert LeaseKept(s, s.procs[q]) && EntryOwned(s, s.procs[q]) && WellPhased(s.procs[q], s.now);
    }
  }

  lemma {:induction false} StepKeepsInv(s: State, a: Step)
    requires Inv(s) && Enabled(s, a)
    ensures Inv(Apply(s, a))
  {
    match a
    case Tick(_) => TimeKeepsInv(s, a);
    case Expire(_) => TimeKeepsInv(s, a);
    case Begin(_, _, _, _, _) => BeginKeepsInv(s, a);
    case Attempt(p) => SetKeepsInv(s, p, true);
    case LostReply(p) => SetKeepsInv(s, p, false);
    case RedisDown(p) => QuietKeepsInv(s, p, Unavailable);
    case Release(p, delivered) => ReleaseKeepsInv(s, p, delivered);
    case Crash(p) => QuietKeepsInv(s, p, Crashed);
  }

  lemma {:induction false} RunKeepsInv(s: State, steps: seq<Step>, t: State)
    requires Inv(s) && Run(s, steps, t)
    ensures Inv(t)
    decreases |steps|
  {
    if steps != [] {
      StepKeepsInv(s, steps[0]);
      RunKeepsInv(Apply(s, steps[0]), steps[1..], t);
    }
  }

  // ----- Safety -----

  /** The process is between a successful SET and its release, and its lease has not run out. */
  ghost predicate HoldsLease(s: State, p: nat) {
    p in s.procs && s.procs[p].phase.Holding? && s.procs[p].lease.Some? && s.now < s.procs[p].lease.value
  }

  /**
    After any run of any processes, at most one of them holds an unexpired lease on a key, and the store
    names that process.
   */
  lemma {:induction false} MutualExclusion(s: State, steps: seq<Step>, t: State, p: nat, q: nat)
    requires Init(s) && Run(s, steps, t)
    requires HoldsLease(t, p) && HoldsLease(t, q) && t.procs[p].key == t.procs[q].key
    ensures p == q
    ensures Live(t, t.procs[p].key) && t.store[t.procs[p].key].id == t.procs[p].id
  {
    RunKeepsInv(s, steps, t);
    assert LeaseKept(t, t.procs[p]) && LeaseKept(t, t.procs[q]);
  }

  /** A process is in the body only after a SET of its own succeeded, within its number of attempts. */
  lemma {:induction false} BodyNeedsSet(s: State, steps: seq<Step>, t: State, p: nat)
    requires Init(s) && Run(s, steps, t) && p in t.procs
    ensures t.procs[p].sets <= t.procs[p].attempts
    ensures t.procs[p].phase.Holding? ==> t.procs[p].sets > 0 && t.procs[p].lease.Some?
    ensures t.procs[p].phase.Conflict? ==> t.procs[p].sets == t.procs[p].attempts && t.procs[p].lease.None?
  {
    RunKeepsInv(s, steps, t);
    assert WellPhased(t.procs[p], t.now);
  }

  /** A release takes away nothing but the releaser's own lease; a stale one takes away nothing. */
  lemma {:induction false} ReleaseIsSafe(s: State, steps: seq<Step>, t: State, p: nat, delivered: bool)
    requires Init(s) && Run(s, steps, t) && Enabled(t, Release(p, delivered))
    ensures var u := Apply(t, Release(p, delivered));
            && (forall k | k in t.store && t.store[k].id != t.procs[p].id :: k in u.store && u.store[k] == t.store[k])
            && (forall k | k in u.store :: k in t.store && u.store[k] == t.store[k])
            && (!HoldsLease(t, p) ==> u.store == t.store)
            && (forall q | q != p && HoldsLease(t, q) :: HoldsLease(u, q) && Live(u, t.procs[q].key))
            && (delivered ==> forall k | Live(u, k) :: u.store[k].id != t.procs[p].id)
  {
    RunKeepsInv(s, steps, t);
    var v, u := t.procs[p], Apply(t, Release(p, delivered));
    assert WellPhased(v, t.now) && EntryOwned(t, v);
    forall q | q != p && HoldsLease(t, q) ensures Live(u, t.procs[q].key) {
      assert LeaseKept(t, t.procs[q]) && t.procs[q].id != v.id;
    }
  }

  /** Once obtained, a lease's expiry never moves. */
  lemma {:induction false} LeaseIsFixed(s: State, steps: seq<Step>, t: State, p: nat)
    requires Inv(s) && Run(s, steps, t) && p in s.procs && s.procs[p].lease.Some?
    ensures p in t.procs && t.procs[p].id == s.procs[p].id && t.procs[p].lease == s.procs[p].lease
    ensures s.now <= t.now
    decreases |steps|
  {
    if steps != [] {
      var u := Apply(s, steps[0]);
      assert WellPhased(s.procs[p], s.now);
      StepKeepsInv(s, steps[0]);
      LeaseIsFixed(u, steps[1..], t, p);
    }
  }

  /**
    Recovery: whatever happens to the holder of a lease, from `timeout` after the present on, nothing
    live carries its id. A process that then finds the key taken finds a younger lease of someone else.
   */
  lemma {:induction false} LeaseRunsOut(s0: State, before: seq<Step>, s: State, after: seq<Step>, t: State, p: nat)
    requires Init(s0) && Run(s0, before, s) && Run(s, after, t)
    requires p in s.procs && s.procs[p].lease.Some? && t.now >= s.now + s.procs[p].timeoutMs
    ensures forall k | Live(t, k) :: t.store[k].id != s.procs[p].id
  {
    RunKeepsInv(s0, before, s);
    RunKeepsInv(s, after, t);
    LeaseIsFixed(s, after, t, p);
    assert WellPhased(s.procs[p], s.now) && EntryOwned(t, t.procs[p]);
  }

  lemma {:induction false} RunStep(s: State, a: Step, rest: seq<Step>, t: State)
    requires Enabled(s, a) && Run(Apply(s, a), rest, t)
    ensures Run(s, [a] + rest, t)
  {
    assert ([a] + rest)[1..] == rest;
  }

  /** One process works past its 300 s, another one is about to try. */
  function Outlived(): State {
    State(300_000, map["k" := Entry(11, 300_000)],
          map[1 := Proc(11, "k", 300_000, 3, 1, Some(300_000), Holding),
              2 := Proc(22, "k", 300_000, 3, 0, None, Trying(0))])
  }

  lemma {:induction false} OutlivedReached() returns (s0: State, steps: seq<Step>)
    ensures Init(s0) && Run(s0, steps, Outlived())
  {
    s0 := State(0, map[], map[]);
    var s1 := Apply(s0, Begin(1, "k", 11, 300_000, 3));
    var s2 := Apply(s1, Attempt(1));
    var s3 := Apply(s2, Tick(300_000));
    assert Apply(s3, Begin(2, "k", 22, 300_000, 3)) == Outlived();
    RunStep(s3, Begin(2, "k", 22, 300_000, 3), [], Outlived());
    RunStep(s2, Tick(300_000), [Begin(2, "k", 22, 300_000, 3)], Outlived());
    steps := [Tick(300_000)] + [Begin(2, "k", 22, 300_000, 3)];
    RunStep(s1, Attempt(1), steps, Outlived());
    steps := [Attempt(1)] + steps;
    RunStep(s0, Begin(1, "k", 11, 300_000, 3), steps, Outlived());
    steps := [Begin(1, "k", 11, 300_000, 3)] + steps;
  }

  lemma {:induction false} RunConcat(s: State, a: seq<Step>, t: State, b: seq<Step>, u: State)
    requires Run(s, a, t) && Run(t, b, u)
    ensures Run(s, a + b, u)
    decreases |a|
  {
    if a == [] {
      assert a + b == b;
    } else {
      RunConcat(Apply(s, a[0]), a[1..], t, b, u);
      assert a + b == [a[0]] + (a[1..] + b);
      RunStep(s, a[0], a[1..] + b, u);
    }
  }

  lemma {:induction false} RunOne(s: State, a: Step)
    requires Enabled(s, a)
    ensures Run(s, [a], Apply(s, a))
  {
    RunStep(s, a, [], Apply(s, a));
    assert [a] + [] == [a];
  }

  /**
    The lock excludes leases, not bodies: a body that outlives its lease overlaps the next one. With one
    process still working after its 300 s, a second enters. `OverlapsIffOutlived` says when this happens.
   */
  lemma {:induction false} BodiesMayOverlap() returns (s: State, steps: seq<Step>, t: State)
    ensures Init(s) && Run(s, steps, t) && 1 in t.procs && 2 in t.procs && t.procs[1].key == t.procs[2].key
    ensures t.procs[1].phase.Holding? && t.procs[2].phase.Holding?
  {
    s, steps := OutlivedReached();
    t := Apply(Outlived(), Attempt(2));
    RunOne(Outlived(), Attempt(2));
    RunConcat(s, steps, Outlived(), [Attempt(2)], t);
    steps := steps + [Attempt(2)];
  }

  /**
    A process enters exactly when the key is free, so a second body on a key starts only after the lease
    of the first has run out or was released.
   */
  lemma {:induction false} EntersIffFree(s: State, steps: seq<Step>, t: State, p: nat)
    requires Init(s) && Run(s, steps, t) && Enabled(t, Attempt(p))
    ensures var u := Apply(t, Attempt(p));
            && (HoldsLease(u, p) <==> !Live(t, t.procs[p].key))
            && (HoldsLease(u, p) ==>
                  forall q | q != p && q in u.procs && u.procs[q].key == u.procs[p].key :: !HoldsLease(u, q))
  {
    RunKeepsInv(s, steps, t);
    var u := Apply(t, Attempt(p));
    StepKeepsInv(t, Attempt(p));
    forall q | q != p && HoldsLease(u, q) && u.procs[q].key == u.procs[p].key ensures !HoldsLease(u, p) {
      assert LeaseKept(u, u.procs[p]) && LeaseKept(u, u.procs[q]) && u.procs[p].id != u.procs[q].id;
    }
    assert WellPhased(t.procs[p], t.now);
  }

  // ----- How long a lease lasts -----

  ghost function Elapsed(steps: seq<Step>): nat
    decreases |steps|
  {
    if steps == [] then 0 else (if steps[0].Tick? then steps[0].ms else 0) + Elapsed(steps[1..])
  }

  /** Time passes by as much as the ticks say. */
  lemma {:induction false} TicksAddUp(s: State, steps: seq<Step>, t: State)
    requires Run(s, steps, t)
    ensures t.now == s.now + Elapsed(steps)
    decreases |steps|
  {
    if steps != [] {
      TicksAddUp(Apply(s, steps[0]), steps[1..], t);
    }
  }

  /** What a process was begun with never changes. */
  lemma {:induction false} ArgumentsKept(s: State, steps: seq<Step>, t: State, p: nat)
    requires Run(s, steps, t) && p in s.procs
    ensures p in t.procs && t.procs[p].key == s.procs[p].key && t.procs[p].id == s.procs[p].id
    ensures t.procs[p].timeoutMs == s.procs[p].timeoutMs && t.procs[p].attempts == s.procs[p].attempts
    decreases |steps|
  {
    if steps != [] {
      ArgumentsKept(Apply(s, steps[0]), steps[1..], t, p);
    }
  }

  /**
    A SET that finds the key free at time `n` stores exactly the id and `n` plus the timeout given to `Begin`, and
    leaves every other key alone. This holds whether or not its reply is heard.
   */
  lemma {:induction false} SetTakesForTimeout(s0: State, before: seq<Step>, s: State, p: nat, key: string, id: nat,
                                              timeoutMs: nat, attempts: nat, between: seq<Step>, t: State, a: Step)
    requires Init(s0) && Run(s0, before, s) && Enabled(s, Begin(p, key, id, timeoutMs, attempts))
    requires Run(Apply(s, Begin(p, key, id, timeoutMs, attempts)), between, t)
    requires (a == Attempt(p) || a == LostReply(p)) && Enabled(t, a)
    requires !(key in t.store && t.now < t.store[key].expires)
    ensures var u := Apply(t, a);
            && u.store == t.store[key := Entry(id, t.now + timeoutMs)]
            && u.now == t.now
            && u.procs[p].lease == Some(t.now + timeoutMs)
            && (u.procs[p].phase.Holding? <==> a == Attempt(p))
  {
    ArgumentsKept(Apply(s, Begin(p, key, id, timeoutMs, attempts)), between, t, p);
  }

  lemma {:induction false} InvThroughout(s0: State, before: seq<Step>, s: State, b: Step, between: seq<Step>, t: State,
                                         a: Step)
    requires Init(s0) && Run(s0, before, s) && Enabled(s, b) && Run(Apply(s, b), between, t) && Enabled(t, a)
    ensures Inv(Apply(t, a))
  {
    RunKeepsInv(s0, before, s);
    StepKeepsInv(s, b);
    RunKeepsInv(Apply(s, b), between, t);
    StepKeepsInv(t, a);
  }

  /** An obtained lease is in the store until it runs out or is released. */
  lemma {:induction false} StoredUntil(s: State, p: nat, until: int, after: seq<Step>, u: State)
    requires Inv(s) && p in s.procs && s.procs[p].lease == Some(until) && Run(s, after, u)
    requires u.now < until && p in u.procs && !u.procs[p].phase.Released?
    ensures s.procs[p].key in u.store && u.store[s.procs[p].key] == Entry(s.procs[p].id, until)
  {
    RunKeepsInv(s, after, u);
    LeaseIsFixed(s, after, u, p);
    ArgumentsKept(s, after, u, p);
    assert LeaseKept(u, u.procs[p]);
  }

  /** No SET on a key that is taken succeeds or changes anything in the store. */
  lemma {:induction false} TakenBlocks(u: State, key: string, b: Step, q: nat)
    requires Inv(u) && key in u.store && u.now < u.store[key].expires
    requires (b == Attempt(q) || b == LostReply(q)) && Enabled(u, b) && u.procs[q].key == key
    ensures Apply(u, b).store == u.store && Apply(u, b).procs[q].lease.None? && !Apply(u, b).procs[q].phase.Holding?
  {
    assert WellPhased(u.procs[q], u.now);
  }

  /**
    For the whole of that time, whatever happens, as long as the process has not released: the key is live under its
    id, and no SET of another process on the key succeeds or changes anything in the store.
   */
  lemma {:induction false} LeaseLasts(s0: State, before: seq<Step>, s: State, p: nat, key: string, id: nat,
                                      timeoutMs: nat, attempts: nat, between: seq<Step>, t: State, a: Step,
                                      after: seq<Step>, u: State)
    requires Init(s0) && Run(s0, before, s) && Enabled(s, Begin(p, key, id, timeoutMs, attempts))
    requires Run(Apply(s, Begin(p, key, id, timeoutMs, attempts)), between, t)
    requires (a == Attempt(p) || a == LostReply(p)) && Enabled(t, a)
    requires !(key in t.store && t.now < t.store[key].expires)
    requires Run(Apply(t, a), after, u) && u.now < t.now + timeoutMs
    requires p in u.procs && !u.procs[p].phase.Released?
    ensures key in u.store && u.store[key] == Entry(id, t.now + timeoutMs)
    ensures forall q | Enabled(u, Attempt(q)) && u.procs[q].key == key ::
              && Apply(u, Attempt(q)).store == u.store
              && Apply(u, Attempt(q)).procs[q].lease.None?
              && !Apply(u, Attempt(q)).procs[q].phase.Holding?
    ensures forall q | Enabled(u, LostReply(q)) && u.procs[q].key == key ::
              && Apply(u, LostReply(q)).store == u.store
              && Apply(u, LostReply(q)).procs[q].lease.None?
  {
    var begin := Begin(p, key, id, timeoutMs, attempts);
    var v := Apply(t, a);
    SetTakesForTimeout(s0, before, s, p, key, id, timeoutMs, attempts, between, t, a);
    ArgumentsKept(Apply(s, begin), between, t, p);
    InvThroughout(s0, before, s, begin, between, t, a);
    StoredUntil(v, p, t.now + timeoutMs, after, u);
    RunKeepsInv(v, after, u);
    forall q | Enabled(u, Attempt(q)) && u.procs[q].key == key
      ensures Apply(u, Attempt(q)).store == u.store && Apply(u, Attempt(q)).procs[q].lease.None?
      ensures !Apply(u, Attempt(q)).procs[q].phase.Holding?
    {
      TakenBlocks(u, key, Attempt(q), q);
    }
    forall q | Enabled(u, LostReply(q)) && u.procs[q].key == key
      ensures Apply(u, LostReply(q)).store == u.store && Apply(u, LostReply(q)).procs[q].lease.None?
    {
      TakenBlocks(u, key, LostReply(q), q);
    }
  }

  /** A process is still in the body on this key although its lease has run out. */
  ghost predicate Outlives(s: State, q: nat, key: string) {
    q in s.procs && s.procs[q].key == key && s.procs[q].phase.Holding?
    && s.procs[q].lease.Some? && s.procs[q].lease.value <= s.now
  }

  /** Another process is in the body on the same key. */
  ghost predicate Overlaps(s: State, p: nat) {
    p in s.procs && s.procs[p].phase.Holding? &&
    exists q :: q != p && q in s.procs && s.procs[q].key == s.procs[p].key && s.procs[q].phase.Holding?
  }

  /**
    In every reachable state an attempt puts a second body on its key if and only if the key is free and some other
    process in the body on it has outlived its lease.
   */
  lemma {:induction false} OverlapsIffOutlived(s: State, steps: seq<Step>, t: State, p: nat)
    requires Init(s) && Run(s, steps, t) && Enabled(t, Attempt(p))
    ensures Overlaps(Apply(t, Attempt(p)), p) <==>
            !Live(t, t.procs[p].key) && exists q :: q != p && Outlives(t, q, t.procs[p].key)
  {
    RunKeepsInv(s, steps, t);
    var key, u := t.procs[p].key, Apply(t, Attempt(p));
    if q :| q != p && q in u.procs && u.procs[q].key == key && u.procs[q].phase.Holding? && !Live(t, key) {
      assert LeaseKept(t, t.procs[q]) && WellPhased(t.procs[q], t.now);
      assert Outlives(t, q, key);
    }
    if q :| q != p && Outlives(t, q, key) {
      assert u.procs[q] == t.procs[q];
    }
  }

  // ----- The code of one process, with everyone else running in between -----

  /** What becomes of one command: it works and its reply arrives, it works and the reply is lost, or it does neither. */
  datatype Delivery = Heard | Unheard | Undelivered

  function Command(p: nat, d: Delivery): Step {
    match d
    case Heard => Attempt(p)
    case Unheard => LostReply(p)
    case Undelivered => RedisDown(p)
  }

  /** A SET command: its place in the trace and the state in which it was sent. */
  datatype Try = Try(at: nat, sent: State)

  /** The commands `tries` are on the trace from `s0`, with the given deliveries. */
  ghost predicate Tried(s0: State, trace: seq<Step>, p: nat, delivery: nat -> Delivery, tries: seq<Try>) {
    forall k | 0 <= k < |tries| ::
      && tries[k].at < |trace|
      && Run(s0, trace[..tries[k].at], tries[k].sent)
      && trace[tries[k].at] == Command(p, delivery(k))
  }

  /** Every command was heard and found the key taken. */
  ghost predicate AllTaken(tries: seq<Try>, delivery: nat -> Delivery, key: string) {
    forall k | 0 <= k < |tries| :: delivery(k) == Heard && Live(tries[k].sent, key)
  }

  /**
    Each command but the last was heard and found the key taken. Success: the last was heard and found it free.
    Conflict: all attempts were made and found it taken. Failure: the last was not heard.
   */
  ghost predicate Decides(tries: seq<Try>, delivery: nat -> Delivery, attempts: nat, key: string, acquired: Option<bool>) {
    && |tries| <= attempts
    && if acquired == Some(false) then |tries| == attempts && AllTaken(tries, delivery, key)
       else
         && tries != []
         && AllTaken(tries[..|tries| - 1], delivery, key)
         && if acquired == Some(true) then delivery(|tries| - 1) == Heard && !Live(tries[|tries| - 1].sent, key)
            else delivery(|tries| - 1) != Heard
  }

  lemma {:induction false} DecidesAtLast(tried: seq<Try>, tries: seq<Try>, delivery: nat -> Delivery,
                                         attempts: nat, key: string, acquired: Option<bool>)
    requires |tries| == |tried| + 1 <= attempts && tries[..|tried|] == tried && AllTaken(tried, delivery, key)
    requires match acquired
             case Some(taken) => taken && delivery(|tried|) == Heard && !Live(tries[|tried|].sent, key)
             case None => delivery(|tried|) != Heard
    ensures Decides(tries, delivery, attempts, key, acquired)
  {
  }

  lemma {:induction false} TakenToo(tried: seq<Try>, tries: seq<Try>, delivery: nat -> Delivery, key: string)
    requires |tries| == |tried| + 1 && tries[..|tried|] == tried && AllTaken(tried, delivery, key)
    requires delivery(|tried|) == Heard && Live(tries[|tried|].sent, key)
    ensures AllTaken(tries, delivery, key)
  {
    forall k | 0 <= k < |tries| ensures delivery(k) == Heard && Live(tries[k].sent, key) {
      if k < |tried| {
        assert tries[k] == tries[..|tried|][k];
      }
    }
  }

  lemma {:induction false} TriedOn(s0: State, trace: seq<Step>, more: seq<Step>, p: nat, delivery: nat -> Delivery,
                                   tries: seq<Try>)
    requires Tried(s0, trace, p, delivery, tries)
    ensures Tried(s0, trace + more, p, delivery, tries)
  {
    forall k | 0 <= k < |tries| ensures (trace + more)[..tries[k].at] == trace[..tries[k].at] {}
  }

  lemma {:induction false} TriedOnce(s0: State, trace: seq<Step>, s: State, p: nat, delivery: nat -> Delivery,
                                     tries: seq<Try>)
    requires Tried(s0, trace, p, delivery, tries) && Run(s0, trace, s)
    ensures Tried(s0, trace + [Command(p, delivery(|tries|))], p, delivery, tries + [Try(|trace|, s)])
  {
    TriedOn(s0, trace, [Command(p, delivery(|tries|))], p, delivery, tries);
    assert (trace + [Command(p, delivery(|tries|))])[..|trace|] == trace;
  }

  datatype Outcome = Completed | LockConflict | RedisLockError | ReleaseError

  class Cluster {
    var s: State

    constructor (now: int, store: map<string, Entry>)
      ensures Init(s) && s.now == now && s.store == store
    {
      s := State(now, store, map[]);
    }

    method Do(a: Step)
      requires Enabled(s, a)
      modifies this
      ensures s == Apply(old(s), a) && Run(old(s), [a], s)
    {
      RunOne(s, a);
      s := Apply(s, a);
    }

    /** While `p` sleeps or works: of the proposed steps, those of others that are possible happen. */
    method Elsewhere(p: nat, steps: seq<Step>) returns (ghost trace: seq<Step>)
      requires p in s.procs
      modifies this
      ensures Run(old(s), trace, s)
      ensures p in s.procs && s.procs[p] == old(s).procs[p]
    {
      trace := [];
      for i := 0 to |steps|
        invariant Run(old(s), trace, s)
        invariant p in s.procs && s.procs[p] == old(s).procs[p]
      {
        if Actor(steps[i]) != Some(p) && Enabled(s, steps[i]) {
          ghost var t := s;
          Do(steps[i]);
          RunConcat(old(s), trace, t, [steps[i]], s);
          trace := trace + [steps[i]];
        }
      }
    }

    /** One command. */
    method TryOnce(p: nat, attempt: nat, delivery: nat -> Delivery, ghost start: State, ghost before: seq<Step>,
                   ghost tried: seq<Try>)
      returns (ghost trace: seq<Step>, ghost tries: seq<Try>)
      requires p in s.procs && s.procs[p].phase == Trying(attempt) && |tried| == attempt
      requires Run(start, before, s) && Tried(start, before, p, delivery, tried)
      modifies this
      ensures Run(start, trace, s) && Tried(start, trace, p, delivery, tries)
      ensures p in s.procs && s.procs[p].id == old(s).procs[p].id && s.procs[p].key == old(s).procs[p].key
      ensures s.procs[p].attempts == old(s).procs[p].attempts && s.procs[p].timeoutMs == old(s).procs[p].timeoutMs
      ensures s.procs[p].lease == if delivery(attempt) != Undelivered && !Live(old(s), s.procs[p].key)
                                  then Some(old(s).now + s.procs[p].timeoutMs) else old(s).procs[p].lease
      ensures s.procs[p].phase == if delivery(attempt) != Heard then Unavailable
                                  else if !Live(old(s), s.procs[p].key) then Holding
                                  else if attempt + 1 < s.procs[p].attempts then Trying(attempt + 1) else Conflict
      ensures |tries| == attempt + 1 && tries[..attempt] == tried && tries[attempt].sent == old(s)
    {
      TriedOnce(start, before, s, p, delivery, tried);
      tries := tried + [Try(|before|, s)];
      ghost var t := s;
      Do(Command(p, delivery(attempt)));
      RunConcat(start, before, t, [Command(p, delivery(attempt))], s);
      trace := before + [Command(p, delivery(attempt))];
    }

    /** While `p` sleeps or works, on a run that has gone on for a while. */
    method Wait(p: nat, ghost delivery: nat -> Delivery, steps: seq<Step>, ghost start: State, ghost before: seq<Step>,
                ghost tries: seq<Try>)
      returns (ghost trace: seq<Step>)
      requires p in s.procs && Run(start, before, s) && Tried(start, before, p, delivery, tries)
      modifies this
      ensures Run(start, trace, s) && Tried(start, trace, p, delivery, tries)
      ensures p in s.procs && s.procs[p] == old(s).procs[p]
    {
      ghost var t := s;
      ghost var more := Elsewhere(p, steps);
      RunConcat(start, before, t, more, s);
      TriedOn(start, before, more, p, delivery, tries);
      trace := before + more;
    }

    /** One iteration of the attempt loop: a command, and a sleep if there is a next one. */
    method Round(p: nat, attempt: nat, delivery: nat -> Delivery, meanwhile: nat -> seq<Step>, ghost start: State,
                 ghost before: seq<Step>, ghost tried: seq<Try>)
      returns (done: bool, acquired: Option<bool>, slept: bool, ghost trace: seq<Step>, ghost tries: seq<Try>)
      requires p in s.procs && s.procs[p].phase == Trying(attempt) && attempt < s.procs[p].attempts
      requires Run(start, before, s) && Tried(start, before, p, delivery, tried)
      requires |tried| == attempt && AllTaken(tried, delivery, s.procs[p].key)
      modifies this
      ensures Run(start, trace, s) && Tried(start, trace, p, delivery, tries) && |tries| == attempt + 1
      ensures p in s.procs && s.procs[p].id == old(s).procs[p].id && s.procs[p].key == old(s).procs[p].key
      ensures s.procs[p].attempts == old(s).procs[p].attempts && s.procs[p].timeoutMs == old(s).procs[p].timeoutMs
      ensures slept <==> !done && attempt + 1 < s.procs[p].attempts
      ensures done && acquired.Some? ==> s.procs[p].lease == Some(tries[attempt].sent.now + s.procs[p].timeoutMs)
      ensures done ==>
                && acquired != Some(false)
                && Decides(tries, delivery, s.procs[p].attempts, s.procs[p].key, acquired)
                && s.procs[p].phase == if acquired.Some? then Holding else Unavailable
      ensures !done ==>
                && AllTaken(tries, delivery, s.procs[p].key)
                && s.procs[p].phase == if attempt + 1 == s.procs[p].attempts then Conflict else Trying(attempt + 1)
    {
      trace, tries := TryOnce(p, attempt, delivery, start, before, tried);
      if delivery(attempt) != Heard {
        DecidesAtLast(tried, tries, delivery, s.procs[p].attempts, s.procs[p].key, None);
        return true, None, false, trace, tries;
      }
      if s.procs[p].phase.Holding? {
        DecidesAtLast(tried, tries, delivery, s.procs[p].attempts, s.procs[p].key, Some(true));
        return true, Some(true), false, trace, tries;
      }
      TakenToo(tried, tries, delivery, s.procs[p].key);
      done, acquired, slept := false, None, false;
      if attempt < s.procs[p].attempts - 1 {
        slept := true;
        trace := Wait(p, delivery, meanwhile(attempt), start, trace, tries);
      }
    }

    /**
      The attempt loop: true if the lock was taken, false if it never was, nothing if Redis failed. It sleeps between
      attempts, never after the last one.
     */
    method Acquire(p: nat, delivery: nat -> Delivery, meanwhile: nat -> seq<Step>)
      returns (acquired: Option<bool>, sleeps: nat, ghost trace: seq<Step>, ghost tries: seq<Try>)
      requires p in s.procs && s.procs[p].phase == if s.procs[p].attempts == 0 then Conflict else Trying(0)
      modifies this
      ensures Run(old(s), trace, s) && Tried(old(s), trace, p, delivery, tries)
      ensures Decides(tries, delivery, old(s).procs[p].attempts, old(s).procs[p].key, acquired)
      ensures sleeps == if tries == [] then 0 else |tries| - 1
      ensures p in s.procs && s.procs[p].id == old(s).procs[p].id && s.procs[p].key == old(s).procs[p].key
      ensures s.procs[p].attempts == old(s).procs[p].attempts && s.procs[p].timeoutMs == old(s).procs[p].timeoutMs
      ensures acquired == Some(true) ==>
                s.procs[p].lease == Some(tries[|tries| - 1].sent.now + s.procs[p].timeoutMs)
      ensures s.procs[p].phase == match acquired
                                  case Some(true) => Holding
                                  case Some(false) => Conflict
                                  case None => Unavailable
    {
      trace, tries, sleeps := [], [], 0;
      var attempt := 0;
      while attempt < s.procs[p].attempts
        invariant Run(old(s), trace, s) && Tried(old(s), trace, p, delivery, tries) && |tries| == attempt
        invariant p in s.procs && s.procs[p].id == old(s).procs[p].id && s.procs[p].key == old(s).procs[p].key
        invariant s.procs[p].attempts == old(s).procs[p].attempts && 0 <= attempt <= s.procs[p].attempts
        invariant s.procs[p].timeoutMs == old(s).procs[p].timeoutMs
        invariant s.procs[p].phase == if attempt == s.procs[p].attempts then Conflict else Trying(attempt)
        invariant AllTaken(tries, delivery, s.procs[p].key)
        invariant sleeps == if attempt > 0 && attempt == s.procs[p].attempts then attempt - 1 else attempt
        decreases old(s).procs[p].attempts - attempt
      {
        var done, slept;
        done, acquired, slept, trace, tries := Round(p, attempt, delivery, meanwhile, old(s), trace, tries);
        if done {
          return;
        }
        if slept {
          sleeps := sleeps + 1;
        }
        attempt := attempt + 1;
      }
      acquired := Some(false);
    }

    /** The body and the release. */
    method WorkAndRelease(p: nat, ghost delivery: nat -> Delivery, body: seq<Step>, release: Delivery,
                          ghost start: State, ghost before: seq<Step>, ghost tries: seq<Try>)
      returns (ghost trace: seq<Step>)
      requires p in s.procs && s.procs[p].phase.Holding?
      requires Run(start, before, s) && Tried(start, before, p, delivery, tries)
      modifies this
      ensures Run(start, trace, s) && Tried(start, trace, p, delivery, tries)
      ensures p in s.procs && s.procs[p] == old(s).procs[p].(phase := Released)
      ensures trace != [] && trace[|trace| - 1] == Release(p, release != Undelivered)
      ensures release != Undelivered ==> !(Live(s, s.procs[p].key) && s.store[s.procs[p].key].id == s.procs[p].id)
    {
      ghost var worked := Wait(p, delivery, body, start, before, tries);
      ghost var u := s;
      Do(Release(p, release != Undelivered));
      RunConcat(start, worked, u, [Release(p, release != Undelivered)], s);
      TriedOn(start, worked, [Release(p, release != Undelivered)], p, delivery, tries);
      trace := worked + [Release(p, release != Undelivered)];
    }

    /**
      The context manager around a body, however it ends, during which the steps `body` happen elsewhere. The
      outcome is decided by the SET commands sent and by what becomes of the release.
     */
    method JobLock(p: nat, key: string, id: nat, timeoutMs: nat, attempts: nat, delivery: nat -> Delivery,
                   meanwhile: nat -> seq<Step>, body: seq<Step>, release: Delivery)
      returns (outcome: Outcome, ghost trace: seq<Step>, ghost tries: seq<Try>)
      requires Enabled(s, Begin(p, key, id, timeoutMs, attempts))
      modifies this
      ensures Run(old(s), trace, s)
      ensures trace != [] && trace[0] == Begin(p, key, id, timeoutMs, attempts)
      ensures Tried(Apply(old(s), trace[0]), trace[1..], p, delivery, tries)
      ensures Decides(tries, delivery, attempts, key, match outcome
                                                      case RedisLockError => None
                                                      case LockConflict => Some(false)
                                                      case _ => Some(true))
      ensures p in s.procs && s.procs[p].id == id && s.procs[p].key == key
      ensures s.procs[p].timeoutMs == timeoutMs && s.procs[p].attempts == attempts
      ensures outcome == Completed || outcome == ReleaseError ==>
                s.procs[p].lease == Some(tries[|tries| - 1].sent.now + timeoutMs)
      ensures s.procs[p].phase == match outcome
                                  case Completed => Released
                                  case ReleaseError => Released
                                  case LockConflict => Conflict
                                  case RedisLockError => Unavailable
      ensures s.procs[p].phase == Released ==>
                && (outcome == Completed <==> release == Heard)
                && trace[|trace| - 1] == Release(p, release != Undelivered)
                && (release != Undelivered ==> !(Live(s, key) && s.store[key].id == id))
    {
      ghost var start := s;
      Do(Begin(p, key, id, timeoutMs, attempts));
      ghost var begun := s;
      var acquired;
      ghost var rest;
      var sleeps;
      acquired, sleeps, rest, tries := Acquire(p, delivery, meanwhile);
      if acquired == Some(true) {
        rest := WorkAndRelease(p, delivery, body, release, begun, rest, tries);
      }
      RunStep(start, Begin(p, key, id, timeoutMs, attempts), rest, s);
      trace := [Begin(p, key, id, timeoutMs, attempts)] + rest;
      assert trace[1..] == rest;
      outcome := match acquired
        case None => RedisLockError
        case Some(taken) => if !taken then LockConflict else if release == Heard then Completed else ReleaseError;
    }
  }
}
