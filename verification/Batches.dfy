/**
  The batch processor: slices of the items go through a processor one after the other, or concurrently
  under a semaphore. The processor is a function of the batch; it may fail.
 */
module Batches {
  import opened Wrappers

  /** What the processor makes of a batch; a result that is not a list has a truth value of its own. */
  datatype Outcome<R> = Failed | Listed(items: seq<R>) | Single(item: R, truthy: bool)

  /** Exceptions, and `Stuck` for a call that never returns. */
  datatype BatchError = BadBatchSize | BadWorkers | SaveFailed | CallbackFailed | Stuck

  function Appended<R>(o: Outcome<R>): seq<R> {
    match o
    case Failed => []
    case Listed(items) => items
    case Single(item, _) => [item]
  }

  predicate Truthy<R>(o: Outcome<R>) {
    match o
    case Failed => false
    case Listed(items) => items != []
    case Single(_, truthy) => truthy
  }

  /**
    The optional saver and progress callback, as the answers they give: `saves(k)` and `reports(k)` tell
    whether the call for batch `k` returns rather than raises. Absent ones always return.
   */
  datatype Hooks = Hooks(saves: nat -> bool, reports: nat -> bool)

  /** No hook raises on an outcome it is called for. */
  predicate Quiet<R>(h: Hooks, o: Outcome<R>, k: nat) {
    o.Failed? || ((Truthy(o) ==> h.saves(k)) && h.reports(k))
  }

  // ----- Slices -----

  function SlicesFrom<T>(items: seq<T>, size: nat, i: nat): seq<seq<T>>
    requires size > 0
    decreases |items| - i
  {
    if i >= |items| then []
    else [items[i..if i + size < |items| then i + size else |items|]] + SlicesFrom(items, size, i + size)
  }

  /** `range(0, n, size)`: nothing for a negative step. */
  function Slices<T>(items: seq<T>, size: int): seq<seq<T>>
    requires size != 0
  {
    if size < 0 then [] else SlicesFrom(items, size, 0)
  }

  function Flatten<T>(parts: seq<seq<T>>): seq<T> {
    if parts == [] then [] else parts[0] + Flatten(parts[1..])
  }

  /** The slices put together are the items; none is empty, all but the last are full. */
  lemma {:induction false} SlicesPartition<T>(items: seq<T>, size: nat, i: nat)
    requires size > 0 && i <= |items|
    ensures Flatten(SlicesFrom(items, size, i)) == items[i..]
    ensures var s := SlicesFrom(items, size, i);
            forall k | 0 <= k < |s| :: 0 < |s[k]| <= size && (k < |s| - 1 ==> |s[k]| == size)
    decreases |items| - i
  {
    if i < |items| {
      var parts := SlicesFrom(items, size, i);
      if i + size <= |items| {
        SlicesPartition(items, size, i + size);
        assert items[i..i + size] + items[i + size..] == items[i..];
      } else {
        assert SlicesFrom(items, size, i + size) == [];
      }
      assert parts[1..] == SlicesFrom(items, size, i + size);
    }
  }

  /** So the slices of a list cover all of it from its beginning; with a negative size there are none. */
  lemma {:induction false} SlicesCover<T>(items: seq<T>, size: int)
    requires size != 0
    ensures size > 0 ==> Flatten(Slices(items, size)) == items
    ensures size > 0 ==> var s := Slices(items, size);
                         forall k | 0 <= k < |s| :: 0 < |s[k]| <= size && (k < |s| - 1 ==> |s[k]| == size)
    ensures size < 0 ==> Slices(items, size) == []
  {
    if size > 0 {
      SlicesPartition(items, size, 0);
      assert items[0..] == items;
    }
  }

  function Outcomes<T, R>(batches: seq<seq<T>>, f: seq<T> -> Outcome<R>): (o: seq<Outcome<R>>)
    ensures |o| == |batches| && forall k | 0 <= k < |o| :: o[k] == f(batches[k])
  {
    seq(|batches|, k requires 0 <= k < |batches| => f(batches[k]))
  }

  // ----- The two ways of collecting -----

  /** Sequentially, an exception of any kind only skips to the next batch. */
  function Lenient<R>(o: seq<Outcome<R>>, h: Hooks, k: nat): seq<R>
    requires k <= |o|
    decreases |o| - k
  {
    if k == |o| then []
    else (if Truthy(o[k]) && !h.saves(k) then [] else Appended(o[k])) + Lenient(o, h, k + 1)
  }

  /** In parallel, an exception of a hook ends everything. */
  function Strict<R>(o: seq<Outcome<R>>, h: Hooks, k: nat): Result<seq<R>, BatchError>
    requires k <= |o|
    decreases |o| - k
  {
    if k == |o| then Ok([])
    else if Truthy(o[k]) && !h.saves(k) then Err(SaveFailed)
    else if !o[k].Failed? && !h.reports(k) then Err(CallbackFailed)
    else
      var rest := Strict(o, h, k + 1);
      if rest.Ok? then Ok(Appended(o[k]) + rest.value) else rest
  }

  function Prefixed<R>(results: seq<R>, rest: Result<seq<R>, BatchError>): Result<seq<R>, BatchError> {
    if rest.Ok? then Ok(results + rest.value) else rest
  }

  lemma {:induction false} PrefixedStep<R>(results: seq<R>, o: seq<Outcome<R>>, h: Hooks, k: nat)
    requires k < |o|
    ensures Prefixed(results, Strict(o, h, k)) ==
            if Truthy(o[k]) && !h.saves(k) then Err(SaveFailed)
            else if !o[k].Failed? && !h.reports(k) then Err(CallbackFailed)
            else Prefixed(results + Appended(o[k]), Strict(o, h, k + 1))
  {
    var rest := Strict(o, h, k + 1);
    if rest.Ok? {
      assert results + (Appended(o[k]) + rest.value) == results + Appended(o[k]) + rest.value;
    }
  }

  /** The in-order concatenation of the results of the succeeding batches. */
  function Concatenated<R>(o: seq<Outcome<R>>): seq<R> {
    if o == [] then [] else Appended(o[0]) + Concatenated(o[1..])
  }

  /**
    Collecting in parallel succeeds exactly when no hook raises, and then both ways give the in-order
    concatenation of the succeeding batches.
   */
  lemma {:induction false} CollectorsAgree<R>(o: seq<Outcome<R>>, h: Hooks, k: nat)
    requires k <= |o|
    ensures Strict(o, h, k).Ok? <==> forall j: nat | k <= j < |o| :: Quiet(h, o[j], j)
    ensures Strict(o, h, k).Ok? ==>
              Strict(o, h, k).value == Lenient(o, h, k) && Lenient(o, h, k) == Concatenated(o[k..])
    decreases |o| - k
  {
    if k < |o| {
      CollectorsAgree(o, h, k + 1);
      assert o[k..][1..] == o[k + 1..];
      assert Strict(o, h, k).Ok? ==> Quiet(h, o[k], k);
    }
  }

  // ----- Element-wise processing -----

  function Mapped<T, R>(items: seq<T>, g: T -> R): (r: seq<R>)
    ensures |r| == |items| && forall i | 0 <= i < |r| :: r[i] == g(items[i])
  {
    seq(|items|, i requires 0 <= i < |items| => g(items[i]))
  }

  lemma {:induction false} MappedFlatten<T, R>(batches: seq<seq<T>>, o: seq<Outcome<R>>, g: T -> R)
    requires |o| == |batches| && forall k | 0 <= k < |o| :: o[k] == Listed(Mapped(batches[k], g))
    ensures Concatenated(o) == Mapped(Flatten(batches), g)
  {
    if o != [] {
      MappedFlatten(batches[1..], o[1..], g);
      assert Mapped(batches[0] + Flatten(batches[1..]), g) == Mapped(batches[0], g) + Mapped(Flatten(batches[1..]), g);
    }
  }

  /**
    For a processor that lists one result per item, and hooks that never raise, both ways return exactly the results of
    all items in their order, whatever the batch size.
   */
  lemma {:induction false} BatchSizeIrrelevant<T, R>(items: seq<T>, size: int, f: seq<T> -> Outcome<R>, g: T -> R, h: Hooks)
    requires size > 0 && forall batch :: f(batch) == Listed(Mapped(batch, g))
    requires forall k: nat :: h.saves(k) && h.reports(k)
    ensures var o := Outcomes(Slices(items, size), f);
            Lenient(o, h, 0) == Mapped(items, g) && Strict(o, h, 0) == Ok(Mapped(items, g))
  {
    var batches := Slices(items, size);
    var o := Outcomes(batches, f);
    SlicesCover(items, size);
    MappedFlatten(batches, o, g);
    CollectorsAgree(o, h, 0);
    assert o[0..] == o;
  }

  /** A processor that lists its batch gives the items back. */
  lemma {:induction false} ItemsComeBack<T>(items: seq<T>, size: int, f: seq<T> -> Outcome<T>, h: Hooks)
    requires size > 0 && forall batch :: f(batch) == Listed(batch)
    requires forall k: nat :: h.saves(k) && h.reports(k)
    ensures var o := Outcomes(Slices(items, size), f); Lenient(o, h, 0) == items && Strict(o, h, 0) == Ok(items)
  {
    forall batch: seq<T> ensures f(batch) == Listed(Mapped(batch, x => x)) {
      assert Mapped(batch, x => x) == batch;
    }
    BatchSizeIrrelevant(items, size, f, x => x, h);
    assert Mapped(items, x => x) == items;
  }

  // ----- When hooks are called -----

  /** Saving batch `k` is tried and raises: only a result that counts as true is saved, so not an empty list. */
  ghost predicate SaveRaises<R>(o: seq<Outcome<R>>, h: Hooks, k: nat)
    requires k < |o|
  {
    !h.saves(k) && ((o[k].Listed? && |o[k].items| > 0) || (o[k].Single? && o[k].truthy))
  }

  /** Reporting batch `k` is tried, after its save did not raise, and raises. */
  ghost predicate ReportRaises<R>(o: seq<Outcome<R>>, h: Hooks, k: nat)
    requires k < |o|
  {
    !h.reports(k) && !SaveRaises(o, h, k) && o[k] != Failed
  }

  /** In parallel, the first hook that raises decides the error. */
  lemma {:induction false} FirstRaiseDecides<R>(o: seq<Outcome<R>>, h: Hooks, k: nat, j: nat)
    requires k <= j < |o| && (SaveRaises(o, h, j) || ReportRaises(o, h, j))
    requires forall i: nat | k <= i < j :: !SaveRaises(o, h, i) && !ReportRaises(o, h, i)
    ensures Strict(o, h, k) == Err(if SaveRaises(o, h, j) then SaveFailed else CallbackFailed)
    decreases j - k
  {
    if k < j {
      FirstRaiseDecides(o, h, k + 1, j);
      assert !SaveRaises(o, h, k) && !ReportRaises(o, h, k);
    }
  }

  /** Without one there is no error. */
  lemma {:induction false} NoRaiseNoError<R>(o: seq<Outcome<R>>, h: Hooks, k: nat)
    requires k <= |o|
    ensures Strict(o, h, k).Ok? <==> forall i: nat | k <= i < |o| :: !SaveRaises(o, h, i) && !ReportRaises(o, h, i)
  {
    CollectorsAgree(o, h, k);
    forall i: nat | k <= i < |o| ensures Quiet(h, o[i], i) <==> !SaveRaises(o, h, i) && !ReportRaises(o, h, i) {}
  }

  /** What batch `k` adds in the sequential form: nothing if the processor failed or its save raised. */
  ghost function Contribution<R>(o: seq<Outcome<R>>, h: Hooks, k: nat): seq<R>
    requires k < |o|
  {
    if SaveRaises(o, h, k) then []
    else if o[k].Listed? then o[k].items
    else if o[k].Single? then [o[k].item] else []
  }

  /** Sequentially, the results are the contributions of all batches in order. */
  lemma {:induction false} LenientContributions<R>(o: seq<Outcome<R>>, h: Hooks, k: nat)
    requires k < |o|
    ensures Lenient(o, h, k) == Contribution(o, h, k) + Lenient(o, h, k + 1)
    ensures Lenient(o, h, |o|) == []
  {
  }

  /** Batch `k` moves from what is to come to the results. */
  lemma {:induction false} LenientSnoc<R>(results: seq<R>, o: seq<Outcome<R>>, h: Hooks, k: nat)
    requires k < |o|
    ensures results + Lenient(o, h, k) ==
            (if o[k].Failed? || (Truthy(o[k]) && !h.saves(k)) then results else results + Appended(o[k]))
            + Lenient(o, h, k + 1)
  {
    var rest := Lenient(o, h, k + 1);
    assert results + (Appended(o[k]) + rest) == results + Appended(o[k]) + rest;
    assert [] + rest == rest;
  }

  // ----- Schedules -----

  /** A task is not admitted yet, in flight, or done. */
  datatype Slot<R> = Waiting | InFlight | Done(outcome: Outcome<R>)

  /** All tasks in order, and how many more the semaphore admits. */
  datatype Pool<R> = Pool(slots: seq<Slot<R>>, permits: int)

  /** Task `i` can be admitted, or is in flight and can finish. */
  predicate CanMove<R>(p: Pool<R>, i: nat) {
    i < |p.slots| && (p.slots[i].InFlight? || (p.slots[i].Waiting? && p.permits > 0))
  }

  function Moved<R>(p: Pool<R>, o: seq<Outcome<R>>, i: nat): Pool<R>
    requires CanMove(p, i) && i < |o|
  {
    if p.slots[i].Waiting? then Pool(p.slots[i := InFlight], p.permits - 1)
    else Pool(p.slots[i := Done(o[i])], p.permits + 1)
  }

  function Started<R>(n: nat, workers: int): Pool<R> {
    Pool(seq(n, i => Waiting), workers)
  }

  function InFlightCount<R>(slots: seq<Slot<R>>): nat {
    if slots == [] then 0
    else InFlightCount(slots[..|slots| - 1]) + if slots[|slots| - 1].InFlight? then 1 else 0
  }

  /** The moves still to be made: two for a waiting task, one for a task in flight. */
  function MovesLeft<R>(slots: seq<Slot<R>>): nat {
    if slots == [] then 0
    else
      MovesLeft(slots[..|slots| - 1]) +
      match slots[|slots| - 1]
      case Waiting => 2
      case InFlight => 1
      case Done(_) => 0
  }

  predicate AllDone<R>(p: Pool<R>) {
    forall i | 0 <= i < |p.slots| :: p.slots[i].Done?
  }

  /** The tasks move in this order, one at a time. */
  ghost predicate Schedule<R>(p: Pool<R>, o: seq<Outcome<R>>, moves: seq<nat>, q: Pool<R>)
    decreases |moves|
  {
    if moves == [] then p == q
    else
      && moves[0] < |o|
      && CanMove(p, moves[0])
      && Schedule(Moved(p, o, moves[0]), o, moves[1..], q)
  }

  ghost predicate PoolInv<R>(p: Pool<R>, o: seq<Outcome<R>>, workers: int) {
    && |p.slots| == |o|
    && p.permits >= 0
    && InFlightCount(p.slots) + p.permits == workers
    && forall i | 0 <= i < |o| && p.slots[i].Done? :: p.slots[i].outcome == o[i]
  }

  lemma {:induction false} CountsAfterUpdate<R>(slots: seq<Slot<R>>, i: nat, s: Slot<R>)
    requires i < |slots|
    ensures InFlightCount(slots[i := s]) ==
            InFlightCount(slots) - (if slots[i].InFlight? then 1 else 0) + (if s.InFlight? then 1 else 0)
    ensures MovesLeft(slots[i := s]) == MovesLeft(slots) - MovesLeft([slots[i]]) + MovesLeft([s])
  {
    var n := |slots| - 1;
    if i < n {
      CountsAfterUpdate(slots[..n], i, s);
      assert slots[i := s][..n] == slots[..n][i := s];
    } else {
      assert slots[i := s][..n] == slots[..n];
      assert MovesLeft([slots[i]][..0]) == 0 && MovesLeft([s][..0]) == 0;
    }
  }

  lemma {:induction false} CountsAtStart<R>(n: nat, workers: int)
    ensures InFlightCount(Started<R>(n, workers).slots) == 0 && MovesLeft(Started<R>(n, workers).slots) == 2 * n
  {
    if n > 0 {
      CountsAtStart<R>(n - 1, workers);
      assert Started<R>(n, workers).slots[..n - 1] == Started<R>(n - 1, workers).slots;
    }
  }

  lemma {:induction false} MoveKeepsInv<R>(p: Pool<R>, o: seq<Outcome<R>>, workers: int, i: nat)
    requires PoolInv(p, o, workers) && CanMove(p, i)
    ensures PoolInv(Moved(p, o, i), o, workers)
    ensures MovesLeft(Moved(p, o, i).slots) == MovesLeft(p.slots) - 1
  {
    var s := Moved(p, o, i).slots[i];
    CountsAfterUpdate(p.slots, i, s);
    assert MovesLeft([s][..0]) == 0 && MovesLeft([p.slots[i]][..0]) == 0;
  }

  lemma {:induction false} ScheduleKeepsInv<R>(p: Pool<R>, o: seq<Outcome<R>>, workers: int, moves: seq<nat>, q: Pool<R>)
    requires PoolInv(p, o, workers) && Schedule(p, o, moves, q)
    ensures PoolInv(q, o, workers)
    ensures |moves| + MovesLeft(q.slots) == MovesLeft(p.slots)
    decreases |moves|
  {
    if moves != [] {
      MoveKeepsInv(p, o, workers, moves[0]);
      ScheduleKeepsInv(Moved(p, o, moves[0]), o, workers, moves[1..], q);
    }
  }

  /**
    In any schedule at most `workers` processors are in flight, at most two moves per task are made, and
    once all tasks are done every one has its own outcome, whatever the order of completion.
   */
  lemma {:induction false} AnySchedule<R>(o: seq<Outcome<R>>, workers: nat, moves: seq<nat>, q: Pool<R>)
    requires Schedule(Started(|o|, workers), o, moves, q)
    ensures InFlightCount(q.slots) <= workers && |moves| <= 2 * |o| && |q.slots| == |o|
    ensures AllDone(q) ==> forall i | 0 <= i < |o| :: q.slots[i] == Done(o[i])
  {
    CountsAtStart<R>(|o|, workers);
    ScheduleKeepsInv(Started(|o|, workers), o, workers, moves, q);
  }

  lemma {:induction false} SomeInFlight<R>(slots: seq<Slot<R>>)
    ensures InFlightCount(slots) > 0 <==> exists i :: 0 <= i < |slots| && slots[i].InFlight?
  {
    if slots != [] {
      var n := |slots| - 1;
      SomeInFlight(slots[..n]);
      if slots[n].InFlight? {
      } else if InFlightCount(slots) > 0 {
        var i :| 0 <= i < n && slots[..n][i].InFlight?;
        assert slots[i].InFlight?;
      } else {
        forall i | 0 <= i < |slots| ensures !slots[i].InFlight? {
          if i < n { assert slots[i] == slots[..n][i]; }
        }
      }
    }
  }

  /** With a worker allowed, something can always move until all is done. */
  lemma {:induction false} NeverStuck<R>(p: Pool<R>, o: seq<Outcome<R>>, workers: int)
    requires PoolInv(p, o, workers) && workers > 0 && !AllDone(p)
    ensures exists i: nat :: CanMove(p, i)
  {
    SomeInFlight(p.slots);
    var i :| 0 <= i < |p.slots| && !p.slots[i].Done?;
    if p.permits == 0 {
      var j :| 0 <= j < |p.slots| && p.slots[j].InFlight?;
      assert CanMove(p, j);
    } else {
      assert CanMove(p, i);
    }
  }

  /** Work stalls before all is done exactly when no worker is allowed, and then nothing ever begins. */
  lemma {:induction false} StallsOnlyWithoutWorkers<R>(o: seq<Outcome<R>>, workers: nat, moves: seq<nat>, q: Pool<R>)
    requires Schedule(Started(|o|, workers), o, moves, q) && o != []
    ensures workers == 0 <==> !AllDone(q) && forall i: nat :: !CanMove(q, i)
    ensures workers == 0 ==> moves == []
  {
    CountsAtStart<R>(|o|, workers);
    ScheduleKeepsInv(Started(|o|, workers), o, workers, moves, q);
    if workers > 0 && !AllDone(q) {
      NeverStuck(q, o, workers);
    }
  }

  class BatchProcessor {
    const batchSize: int
    const maxWorkers: int

    constructor (batchSize: int, maxWorkers: int)
      ensures this.batchSize == batchSize && this.maxWorkers == maxWorkers
    {
      this.batchSize, this.maxWorkers := batchSize, maxWorkers;
    }

    method ProcessBatches<T, R>(items: seq<T>, f: seq<T> -> Outcome<R>, h: Hooks)
      returns (r: Result<seq<R>, BatchError>)
      ensures r == if batchSize == 0 then Err(BadBatchSize)
                   else Ok(Lenient(Outcomes(Slices(items, batchSize), f), h, 0))
    {
      if batchSize == 0 {
        return Err(BadBatchSize);
      }
      var results: seq<R> := [];
      var batches := Slices(items, batchSize);
      ghost var o := Outcomes(batches, f);
      for k := 0 to |batches|
        invariant results + Lenient(o, h, k) == Lenient(o, h, 0)
      {
        var batchResult := f(batches[k]);
        LenientSnoc(results, o, h, k);
        if batchResult.Failed? || (Truthy(batchResult) && !h.saves(k)) {
          continue;
        }
        results := results + Appended(batchResult);
      }
      assert results + [] == results;
      r := Ok(results);
    }

    /**
      Runs all tasks in some order that the semaphore allows and lists the outcomes in task order; nothing, if
      tasks are left and none can move.
     */
    method Gather<T, R>(batches: seq<seq<T>>, f: seq<T> -> Outcome<R>) returns (gathered: Option<seq<Outcome<R>>>)
      requires maxWorkers >= 0
      ensures gathered == if maxWorkers == 0 && batches != [] then None else Some(Outcomes(batches, f))
    {
      ghost var o := Outcomes(batches, f);
      var p: Pool<R> := Started(|batches|, maxWorkers);
      CountsAtStart<R>(|batches|, maxWorkers);
      while exists i | 0 <= i < |p.slots| :: CanMove(p, i)
        invariant PoolInv(p, o, maxWorkers)
        invariant maxWorkers == 0 ==> p == Started(|batches|, maxWorkers)
        decreases MovesLeft(p.slots)
      {
        var i: nat :| i < |p.slots| && CanMove(p, i);
        MoveKeepsInv(p, o, maxWorkers, i);
        p := if p.slots[i].Waiting? then Pool(p.slots[i := InFlight], p.permits - 1)
             else Pool(p.slots[i := Done(f(batches[i]))], p.permits + 1);
      }
      if maxWorkers == 0 && |batches| > 0 {
        return None;
      }
      if !AllDone(p) {
        NeverStuck(p, o, maxWorkers);
      }
      var outcomes := seq(|batches|, i requires 0 <= i < |p.slots| && p.slots[i].Done? => p.slots[i].outcome);
      assert outcomes == o;
      gathered := Some(outcomes);
    }

    method ProcessBatchesParallel<T, R>(items: seq<T>, f: seq<T> -> Outcome<R>, h: Hooks)
      returns (r: Result<seq<R>, BatchError>)
      ensures r == if batchSize == 0 then Err(BadBatchSize)
                   else if maxWorkers < 0 then Err(BadWorkers)
                   else if maxWorkers == 0 && Slices(items, batchSize) != [] then Err(Stuck)
                   else Strict(Outcomes(Slices(items, batchSize), f), h, 0)
    {
      if batchSize == 0 {
        return Err(BadBatchSize);
      }
      var batches := Slices(items, batchSize);
      if maxWorkers < 0 {
        return Err(BadWorkers);
      }
      var gathered := Gather(batches, f);
      if gathered.None? {
        return Err(Stuck);
      }
      var o := gathered.value;
      var results: seq<R> := [];
      assert Strict(o, h, 0).Ok? ==> [] + Strict(o, h, 0).value == Strict(o, h, 0).value;
      for k := 0 to |o|
        invariant Strict(o, h, 0) == Prefixed(results, Strict(o, h, k))
      {
        PrefixedStep(results, o, h, k);
        if o[k].Failed? {
          assert results + Appended(o[k]) == results;
          continue;
        }
        if Truthy(o[k]) && !h.saves(k) {
          return Err(SaveFailed);
        }
        results := results + Appended(o[k]);
        if !h.reports(k) {
          return Err(CallbackFailed);
        }
      }
      assert results + [] == results;
      r := Ok(results);
    }
  }
}
