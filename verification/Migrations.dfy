/**
  The migration runner: a registry walked in order, a status table that survives failed runs, detectors
  that adopt migrations applied by other means, and migration functions that may fail.
 */
module Migrations {
  import opened Wrappers

  datatype Status = Applied | Failed | Planned

  datatype Record = Record(status: Status, attempt: int)

  /** Migration ids in order, and the id of the one that creates the status table itself. */
  datatype Registry = Registry(ids: seq<string>, base: string)

  datatype Detection = Present | Absent | Raises

  /**
    What the outside world does in one run: whether the status table can be set up, and per registry position
    whether reconciling can read the status, what the detector answers, whether adopting is written; whether
    the main loop can read the status, whether the function succeeds, and whether the writes of 'applied',
    'failed' and 'planned' succeed, if need be after the repair of the table's trigger.
   */
  datatype Faults = Faults(tableReady: bool, looksUp: nat -> bool, detect: nat -> Detection, adopts: nat -> bool,
                           sees: nat -> bool, succeeds: nat -> bool, appliedWritten: nat -> bool,
                           failedWritten: nat -> bool, plannedWritten: nat -> bool)

  /** A successful execution of a migration function, and whether it was then recorded as applied. */
  datatype Execution = Execution(index: nat, recorded: bool)

  datatype World = World(table: map<string, Record>, log: seq<Execution>)

  /** Where an exception ends a run. */
  datatype Stop =
    | SetupFailed
    | ReconcileFailed(at: nat)
    | ReadFailed(at: nat)
    | MigrationFailed(at: nat)
    | PlanFailed(at: nat)

  ghost predicate Distinct(reg: Registry) {
    forall i, j | 0 <= i < j < |reg.ids| :: reg.ids[i] != reg.ids[j]
  }

  predicate IsBase(reg: Registry, i: nat)
    requires i < |reg.ids|
  {
    reg.ids[i] == reg.base
  }

  predicate IsApplied(t: map<string, Record>, id: string) {
    id in t && t[id].status == Applied
  }

  /** INSERT ... ON CONFLICT: the attempt of an existing row goes up by one. */
  function Upsert(t: map<string, Record>, id: string, status: Status, attempt: int): map<string, Record> {
    t[id := Record(status, if id in t then t[id].attempt + 1 else attempt)]
  }

  // ----- One position of each of the two loops -----

  /** A detector finds position `i` applied that the table does not call so. */
  predicate Found(reg: Registry, f: Faults, t: map<string, Record>, i: nat)
    requires i < |reg.ids|
  {
    !IsBase(reg, i) && !IsApplied(t, reg.ids[i]) && f.detect(i) == Present
  }

  /** Reconciling position `i` raises: in the read, in the detector, or in the write. */
  predicate ReconcileRaises(reg: Registry, f: Faults, t: map<string, Record>, i: nat)
    requires i < |reg.ids|
  {
    || (!IsBase(reg, i) && !f.looksUp(i))
    || (!IsBase(reg, i) && !IsApplied(t, reg.ids[i]) && f.detect(i) == Raises)
    || (Found(reg, f, t, i) && !f.adopts(i))
  }

  function ReconcileOne(reg: Registry, f: Faults, t: map<string, Record>, i: nat): map<string, Record>
    requires i < |reg.ids|
  {
    if Found(reg, f, t, i) then Upsert(t, reg.ids[i], Applied, 0) else t
  }

  /** The main loop has something to do at position `i`. */
  predicate Due(reg: Registry, t: map<string, Record>, i: nat)
    requires i < |reg.ids|
  {
    IsBase(reg, i) || !IsApplied(t, reg.ids[i])
  }

  /** The main loop cannot read the status of position `i`. */
  predicate Unread(reg: Registry, f: Faults, i: nat)
    requires i < |reg.ids|
  {
    !IsBase(reg, i) && !f.sees(i)
  }

  /** A real run stops at position `i`. */
  predicate Breaks(reg: Registry, f: Faults, t: map<string, Record>, i: nat)
    requires i < |reg.ids|
  {
    Unread(reg, f, i) || (Due(reg, t, i) && !(f.succeeds(i) && f.appliedWritten(i)))
  }

  function BreakAt(reg: Registry, f: Faults, i: nat): Stop
    requires i < |reg.ids|
  {
    if Unread(reg, f, i) then ReadFailed(i) else MigrationFailed(i)
  }

  /** What a real run does at position `i`, whether or not it stops there. */
  function MigrateOne(reg: Registry, f: Faults, w: World, i: nat): World
    requires i < |reg.ids|
  {
    if Unread(reg, f, i) || !Due(reg, w.table, i) then w
    else
      var log := if f.succeeds(i) then w.log + [Execution(i, f.appliedWritten(i))] else w.log;
      var table := if f.succeeds(i) && f.appliedWritten(i) then Upsert(w.table, reg.ids[i], Applied, 1)
                   else if f.failedWritten(i) then Upsert(w.table, reg.ids[i], Failed, 1)
                   else w.table;
      World(table, log)
  }

  function PlanOne(reg: Registry, t: map<string, Record>, i: nat): map<string, Record>
    requires i < |reg.ids|
  {
    if Due(reg, t, i) then Upsert(t, reg.ids[i], Planned, 0) else t
  }

  // ----- Whole loops, from position `i` on -----

  function ReconcileFrom(reg: Registry, f: Faults, t: map<string, Record>, i: nat): (map<string, Record>, Option<Stop>)
    requires i <= |reg.ids|
    decreases |reg.ids| - i
  {
    if i == |reg.ids| then (t, None)
    else if ReconcileRaises(reg, f, t, i) then (t, Some(ReconcileFailed(i)))
    else ReconcileFrom(reg, f, ReconcileOne(reg, f, t, i), i + 1)
  }

  function MigrateFrom(reg: Registry, f: Faults, w: World, i: nat): (World, Option<Stop>)
    requires i <= |reg.ids|
    decreases |reg.ids| - i
  {
    if i == |reg.ids| then (w, None)
    else
      var w' := MigrateOne(reg, f, w, i);
      if Breaks(reg, f, w.table, i) then (w', Some(BreakAt(reg, f, i))) else MigrateFrom(reg, f, w', i + 1)
  }

  function PlanFrom(reg: Registry, f: Faults, t: map<string, Record>, i: nat): (map<string, Record>, Option<Stop>)
    requires i <= |reg.ids|
    decreases |reg.ids| - i
  {
    if i == |reg.ids| then (t, None)
    else if Unread(reg, f, i) then (t, Some(ReadFailed(i)))
    else if Due(reg, t, i) && !f.plannedWritten(i) then (t, Some(PlanFailed(i)))
    else PlanFrom(reg, f, PlanOne(reg, t, i), i + 1)
  }

  /** The table is set up when the registry holds anything besides the base migration. */
  predicate NeedsTable(reg: Registry) {
    exists i: nat :: i < |reg.ids| && !IsBase(reg, i)
  }

  function RunOutcome(reg: Registry, f: Faults, dryRun: bool, w: World): (World, Option<Stop>) {
    if NeedsTable(reg) && !f.tableReady then (w, Some(SetupFailed))
    else
      var (t, stop) := ReconcileFrom(reg, f, w.table, 0);
      if stop.Some? then (World(t, w.log), stop)
      else if dryRun then
        var (planned, stopped) := PlanFrom(reg, f, t, 0);
        (World(planned, w.log), stopped)
      else MigrateFrom(reg, f, World(t, w.log), 0)
  }

  class Runner {
    const reg: Registry
    var w: World

    constructor (reg: Registry, table: map<string, Record>)
      ensures this.reg == reg && w == World(table, [])
    {
      this.reg, w := reg, World(table, []);
    }

    method RecordStatus(id: string, status: Status, attempt: int)
      modifies this
      ensures w == World(Upsert(old(w).table, id, status, attempt), old(w).log)
    {
      var attempts := if id in w.table then w.table[id].attempt + 1 else attempt;
      w := w.(table := w.table[id := Record(status, attempts)]);
    }

    method Reconcile(f: Faults) returns (stop: Option<Stop>)
      modifies this
      ensures var (t, s) := ReconcileFrom(reg, f, old(w).table, 0); w == World(t, old(w).log) && stop == s
    {
      var i := 0;
      while i < |reg.ids|
        invariant 0 <= i <= |reg.ids| && w.log == old(w).log
        invariant ReconcileFrom(reg, f, w.table, i) == ReconcileFrom(reg, f, old(w).table, 0)
      {
        if reg.ids[i] != reg.base {
          if !f.looksUp(i) {
            return Some(ReconcileFailed(i));
          }
          if !IsApplied(w.table, reg.ids[i]) {
            var found := f.detect(i);
            if found == Raises || (found == Present && !f.adopts(i)) {
              return Some(ReconcileFailed(i));
            }
            if found == Present {
              RecordStatus(reg.ids[i], Applied, 0);
            }
          }
        }
        i := i + 1;
      }
      stop := None;
    }

    /** One iteration of the main loop: nothing, or the exception that ends the run. */
    method Visit(i: nat, dryRun: bool, f: Faults) returns (stop: Option<Stop>)
      requires i < |reg.ids|
      modifies this
      ensures dryRun ==>
                && w.log == old(w).log
                && PlanFrom(reg, f, old(w).table, i) ==
                   if stop.Some? then (w.table, stop) else PlanFrom(reg, f, w.table, i + 1)
      ensures !dryRun ==> MigrateFrom(reg, f, old(w), i) == if stop.Some? then (w, stop) else MigrateFrom(reg, f, w, i + 1)
    {
      if reg.ids[i] != reg.base {
        if !f.sees(i) {
          return Some(ReadFailed(i));
        }
        if IsApplied(w.table, reg.ids[i]) {
          return None;
        }
      }
      if dryRun {
        if !f.plannedWritten(i) {
          return Some(PlanFailed(i));
        }
        RecordStatus(reg.ids[i], Planned, 0);
        return None;
      }
      if f.succeeds(i) {
        w := w.(log := w.log + [Execution(i, f.appliedWritten(i))]);
        if f.appliedWritten(i) {
          RecordStatus(reg.ids[i], Applied, 1);
          return None;
        }
      }
      if f.failedWritten(i) {
        RecordStatus(reg.ids[i], Failed, 1);
      }
      stop := Some(MigrationFailed(i));
    }

    method RunAll(dryRun: bool, f: Faults) returns (stop: Option<Stop>)
      modifies this
      ensures (w, stop) == RunOutcome(reg, f, dryRun, old(w))
    {
      if NeedsTable(reg) && !f.tableReady {
        return Some(SetupFailed);
      }
      stop := Reconcile(f);
      if stop.Some? {
        return;
      }
      ghost var t := w;
      for i := 0 to |reg.ids|
        invariant stop.None?
        invariant dryRun ==> w.log == old(w).log && PlanFrom(reg, f, w.table, i) == PlanFrom(reg, f, t.table, 0)
        invariant !dryRun ==> MigrateFrom(reg, f, w, i) == MigrateFrom(reg, f, t, 0)
      {
        stop := Visit(i, dryRun, f);
        if stop.Some? {
          return;
        }
      }
    }
  }

  // ----- One run -----

  /** Reconciling lowers nothing. */
  lemma {:induction false} ReconcileOnlyRaises(reg: Registry, f: Faults, t: map<string, Record>, i: nat)
    requires i <= |reg.ids|
    ensures var t' := ReconcileFrom(reg, f, t, i).0;
            forall id | IsApplied(t, id) :: id in t' && t'[id] == t[id]
    decreases |reg.ids| - i
  {
    if i < |reg.ids| && !ReconcileRaises(reg, f, t, i) {
      ReconcileOnlyRaises(reg, f, ReconcileOne(reg, f, t, i), i + 1);
    }
  }

  ghost predicate SameRow(t: map<string, Record>, t': map<string, Record>, id: string) {
    (id in t <==> id in t') && (id in t ==> t[id] == t'[id])
  }

  /** Reconciling adopts a position if and only if it is found and comes before the stop; other rows stay. */
  lemma {:induction false} ReconcileAt(reg: Registry, f: Faults, t: map<string, Record>, i: nat, j: nat)
    requires Distinct(reg) && i <= |reg.ids| && j < |reg.ids|
    ensures var (t', stop) := ReconcileFrom(reg, f, t, i);
            && (stop.Some? ==> stop.value.ReconcileFailed? && i <= stop.value.at < |reg.ids|)
            && if i <= j && Found(reg, f, t, j) && (stop.None? || j < stop.value.at)
               then reg.ids[j] in t' && t'[reg.ids[j]] == Upsert(t, reg.ids[j], Applied, 0)[reg.ids[j]]
               else SameRow(t, t', reg.ids[j])
    decreases |reg.ids| - i
  {
    if i < |reg.ids| && !ReconcileRaises(reg, f, t, i) {
      var t1 := ReconcileOne(reg, f, t, i);
      ReconcileAt(reg, f, t1, i + 1, j);
      assert ReconcileFrom(reg, f, t, i) == ReconcileFrom(reg, f, t1, i + 1);
      assert i != j ==> SameRow(t, t1, reg.ids[j]);
    }
  }

  /** It ends normally if and only if no position raises, seen from the table at its beginning. */
  lemma {:induction false} ReconcileEnds(reg: Registry, f: Faults, t: map<string, Record>, i: nat)
    requires Distinct(reg) && i <= |reg.ids|
    ensures ReconcileFrom(reg, f, t, i).1.None? <==> forall k: nat | i <= k < |reg.ids| :: !ReconcileRaises(reg, f, t, k)
    decreases |reg.ids| - i
  {
    if i < |reg.ids| && !ReconcileRaises(reg, f, t, i) {
      var t' := ReconcileOne(reg, f, t, i);
      ReconcileEnds(reg, f, t', i + 1);
      assert forall k: nat | i < k < |reg.ids| :: ReconcileRaises(reg, f, t', k) <==> ReconcileRaises(reg, f, t, k) by {
        forall k: nat | i < k < |reg.ids| ensures ReconcileRaises(reg, f, t', k) <==> ReconcileRaises(reg, f, t, k) {
          assert reg.ids[k] != reg.ids[i];
        }
      }
    }
  }

  /** The stop is one of the main loop of a real run, at position `i` or later. */
  ghost predicate MainStop(reg: Registry, stop: Option<Stop>, i: nat) {
    stop.Some? ==> (stop.value.MigrationFailed? || stop.value.ReadFailed?) && i <= stop.value.at < |reg.ids|
  }

  /** The main loop gets to position `j` and can read its status. */
  ghost predicate Reached(stop: Option<Stop>, j: nat) {
    stop.Some? && !stop.value.SetupFailed? ==> j < stop.value.at || (j == stop.value.at && stop.value.MigrationFailed?)
  }

  /**
    A real run leaves everything before the point where it stops applied, and everything if it does not
    stop. A migration that failed is marked so, later positions keep their rows, and an applied migration
    other than the base one stays applied.
   */
  lemma {:induction false} MigrateApplies(reg: Registry, f: Faults, w: World, i: nat, j: nat)
    requires Distinct(reg) && i <= |reg.ids| && j < |reg.ids|
    requires j < i ==> IsApplied(w.table, reg.ids[j])
    ensures var (w', stop) := MigrateFrom(reg, f, w, i);
            && MainStop(reg, stop, i)
            && (stop.None? ==> IsApplied(w'.table, reg.ids[j]))
            && (stop.Some? && j < stop.value.at ==> IsApplied(w'.table, reg.ids[j]))
            && (stop == Some(MigrationFailed(j)) ==>
                  if f.failedWritten(j) then reg.ids[j] in w'.table && w'.table[reg.ids[j]].status == Failed
                  else SameRow(w.table, w'.table, reg.ids[j]))
            && (stop.Some? && !Reached(stop, j) ==> SameRow(w.table, w'.table, reg.ids[j]))
            && (IsApplied(w.table, reg.ids[j]) && !IsBase(reg, j) ==> IsApplied(w'.table, reg.ids[j]))
    decreases |reg.ids| - i
  {
    if i < |reg.ids| && !Breaks(reg, f, w.table, i) {
      MigrateApplies(reg, f, MigrateOne(reg, f, w, i), i + 1, j);
    }
  }

  /** Rows of positions below `i` are out of reach of the rest of the loop. */
  lemma {:induction false} MigrateKeepsEarlier(reg: Registry, f: Faults, w: World, i: nat, j: nat)
    requires Distinct(reg) && j < i <= |reg.ids|
    ensures SameRow(w.table, MigrateFrom(reg, f, w, i).0.table, reg.ids[j])
    decreases |reg.ids| - i
  {
    if i < |reg.ids| && !Breaks(reg, f, w.table, i) {
      MigrateKeepsEarlier(reg, f, MigrateOne(reg, f, w, i), i + 1, j);
    }
  }

  /** A run counts one attempt for each migration it gets to, whether it succeeds or fails. */
  lemma {:induction false} AttemptsCounted(reg: Registry, f: Faults, w: World, i: nat, j: nat)
    requires Distinct(reg) && i <= j < |reg.ids| && Due(reg, w.table, j)
    ensures var (w', stop) := MigrateFrom(reg, f, w, i);
            var id := reg.ids[j];
            Reached(stop, j) && (stop == Some(MigrationFailed(j)) ==> f.failedWritten(j)) ==>
              id in w'.table && w'.table[id].attempt == if id in w.table then w.table[id].attempt + 1 else 1
    decreases |reg.ids| - i
  {
    if !Breaks(reg, f, w.table, i) {
      var w1 := MigrateOne(reg, f, w, i);
      if i < j {
        AttemptsCounted(reg, f, w1, i + 1, j);
      } else {
        MigrateKeepsEarlier(reg, f, w1, i + 1, j);
      }
    }
  }

  /** An execution that the loop from position `i` on may add to the log before it ends with `stop`. */
  ghost predicate AddedFrom(reg: Registry, f: Faults, t: map<string, Record>, i: nat, stop: Option<Stop>,
                            e: Execution, last: bool)
  {
    && i <= e.index < |reg.ids|
    && Due(reg, t, e.index)
    && Reached(stop, e.index)
    && MainStop(reg, stop, i)
    && f.succeeds(e.index)
    && (e.recorded <==> f.appliedWritten(e.index))
    && (if e.recorded then stop != Some(MigrationFailed(e.index)) else last && stop == Some(MigrationFailed(e.index)))
  }

  /** What the rest of the loop may add, the loop from position `i` may. */
  lemma {:induction false} AddedEarlier(reg: Registry, f: Faults, w: World, i: nat, stop: Option<Stop>,
                                        e: Execution, last: bool)
    requires Distinct(reg) && i < |reg.ids|
    requires AddedFrom(reg, f, MigrateOne(reg, f, w, i).table, i + 1, stop, e, last)
    ensures AddedFrom(reg, f, w.table, i, stop, e, last)
  {
    assert reg.ids[e.index] != reg.ids[i];
  }

  /** `w'` has the log of `w`, followed by executions that the loop from position `i` on may add. */
  ghost predicate Appends(reg: Registry, f: Faults, w: World, i: nat, w': World, stop: Option<Stop>) {
    && |w.log| <= |w'.log| && w'.log[..|w.log|] == w.log
    && (forall k | |w.log| <= k < |w'.log| :: AddedFrom(reg, f, w.table, i, stop, w'.log[k], k == |w'.log| - 1))
  }

  lemma {:induction false} AppendsStep(reg: Registry, f: Faults, w: World, i: nat, w': World, stop: Option<Stop>)
    requires Distinct(reg) && i < |reg.ids| && !Breaks(reg, f, w.table, i)
    requires Appends(reg, f, MigrateOne(reg, f, w, i), i + 1, w', stop)
    requires MainStop(reg, stop, i + 1)
    ensures Appends(reg, f, w, i, w', stop)
  {
    var w1 := MigrateOne(reg, f, w, i);
    assert w'.log[..|w.log|] == w'.log[..|w1.log|][..|w.log|];
    forall k | |w.log| <= k < |w'.log|
      ensures AddedFrom(reg, f, w.table, i, stop, w'.log[k], k == |w'.log| - 1)
    {
      if k < |w1.log| {
        assert w'.log[k] == w'.log[..|w1.log|][k] == Execution(i, true);
      } else {
        AddedEarlier(reg, f, w, i, stop, w'.log[k], k == |w'.log| - 1);
      }
    }
  }

  /** A loop only appends to the log, and only executions of due positions up to the one it stops at. */
  lemma {:induction false} MigrateLog(reg: Registry, f: Faults, w: World, i: nat)
    requires Distinct(reg) && i <= |reg.ids|
    ensures var (w', stop) := MigrateFrom(reg, f, w, i); Appends(reg, f, w, i, w', stop)
    decreases |reg.ids| - i
  {
    if i < |reg.ids| && !Breaks(reg, f, w.table, i) {
      var w1 := MigrateOne(reg, f, w, i);
      var (w', stop) := MigrateFrom(reg, f, w, i);
      MigrateLog(reg, f, w1, i + 1);
      MigrateApplies(reg, f, w1, i + 1, i);
      AppendsStep(reg, f, w, i, w', stop);
    }
  }

  lemma {:induction false} MigrateLogAscends(reg: Registry, f: Faults, w: World, i: nat)
    requires Distinct(reg) && i <= |reg.ids|
    ensures var w' := MigrateFrom(reg, f, w, i).0;
            forall k, l | |w.log| <= k < l < |w'.log| :: w'.log[k].index < w'.log[l].index
    decreases |reg.ids| - i
  {
    if i < |reg.ids| && !Breaks(reg, f, w.table, i) {
      var w1 := MigrateOne(reg, f, w, i);
      var (w', stop) := MigrateFrom(reg, f, w, i);
      MigrateLog(reg, f, w1, i + 1);
      MigrateLogAscends(reg, f, w1, i + 1);
      forall l | |w1.log| <= l < |w'.log| ensures i < w'.log[l].index {
        assert AddedFrom(reg, f, w1.table, i + 1, stop, w'.log[l], l == |w'.log| - 1);
      }
      if |w1.log| > |w.log| {
        assert w'.log[|w.log|] == w'.log[..|w1.log|][|w.log|] == Execution(i, true);
      }
    }
  }

  /** Position `j` was executed between `w` and `w'`. */
  ghost predicate Logged(w: World, w': World, j: nat) {
    exists k :: |w.log| <= k < |w'.log| && w'.log[k].index == j
  }

  lemma {:induction false} LoggedWhenReached(reg: Registry, f: Faults, w: World, i: nat, j: nat) returns (k: nat)
    requires Distinct(reg) && i <= j < |reg.ids| && Due(reg, w.table, j) && f.succeeds(j)
    requires Reached(MigrateFrom(reg, f, w, i).1, j)
    ensures var w' := MigrateFrom(reg, f, w, i).0; |w.log| <= k < |w'.log| && w'.log[k].index == j
    decreases |reg.ids| - i
  {
    var w', w1 := MigrateFrom(reg, f, w, i).0, MigrateOne(reg, f, w, i);
    if i < j {
      MigrateLog(reg, f, w1, i + 1);
      k := LoggedWhenReached(reg, f, w1, i + 1, j);
    } else {
      k := |w.log|;
      if !Breaks(reg, f, w.table, i) {
        MigrateLog(reg, f, w1, i + 1);
        assert w'.log[k] == w'.log[..|w1.log|][k];
      }
    }
  }

  /** The loop executes a position with success if and only if it gets to it, it is due, and its function succeeds. */
  lemma {:induction false} LoggedIff(reg: Registry, f: Faults, w: World, i: nat, j: nat)
    requires Distinct(reg) && i <= j < |reg.ids|
    ensures var (w', stop) := MigrateFrom(reg, f, w, i);
            Logged(w, w', j) <==> Reached(stop, j) && Due(reg, w.table, j) && f.succeeds(j)
    decreases |reg.ids| - i
  {
    var (w', stop) := MigrateFrom(reg, f, w, i);
    MigrateLog(reg, f, w, i);
    if Logged(w, w', j) {
      var k :| |w.log| <= k < |w'.log| && w'.log[k].index == j;
      assert AddedFrom(reg, f, w.table, i, stop, w'.log[k], k == |w'.log| - 1);
    } else if Reached(stop, j) && Due(reg, w.table, j) && f.succeeds(j) {
      var k := LoggedWhenReached(reg, f, w, i, j);
    }
  }

  /** When every earlier migration but the base one is applied, nothing but these can keep the loop from `j`. */
  ghost predicate Clear(reg: Registry, f: Faults, i: nat, j: nat)
    requires j < |reg.ids|
    decreases j - i
  {
    if i < j then (if IsBase(reg, i) then f.succeeds(i) && f.appliedWritten(i) else f.sees(i)) && Clear(reg, f, i + 1, j)
    else IsBase(reg, j) || f.sees(j)
  }

  /** Every non-base migration of the positions [i, j) is applied. */
  ghost predicate AppliedBetween(reg: Registry, t: map<string, Record>, i: nat, j: nat)
    requires j <= |reg.ids|
  {
    forall k: nat | i <= k < j && !IsBase(reg, k) :: IsApplied(t, reg.ids[k])
  }

  lemma {:induction false} AppliedBetweenLater(reg: Registry, f: Faults, w: World, i: nat, j: nat)
    requires Distinct(reg) && i < j <= |reg.ids| && AppliedBetween(reg, w.table, i, j)
    ensures AppliedBetween(reg, MigrateOne(reg, f, w, i).table, i + 1, j)
  {
    forall k: nat | i + 1 <= k < j && !IsBase(reg, k) ensures IsApplied(MigrateOne(reg, f, w, i).table, reg.ids[k]) {
      assert reg.ids[k] != reg.ids[i];
    }
  }

  lemma {:induction false} StopsLater(reg: Registry, f: Faults, w: World, i: nat)
    requires i <= |reg.ids|
    ensures MainStop(reg, MigrateFrom(reg, f, w, i).1, i)
    decreases |reg.ids| - i
  {
    if i < |reg.ids| && !Breaks(reg, f, w.table, i) {
      StopsLater(reg, f, MigrateOne(reg, f, w, i), i + 1);
    }
  }

  lemma {:induction false} ReachedIff(reg: Registry, f: Faults, w: World, i: nat, j: nat)
    requires Distinct(reg) && i <= j < |reg.ids| && AppliedBetween(reg, w.table, i, j)
    ensures Reached(MigrateFrom(reg, f, w, i).1, j) <==> Clear(reg, f, i, j)
    decreases |reg.ids| - i
  {
    if !Breaks(reg, f, w.table, i) {
      if i < j {
        AppliedBetweenLater(reg, f, w, i, j);
        ReachedIff(reg, f, MigrateOne(reg, f, w, i), i + 1, j);
      } else {
        StopsLater(reg, f, MigrateOne(reg, f, w, i), i + 1);
      }
    }
  }

  /** Planning marks exactly what a real run would have to do, from position `i` on and before the stop. */
  lemma {:induction false} PlanAt(reg: Registry, f: Faults, t: map<string, Record>, i: nat, j: nat)
    requires Distinct(reg) && i <= |reg.ids| && j < |reg.ids|
    ensures var (t', stop) := PlanFrom(reg, f, t, i);
            && (stop.Some? ==> (stop.value.ReadFailed? || stop.value.PlanFailed?) && i <= stop.value.at < |reg.ids|)
            && if i <= j && Due(reg, t, j) && (stop.None? || j < stop.value.at)
               then reg.ids[j] in t' && t'[reg.ids[j]] == Upsert(t, reg.ids[j], Planned, 0)[reg.ids[j]]
               else SameRow(t, t', reg.ids[j])
    decreases |reg.ids| - i
  {
    if i < |reg.ids| && !Unread(reg, f, i) && !(Due(reg, t, i) && !f.plannedWritten(i)) {
      var t1 := PlanOne(reg, t, i);
      PlanAt(reg, f, t1, i + 1, j);
      assert PlanFrom(reg, f, t, i) == PlanFrom(reg, f, t1, i + 1);
      assert i != j ==> SameRow(t, t1, reg.ids[j]);
    }
  }

  /** Any run, real or dry, keeps every applied migration but the base one applied. */
  lemma {:induction false} AppliedStays(reg: Registry, f: Faults, dryRun: bool, w: World, j: nat)
    requires Distinct(reg) && j < |reg.ids| && reg.ids[j] != reg.base
    requires reg.ids[j] in w.table && w.table[reg.ids[j]].status == Applied
    ensures var t := RunOutcome(reg, f, dryRun, w).0.table; reg.ids[j] in t && t[reg.ids[j]].status == Applied
  {
    ReconcileOnlyRaises(reg, f, w.table, 0);
    var t := ReconcileFrom(reg, f, w.table, 0).0;
    if dryRun {
      PlanAt(reg, f, t, 0, j);
    } else {
      MigrateApplies(reg, f, World(t, w.log), 0, j);
    }
  }

  /**
    A dry run does write: besides what the detectors adopt, it leaves the base migration and everything
    not applied marked as planned, up to where a read or write fails.
   */
  lemma {:induction false} DryRunPlans(reg: Registry, f: Faults, w: World, j: nat)
    requires Distinct(reg) && j < |reg.ids|
    requires !(NeedsTable(reg) && !f.tableReady) && ReconcileFrom(reg, f, w.table, 0).1.None?
    ensures var t := ReconcileFrom(reg, f, w.table, 0).0;
            var (w', stop) := RunOutcome(reg, f, true, w);
            if (reg.ids[j] == reg.base || !(reg.ids[j] in t && t[reg.ids[j]].status == Applied)) &&
               (stop.None? || (!stop.value.SetupFailed? && j < stop.value.at))
            then reg.ids[j] in w'.table && w'.table[reg.ids[j]].status == Planned
            else SameRow(t, w'.table, reg.ids[j])
  {
    PlanAt(reg, f, ReconcileFrom(reg, f, w.table, 0).0, 0, j);
  }

  /** A dry run executes nothing, and lowers no applied row but the base migration's. */
  lemma {:induction false} DryRunIsHarmless(reg: Registry, f: Faults, w: World)
    requires Distinct(reg)
    ensures RunOutcome(reg, f, true, w).0.log == w.log
    ensures forall j: nat | j < |reg.ids| && !IsBase(reg, j) && IsApplied(w.table, reg.ids[j]) ::
              IsApplied(RunOutcome(reg, f, true, w).0.table, reg.ids[j])
  {
    forall j: nat | j < |reg.ids| && !IsBase(reg, j) && IsApplied(w.table, reg.ids[j])
      ensures IsApplied(RunOutcome(reg, f, true, w).0.table, reg.ids[j])
    {
      AppliedStays(reg, f, true, w, j);
    }
  }

  /**
    A real run that ends normally leaves every migration applied; one that the main loop stops leaves every
    earlier one applied and executes no later one.
   */
  lemma {:induction false} RunApplies(reg: Registry, f: Faults, w: World, j: nat)
    requires Distinct(reg) && j < |reg.ids|
    ensures var (w', stop) := RunOutcome(reg, f, false, w);
            var id := reg.ids[j];
            && (stop.None? ==> id in w'.table && w'.table[id].status == Applied)
            && (stop.Some? && (stop.value.MigrationFailed? || stop.value.ReadFailed?) ==>
                  && (j < stop.value.at ==> id in w'.table && w'.table[id].status == Applied)
                  && (stop.value == MigrationFailed(j) && f.failedWritten(j) ==>
                        id in w'.table && w'.table[id].status == Failed)
                  && (forall k | |w.log| <= k < |w'.log| :: w'.log[k].index <= stop.value.at))
  {
    var (t, stop) := ReconcileFrom(reg, f, w.table, 0);
    if stop.None? {
      MigrateApplies(reg, f, World(t, w.log), 0, j);
      MigrateLog(reg, f, World(t, w.log), 0);
      var (w', stopped) := MigrateFrom(reg, f, World(t, w.log), 0);
      forall k | |w.log| <= k < |w'.log| ensures stopped.Some? ==> w'.log[k].index <= stopped.value.at {
        assert AddedFrom(reg, f, t, 0, stopped, w'.log[k], k == |w'.log| - 1);
      }
    } else {
      ReconcileAt(reg, f, w.table, 0, j);
    }
  }

  lemma {:induction false} ReconcileKind(reg: Registry, f: Faults, t: map<string, Record>, i: nat)
    requires i <= |reg.ids|
    ensures ReconcileFrom(reg, f, t, i).1 != Some(SetupFailed)
    decreases |reg.ids| - i
  {
    if i < |reg.ids| && !ReconcileRaises(reg, f, t, i) {
      ReconcileKind(reg, f, ReconcileOne(reg, f, t, i), i + 1);
    }
  }

  lemma {:induction false} MigrateKind(reg: Registry, f: Faults, w: World, i: nat)
    requires i <= |reg.ids|
    ensures MigrateFrom(reg, f, w, i).1 != Some(SetupFailed)
    decreases |reg.ids| - i
  {
    if i < |reg.ids| && !Breaks(reg, f, w.table, i) {
      MigrateKind(reg, f, MigrateOne(reg, f, w, i), i + 1);
    }
  }

  lemma {:induction false} PlanKind(reg: Registry, f: Faults, t: map<string, Record>, i: nat)
    requires i <= |reg.ids|
    ensures PlanFrom(reg, f, t, i).1 != Some(SetupFailed)
    decreases |reg.ids| - i
  {
    if i < |reg.ids| {
      PlanKind(reg, f, PlanOne(reg, t, i), i + 1);
    }
  }

  /** A run ends in setup if and only if the table cannot be set up and some migration is not the base one. */
  lemma {:induction false} SetupNeeded(reg: Registry, f: Faults, dryRun: bool, w: World)
    ensures var (w', stop) := RunOutcome(reg, f, dryRun, w);
            && (stop == Some(SetupFailed) <==> !f.tableReady && exists id :: id in reg.ids && id != reg.base)
            && (stop == Some(SetupFailed) ==> w' == w)
  {
    if NeedsTable(reg) {
      var i: nat :| i < |reg.ids| && !IsBase(reg, i);
      assert reg.ids[i] in reg.ids;
    }
    if id :| id in reg.ids && id != reg.base {
      var i: nat :| i < |reg.ids| && reg.ids[i] == id;
      assert !IsBase(reg, i);
    }
    if |reg.ids| > 0 {
      ReconcileKind(reg, f, w.table, 0);
      MigrateKind(reg, f, World(ReconcileFrom(reg, f, w.table, 0).0, w.log), 0);
      PlanKind(reg, f, ReconcileFrom(reg, f, w.table, 0).0, 0);
    }
  }

  // ----- What one run executes -----

  /** Setup and reconciling go through. */
  predicate Begins(reg: Registry, f: Faults, t: map<string, Record>) {
    (NeedsTable(reg) ==> f.tableReady) && forall k: nat | k < |reg.ids| :: !ReconcileRaises(reg, f, t, k)
  }

  /**
    A run executes a migration with success if and only if it is real, setup and reconciling go through, the
    main loop gets to it, it is the base migration or neither applied nor found by its detector, and its function succeeds.
   */
  lemma {:induction false} RunLogsIff(reg: Registry, f: Faults, dryRun: bool, w: World, j: nat)
    requires Distinct(reg) && j < |reg.ids|
    ensures var (w', stop) := RunOutcome(reg, f, dryRun, w);
            Logged(w, w', j) <==>
            && !dryRun && Begins(reg, f, w.table) && Reached(stop, j)
            && (reg.ids[j] == reg.base ||
                (!(reg.ids[j] in w.table && w.table[reg.ids[j]].status == Applied) && f.detect(j) != Present))
            && f.succeeds(j)
  {
    var (t, stop) := ReconcileFrom(reg, f, w.table, 0);
    ReconcileEnds(reg, f, w.table, 0);
    ReconcileAt(reg, f, w.table, 0, j);
    if Begins(reg, f, w.table) && !dryRun {
      LoggedIff(reg, f, World(t, w.log), 0, j);
      assert Logged(w, MigrateFrom(reg, f, World(t, w.log), 0).0, j) <==>
             Logged(World(t, w.log), MigrateFrom(reg, f, World(t, w.log), 0).0, j);
    }
  }

  /** In this run `j` succeeds, but its 'applied' record is lost. */
  ghost predicate LosesRecord(reg: Registry, f: Faults, w: World, j: nat)
    requires j < |reg.ids|
  {
    var w' := RunOutcome(reg, f, false, w).0;
    |w.log| < |w'.log| && w'.log[|w'.log| - 1] == Execution(j, false)
  }

  lemma {:induction false} UnrecordedIsLast(reg: Registry, f: Faults, w: World, j: nat)
    requires Distinct(reg) && j < |reg.ids|
    ensures var w' := MigrateFrom(reg, f, w, 0).0;
            |w.log| < |w'.log| && w'.log[|w'.log| - 1] == Execution(j, false) <==> Logged(w, w', j) && !f.appliedWritten(j)
  {
    var (w', stop) := MigrateFrom(reg, f, w, 0);
    MigrateLog(reg, f, w, 0);
    if Logged(w, w', j) {
      var k :| |w.log| <= k < |w'.log| && w'.log[k].index == j;
      assert AddedFrom(reg, f, w.table, 0, stop, w'.log[k], k == |w'.log| - 1);
    }
    if |w.log| < |w'.log| {
      assert AddedFrom(reg, f, w.table, 0, stop, w'.log[|w'.log| - 1], true);
    }
  }

  /** That is when it executes `j` with success and the write of 'applied' fails. */
  lemma {:induction false} LosesRecordIff(reg: Registry, f: Faults, w: World, j: nat)
    requires Distinct(reg) && j < |reg.ids|
    ensures LosesRecord(reg, f, w, j) <==> Logged(w, RunOutcome(reg, f, false, w).0, j) && !f.appliedWritten(j)
  {
    var start := World(ReconcileFrom(reg, f, w.table, 0).0, w.log);
    UnrecordedIsLast(reg, f, start, j);
    assert Logged(w, MigrateFrom(reg, f, start, 0).0, j) <==> Logged(start, MigrateFrom(reg, f, start, 0).0, j);
  }

  /** Then the run stops there, with every earlier migration applied and this one not. */
  lemma {:induction false} LostRecordLeaves(reg: Registry, f: Faults, w: World, j: nat)
    requires Distinct(reg) && j < |reg.ids| && !IsBase(reg, j) && LosesRecord(reg, f, w, j)
    ensures var w' := RunOutcome(reg, f, false, w).0;
            && !(reg.ids[j] in w'.table && w'.table[reg.ids[j]].status == Applied)
            && (forall k: nat | k < j :: reg.ids[k] in w'.table && w'.table[reg.ids[k]].status == Applied)
  {
    var t := ReconcileFrom(reg, f, w.table, 0).0;
    var (w', stop) := MigrateFrom(reg, f, World(t, w.log), 0);
    MigrateLog(reg, f, World(t, w.log), 0);
    assert AddedFrom(reg, f, t, 0, stop, w'.log[|w'.log| - 1], true);
    MigrateApplies(reg, f, World(t, w.log), 0, j);
    forall k: nat | k < j ensures IsApplied(w'.table, reg.ids[k]) {
      MigrateApplies(reg, f, World(t, w.log), 0, k);
    }
  }

  /**
    A migration whose record was lost executes again in the next run if and only if that run is real, setup and
    reconciling go through, the detector does not find it, the base migration and the status reads up to it
    cause no stop, and its function succeeds again.
   */
  lemma {:induction false} RepeatsIff(reg: Registry, f: Faults, w: World, f': Faults, dryRun: bool, j: nat)
    requires Distinct(reg) && j < |reg.ids| && reg.ids[j] != reg.base && LosesRecord(reg, f, w, j)
    ensures var w' := RunOutcome(reg, f, false, w).0;
            Logged(w', RunOutcome(reg, f', dryRun, w').0, j) <==>
            !dryRun && Begins(reg, f', w'.table) && f'.detect(j) != Present && Clear(reg, f', 0, j) && f'.succeeds(j)
  {
    var w' := RunOutcome(reg, f, false, w).0;
    LostRecordLeaves(reg, f, w, j);
    RunLogsIff(reg, f', dryRun, w', j);
    if Begins(reg, f', w'.table) && !dryRun {
      ReconcileEnds(reg, f', w'.table, 0);
      ReconcileOnlyRaises(reg, f', w'.table, 0);
      ReachedIff(reg, f', World(ReconcileFrom(reg, f', w'.table, 0).0, w'.log), 0, j);
    }
  }

  // ----- Any sequence of runs -----

  /** Below an executed migration, and at it once recorded, everything but the base migration is applied. */
  ghost predicate Frontier(reg: Registry, w: World) {
    forall k, j: nat | 0 <= k < |w.log| && j < |reg.ids| && !IsBase(reg, j) ::
      j < w.log[k].index || (j == w.log[k].index && w.log[k].recorded) ==> IsApplied(w.table, reg.ids[j])
  }

  /** Executions of non-base migrations go up the registry; only an unrecorded one may come again. */
  ghost predicate InOrder(reg: Registry, log: seq<Execution>) {
    && (forall k | 0 <= k < |log| :: log[k].index < |reg.ids|)
    && (forall k, l | 0 <= k < l < |log| && !IsBase(reg, log[k].index) && !IsBase(reg, log[l].index) ::
          log[k].index <= log[l].index && (log[k].recorded ==> log[k].index < log[l].index))
  }

  ghost predicate Inv(reg: Registry, w: World) {
    InOrder(reg, w.log) && Frontier(reg, w)
  }

  lemma {:induction false} RealRunKeepsInv(reg: Registry, f: Faults, w: World)
    requires Distinct(reg) && Inv(reg, w)
    ensures Inv(reg, MigrateFrom(reg, f, w, 0).0)
  {
    var (w', stop) := MigrateFrom(reg, f, w, 0);
    MigrateLog(reg, f, w, 0);
    forall k | 0 <= k < |w.log| ensures w'.log[k] == w.log[k] {
      assert w'.log[..|w.log|][k] == w.log[k];
    }
    MigrateLogAscends(reg, f, w, 0);
    forall k, j: nat | 0 <= k < |w'.log| && j < |reg.ids| && !IsBase(reg, j) &&
                       (j < w'.log[k].index || (j == w'.log[k].index && w'.log[k].recorded))
      ensures IsApplied(w'.table, reg.ids[j])
    {
      MigrateApplies(reg, f, w, 0, j);
      if k >= |w.log| {
        assert AddedFrom(reg, f, w.table, 0, stop, w'.log[k], k == |w'.log| - 1);
      }
    }
    forall k, l | 0 <= k < l < |w'.log| && !IsBase(reg, w'.log[k].index) && !IsBase(reg, w'.log[l].index)
      ensures w'.log[k].index <= w'.log[l].index && (w'.log[k].recorded ==> w'.log[k].index < w'.log[l].index)
    {
      if l >= |w.log| {
        assert AddedFrom(reg, f, w.table, 0, stop, w'.log[l], l == |w'.log| - 1);
      }
    }
    forall k | |w.log| <= k < |w'.log| ensures w'.log[k].index < |reg.ids| {
      assert AddedFrom(reg, f, w.table, 0, stop, w'.log[k], k == |w'.log| - 1);
    }
  }

  lemma {:induction false} RunKeepsInv(reg: Registry, f: Faults, dryRun: bool, w: World)
    requires Distinct(reg) && Inv(reg, w)
    ensures Inv(reg, RunOutcome(reg, f, dryRun, w).0)
  {
    var (t, stop) := ReconcileFrom(reg, f, w.table, 0);
    ReconcileOnlyRaises(reg, f, w.table, 0);
    assert Inv(reg, World(t, w.log));
    if stop.None? && !dryRun && !(NeedsTable(reg) && !f.tableReady) {
      RealRunKeepsInv(reg, f, World(t, w.log));
    } else {
      forall j: nat | j < |reg.ids| && !IsBase(reg, j) && IsApplied(w.table, reg.ids[j])
        ensures IsApplied(RunOutcome(reg, f, dryRun, w).0.table, reg.ids[j])
      {
        AppliedStays(reg, f, dryRun, w, j);
      }
    }
  }

  /** One call of `run_all`. */
  datatype Call = Call(dryRun: bool, faults: Faults)

  ghost function Runs(reg: Registry, w: World, calls: seq<Call>): World {
    if calls == [] then w
    else
      var c := calls[|calls| - 1];
      RunOutcome(reg, c.faults, c.dryRun, Runs(reg, w, calls[..|calls| - 1])).0
  }

  /**
    Over any sequence of runs, real or dry, failing anywhere, whatever the detectors say: executions of
    non-base migrations follow registry order, and none that was recorded happens again.
   */
  lemma {:induction false} RunsInOrder(reg: Registry, w: World, calls: seq<Call>)
    requires Distinct(reg) && w.log == []
    ensures Inv(reg, Runs(reg, w, calls))
  {
    if calls != [] {
      var c := calls[|calls| - 1];
      RunsInOrder(reg, w, calls[..|calls| - 1]);
      RunKeepsInv(reg, c.faults, c.dryRun, Runs(reg, w, calls[..|calls| - 1]));
    }
  }

  ghost predicate WritesApplied(calls: seq<Call>) {
    forall k, i: nat | 0 <= k < |calls| :: calls[k].faults.appliedWritten(i)
  }

  lemma {:induction false} AllRecorded(reg: Registry, w: World, calls: seq<Call>)
    requires Distinct(reg) && w.log == [] && WritesApplied(calls)
    ensures forall k | 0 <= k < |Runs(reg, w, calls).log| :: Runs(reg, w, calls).log[k].recorded
  {
    if calls != [] {
      var front, c := calls[..|calls| - 1], calls[|calls| - 1];
      assert WritesApplied(front) by {
        assert forall k | 0 <= k < |front| :: front[k] == calls[k];
      }
      AllRecorded(reg, w, front);
      var before := Runs(reg, w, front);
      var t := ReconcileFrom(reg, c.faults, before.table, 0).0;
      MigrateLog(reg, c.faults, World(t, before.log), 0);
      var after := MigrateFrom(reg, c.faults, World(t, before.log), 0).0;
      forall k | 0 <= k < |after.log| ensures after.log[k].recorded {
        if k < |before.log| {
          assert after.log[..|before.log|][k] == before.log[k];
        } else {
          assert AddedFrom(reg, c.faults, t, 0, MigrateFrom(reg, c.faults, World(t, before.log), 0).1,
                           after.log[k], k == |after.log| - 1);
          assert calls[|calls| - 1].faults.appliedWritten(after.log[k].index);
        }
      }
    }
  }

  /** If no write of 'applied' fails, every migration function but the base one succeeds at most once. */
  lemma {:induction false} RunsOnlyOnce(reg: Registry, w: World, calls: seq<Call>)
    requires Distinct(reg) && w.log == [] && WritesApplied(calls)
    ensures var log := Runs(reg, w, calls).log;
            && (forall k | 0 <= k < |log| :: log[k].recorded && log[k].index < |reg.ids|)
            && (forall k, l | 0 <= k < l < |log| && !IsBase(reg, log[k].index) && !IsBase(reg, log[l].index) ::
                  log[k].index < log[l].index)
  {
    RunsInOrder(reg, w, calls);
    AllRecorded(reg, w, calls);
  }

  /** Without that assumption a function can run twice: its effect stood, but the record of it was lost. */
  lemma {:induction false} LostWriteRepeats()
    ensures exists reg: Registry, w: World, calls: seq<Call> ::
              Distinct(reg) && w.log == [] && Runs(reg, w, calls).log == [Execution(0, false), Execution(0, true)] &&
              |reg.ids| == 1 && !IsBase(reg, 0)
  {
    var reg := Registry(["a"], "b");
    var lost := Call(false, Faults(true, i => true, i => Absent, i => true, i => true, i => true, i => false, i => true,
                                   i => true));
    var fine := Call(false, Faults(true, i => true, i => Absent, i => true, i => true, i => true, i => true, i => true,
                                   i => true));
    var w0 := World(map[], []);
    assert reg.ids[0] == "a" && "a"[0] != "b"[0];
    var w1 := World(map["a" := Record(Failed, 1)], [Execution(0, false)]);
    var w2 := World(map["a" := Record(Applied, 2)], [Execution(0, false), Execution(0, true)]);
    assert MigrateFrom(reg, lost.faults, w0, 0).0 == w1;
    assert ReconcileFrom(reg, lost.faults, map[], 0) == (map[], None);
    assert RunOutcome(reg, lost.faults, false, w0).0 == w1;
    assert MigrateFrom(reg, fine.faults, w1, 0).0 == w2;
    assert ReconcileFrom(reg, fine.faults, w1.table, 0) == (w1.table, None);
    assert RunOutcome(reg, fine.faults, false, w1).0 == w2;
    assert [lost, fine][..1] == [lost] && [lost][..0] == [];
    assert Runs(reg, w0, [lost]) == w1;
    assert Runs(reg, w0, [lost, fine]) == w2;
  }
}
