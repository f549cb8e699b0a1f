/** Safety of one job over any run: leases, cancellation, fencing, and where a stored result came from. */
module JobLifecycle {
  import opened Contracts
  import opened JobTables
  import opened JobRuns

  // ---- what every row keeps ------------------------------------------------------------------------------

  /** A lease is held exactly while running or being cancelled; the cancel flag, the generation, the stored
      outcome and the persisted request agree with the state. */
  ghost predicate RowOk(r: Row) {
    && (Leased(r.state) <==> r.leaseOwner.Some?)
    && (Leased(r.state) <==> r.leaseExpiry.Some?)
    && (r.cancelRequested ==> r.state in {CANCEL_REQUESTED, CANCELLED, FAILED})
    && (r.state in {CANCEL_REQUESTED, CANCELLED} ==> r.cancelRequested)
    && (r.state == QUEUED ==> r.generation == 0)
    && (r.generation == 0 ==> r.state in {QUEUED, CANCELLED})
    && (r.state == CANCEL_REQUESTED ==> r.request.Kind() !in NON_CANCELLABLE_AFTER_START)
    && (r.state == CANCELLED && r.request.Kind() in NON_CANCELLABLE_AFTER_START ==> r.generation == 0)
    && (r.result.Some? <==> r.state in {SUCCEEDED, PARTIAL_FAILURE})
    && (r.result.Some? ==> (r.result.value.partial <==> r.state == PARTIAL_FAILURE))
    && (r.error.Some? <==> r.state == FAILED)
    && r.request == Persisted(r.payloadHash.of, r.principal)
    && r.key == r.payloadHash.of.key
    && !r.payloadHash.of.operation.SealedInvite?
  }

  ghost predicate RowsOk(db: Db) {
    forall id :: 0 <= id < |db.jobs| ==> RowOk(db.jobs[id])
  }

  lemma EditKeepsRows(db: Db, now: int, e: Edit)
    requires RowsOk(db) && InRange(db, e) && Sound(db, now, e) && Proper(SHAPED, db, now, e)
    ensures RowsOk(Apply(db, now, e))
  {
  }

  /** Every row of every reachable store is consistent. */
  lemma {:induction false} ReachableRows(steps: seq<Step>)
    requires RunInScope(SHAPED, EMPTY, steps)
    ensures RowsOk(Run(EMPTY, steps))
  {
    var P := (d: Db) => RowsOk(d);
    forall d: Db, t, e | P(d) && InRange(d, e) && Sound(d, t, e) && Proper(SHAPED, d, t, e) ensures P(Apply(d, t, e)) {
      EditKeepsRows(d, t, e);
    }
    RunKeeps(P, SHAPED, EMPTY, steps);
  }

  // ---- how rows may change -------------------------------------------------------------------------------

  /** The states a job in state `s` may ever be seen in again. */
  function Follows(s: JobState): set<JobState> {
    match s
    case QUEUED => {QUEUED, RUNNING, CANCEL_REQUESTED, SUCCEEDED, PARTIAL_FAILURE, FAILED, CANCELLED}
    case RUNNING => {RUNNING, CANCEL_REQUESTED, SUCCEEDED, PARTIAL_FAILURE, FAILED, CANCELLED}
    case CANCEL_REQUESTED => {CANCEL_REQUESTED, CANCELLED, FAILED}
    case _ => {s}
  }

  ghost predicate RowReach(r: Row, s: Row) {
    && s.principal == r.principal && s.key == r.key && s.payloadHash == r.payloadHash && s.request == r.request
    && s.createdAt == r.createdAt
    && r.generation <= s.generation
    && s.state in Follows(r.state)
    && (r.cancelRequested ==> s.cancelRequested)
    && (Terminal(r.state) ==> s == r)
    && (r.generation == s.generation && Leased(s.state) && r.state != QUEUED ==>
          Leased(r.state) && s.leaseOwner == r.leaseOwner)
  }

  ghost predicate Evolves(before: Db, after: Db) {
    && |before.jobs| <= |after.jobs|
    && (forall id :: 0 <= id < |before.jobs| ==> RowReach(before.jobs[id], after.jobs[id]))
    && before.events <= after.events
    && before.audit <= after.audit
  }

  lemma EditEvolves(start: Db, db: Db, now: int, e: Edit)
    requires Evolves(start, db) && InRange(db, e) && Sound(db, now, e)
    ensures Evolves(start, Apply(db, now, e))
  {
  }

  /** Over any run: rows are never removed, a job's identity never changes, its generation never falls, a
      finished row is frozen, a requested cancellation ends only CANCELLED or FAILED, a lease has one owner per
      generation, and both logs only grow. */
  lemma {:induction false} RunEvolves(db: Db, steps: seq<Step>)
    ensures Evolves(db, Run(db, steps))
  {
    var P := (d: Db) => Evolves(db, d);
    forall d: Db, t, e | P(d) && InRange(d, e) && Sound(d, t, e) ensures P(Apply(d, t, e)) {
      EditEvolves(db, d, t, e);
    }
    RunKeeps(P, ANY, db, steps);
  }

  /** The whole history of one job from any point of any run. */
  lemma {:induction false} CancellationIsSticky(steps: seq<Step>, more: seq<Step>, id: nat)
    requires RunInScope(SHAPED, EMPTY, steps + more) && id < |Run(EMPTY, steps).jobs|
    ensures id < |Run(EMPTY, steps + more).jobs|
    ensures var r, s := Run(EMPTY, steps).jobs[id], Run(EMPTY, steps + more).jobs[id];
            && (r.state == CANCEL_REQUESTED ==> s.state in {CANCEL_REQUESTED, CANCELLED, FAILED} && s.result.None?)
            && (r.cancelRequested ==> s.cancelRequested && !(s.state in {QUEUED, RUNNING, SUCCEEDED, PARTIAL_FAILURE}))
            && (Terminal(r.state) ==> s == r)
            && (s.state == CANCELLED && s.request.Kind() in NON_CANCELLABLE_AFTER_START ==> r.generation == 0)
  {
    RunConcat(EMPTY, steps, more);
    RunEvolves(Run(EMPTY, steps), more);
    ReachableRows(steps + more);
    assert RowOk(Run(EMPTY, steps + more).jobs[id]);
  }

  // ---- fencing -------------------------------------------------------------------------------------------

  /** The op writes job `id` under a lease of generation `g`. */
  predicate Carries(op: Op, id: nat, g: nat) {
    || (op.RenewLease? && op.job == id && op.generation == g)
    || (op.Transition? && op.job == id && Leased(op.expected) && op.held == Some(g))
    || (op.AppendEvent? && op.job == id && op.held == Some(g))
  }

  /** Once a job has been claimed at a later generation, nothing carrying an earlier one is accepted, however
      the run continues and whatever the clock says: the call is refused and changes no table. */
  lemma {:induction false} StaleHolderIsFenced(db: Db, steps: seq<Step>, id: nat, g: nat, now: int, op: Op)
    requires id < |db.jobs| && g < db.jobs[id].generation
    requires Carries(op, id, g)
    ensures Decide(Run(db, steps), now, op).Refuse?
    ensures Do(Run(db, steps), now, op) == Run(db, steps)
  {
    RunEvolves(db, steps);
    assert RowReach(db.jobs[id], Run(db, steps).jobs[id]);
  }

  // ---- a stored result came from the last holder ----------------------------------------------------------

  /** Step `k` of the run is the accepted success report of the holder of generation `g`. */
  ghost predicate Reports(steps: seq<Step>, k: nat, id: nat, g: nat, result: Option<JobResult>)
    requires k < |steps|
  {
    var op := steps[k].op;
    && op.Transition? && op.job == id && op.expected == RUNNING && op.held == Some(g) && op.result == result
    && Decide(Run(EMPTY, steps[..k]), steps[k].now, op).Commit?
  }

  lemma {:induction false} EditsLeaveResult(db: Db, now: int, edits: seq<Edit>, id: nat)
    requires RowsOk(db) && SoundAll(db, now, edits) && AllInRange(db, edits) && Plainly(edits)
    requires id < |ApplyAll(db, now, edits).jobs| && ApplyAll(db, now, edits).jobs[id].result.Some?
    ensures id < |db.jobs| && ApplyAll(db, now, edits).jobs[id] == db.jobs[id]
  {
    if |edits| > 0 {
      var n := |edits| - 1;
      var before := ApplyAll(db, now, edits[..n]);
      var P := (d: Db) => RowsOk(d);
      forall d: Db, t, e | P(d) && InRange(d, e) && Sound(d, t, e) && Proper(SHAPED, d, t, e)
        ensures P(Apply(d, t, e))
      {
        EditKeepsRows(d, t, e);
      }
      EditsKeep(P, SHAPED, db, now, edits[..n]);
      OneEditLeavesResult(before, now, edits[n], id);
      EditsLeaveResult(db, now, edits[..n], id);
    }
  }

  lemma OneEditLeavesResult(db: Db, now: int, e: Edit, id: nat)
    requires RowsOk(db) && InRange(db, e) && Sound(db, now, e) && !e.Finish?
    requires id < |Apply(db, now, e).jobs| && Apply(db, now, e).jobs[id].result.Some?
    ensures id < |db.jobs| && Apply(db, now, e).jobs[id] == db.jobs[id]
  {
    if id < |db.jobs| { assert RowOk(db.jobs[id]); }
  }

  lemma TransitionReports(db: Db, now: int, op: Op, id: nat)
    requires op.Transition? && RowsOk(db) && Shaped(op) && DecideTransition(db, now, op).Commit?
    requires id < |Do(db, now, op).jobs| && Do(db, now, op).jobs[id].result.Some?
    ensures var row := Do(db, now, op).jobs[id];
            || (id < |db.jobs| && db.jobs[id] == row)
            || (op.job == id && op.expected == RUNNING && op.held == Some(row.generation) && op.result == row.result)
  {
    var e := DecideTransition(db, now, op).edits[0];
    assert DecideTransition(db, now, op).edits == [e];
    SoundOne(db, now, e);
    if op.job == id { assert RowOk(db.jobs[id]); }
  }

  /** A step either leaves a finished job's row alone or is the report that finished it. */
  lemma StepReports(db: Db, now: int, op: Op, id: nat)
    requires RowsOk(db) && Shaped(op)
    requires id < |Do(db, now, op).jobs| && Do(db, now, op).jobs[id].result.Some?
    ensures var row := Do(db, now, op).jobs[id];
            || (id < |db.jobs| && db.jobs[id] == row)
            || (op.Transition? && op.job == id && op.expected == RUNNING && op.held == Some(row.generation)
                && op.result == row.result && Decide(db, now, op).Commit?)
  {
    var d := Decide(db, now, op);
    if d.Commit? {
      if op.Transition? {
        TransitionReports(db, now, op, id);
      } else {
        DecisionSound(db, now, op);
        OthersPlain(db, now, op, id);
      }
    }
  }

  lemma OthersPlain(db: Db, now: int, op: Op, id: nat)
    requires RowsOk(db) && Decide(db, now, op).Commit? && !op.Transition?
    requires SoundAll(db, now, Decide(db, now, op).edits)
    requires id < |Do(db, now, op).jobs| && Do(db, now, op).jobs[id].result.Some?
    ensures id < |db.jobs| && db.jobs[id] == Do(db, now, op).jobs[id]
  {
    var edits := Decide(db, now, op).edits;
    DecisionProper(SHAPED, db, now, op);
    if Plainly(edits) {
      EditsLeaveResult(db, now, edits, id);
    } else {
      assert edits == [edits[0]] && edits[..0] == [];
    }
  }

  /** A job that holds a result holds it because of one accepted success report, made under the generation the
      row still shows. */
  lemma {:induction false} ResultProvenance(steps: seq<Step>, id: nat)
    requires RunInScope(SHAPED, EMPTY, steps)
    requires id < |Run(EMPTY, steps).jobs| && Run(EMPTY, steps).jobs[id].result.Some?
    ensures var row := Run(EMPTY, steps).jobs[id];
            exists k :: 0 <= k < |steps| && Reports(steps, k, id, row.generation, row.result)
  {
    var n := |steps| - 1;
    var before := steps[..n];
    var row := Run(EMPTY, steps).jobs[id];
    forall k | 0 <= k < n ensures before[..k] == steps[..k] {}
    ReachableRows(before);
    StepReports(Run(EMPTY, before), steps[n].now, steps[n].op, id);
    var db := Run(EMPTY, before);
    if id < |db.jobs| && db.jobs[id] == row {
      ResultProvenance(before, id);
      var k :| 0 <= k < |before| && Reports(before, k, id, row.generation, row.result);
      assert Reports(steps, k, id, row.generation, row.result);
    } else {
      assert Reports(steps, n, id, row.generation, row.result);
    }
  }
}
