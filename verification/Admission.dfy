/** Which jobs the API and the webhook may submit, and the caps this keeps over every run. */
module Admission {
  import opened Contracts
  import opened JobTables
  import opened JobRuns

  const ENABLED_API_KINDS: set<JobKind> :=
    {GENERATE, VERIFY, SERVICE_VERIFY, DEPLOY, RECOVER, DNS_SYNC, MAINTENANCE, BACKUP_DRILL, UPDATE, RESTORE_DRILL,
     HOST_RECONCILE, HOST_REMOVE, CONTAINER_ACTION, SERVICE_ACTION, CONFIG_APPLY, IDENTITY, SECRET_ROTATION}
  const DEPLOYMENT_MUTATION_KINDS: set<JobKind> := {DEPLOY, RECOVER, GENERATE, UPDATE, SECRET_ROTATION}
  const HOST_MUTATION_KINDS: set<JobKind> := {HOST_RECONCILE, HOST_REMOVE}
  const MAX_ACTIVE_HEALS: int := 8

  /** The store call the jobs endpoint makes for a request, or None where it answers 403 or 422. */
  function ApiSubmit(request: JobRequest, principal: string): Option<Op> {
    var kind := request.Kind();
    if request.operation.Destroy? then Some(Submit(request, principal, None, None))
    else if kind !in ENABLED_API_KINDS then None
    else if request.operation.SealedInvite? then None
    else if kind in DEPLOYMENT_MUTATION_KINDS then
      Some(Submit(request, principal, Some(1), Some(DEPLOYMENT_MUTATION_KINDS)))
    else if kind in {IDENTITY, VERIFY, SERVICE_VERIFY} then Some(Submit(request, principal, Some(1), None))
    else if kind in HOST_MUTATION_KINDS then Some(Submit(request, principal, Some(1), Some(HOST_MUTATION_KINDS)))
    else if kind in {MAINTENANCE, BACKUP_DRILL, RESTORE_DRILL, SERVICE_ACTION} then
      Some(Submit(request, principal, Some(1), None))
    else Some(Submit(request, principal, None, None))
  }

  /** Submissions reach the store only through the endpoint and the webhook. */
  predicate FromApp(op: Op) {
    && (op.Submit? ==> ApiSubmit(op.request, op.principal) == Some(op))
    && (op.SubmitBatch? ==> op.cap == MAX_ACTIVE_HEALS
                            && forall i :: 0 <= i < |op.requests| ==> op.requests[i].Kind() == WEBHOOK_HEAL)
  }

  /** The kinds that share slots with `kind`, and how many there are. */
  function SlotsOf(kind: JobKind): (slots: Option<(set<JobKind>, int)>)
  {
    if kind in DEPLOYMENT_MUTATION_KINDS then Some((DEPLOYMENT_MUTATION_KINDS, 1))
    else if kind in HOST_MUTATION_KINDS then Some((HOST_MUTATION_KINDS, 1))
    else if kind in {IDENTITY, VERIFY, SERVICE_VERIFY, MAINTENANCE, BACKUP_DRILL, RESTORE_DRILL, SERVICE_ACTION}
    then Some(({kind}, 1))
    else if kind == WEBHOOK_HEAL then Some(({WEBHOOK_HEAL}, MAX_ACTIVE_HEALS))
    else None
  }

  ghost predicate CapsHold(db: Db) {
    forall kind :: SlotsOf(kind).Some? ==> ActiveCount(db.jobs, SlotsOf(kind).value.0) <= SlotsOf(kind).value.1
  }

  // ---- counting active jobs through edits -------------------------------------------------------------------

  lemma {:induction false} CountUpdated(jobs: seq<Row>, id: nat, row: Row, kinds: set<JobKind>)
    requires id < |jobs| && row.request.Kind() == jobs[id].request.Kind()
    requires Active(row) ==> Active(jobs[id])
    ensures ActiveCount(jobs[id := row], kinds) <= ActiveCount(jobs, kinds)
  {
    var n := |jobs| - 1;
    if id == n {
      assert jobs[id := row][..n] == jobs[..n];
    } else {
      CountUpdated(jobs[..n], id, row, kinds);
      assert jobs[id := row][..n] == jobs[..n][id := row];
    }
  }

  function Adds(e: Edit, kinds: set<JobKind>): nat {
    if e.Insert? && e.request.Kind() in kinds then 1 else 0
  }

  lemma EditCounts(db: Db, now: int, e: Edit, kinds: set<JobKind>)
    requires InRange(db, e) && Sound(db, now, e)
    ensures ActiveCount(Apply(db, now, e).jobs, kinds) <= ActiveCount(db.jobs, kinds) + Adds(e, kinds)
  {
    match e
    case Insert(principal, request, _) => assert Apply(db, now, e).jobs[..|db.jobs|] == db.jobs;
    case Claim(id, _, _) => CountUpdated(db.jobs, id, Edited(db.jobs[id], e, now), kinds);
    case Recover(id, _) => CountUpdated(db.jobs, id, Edited(db.jobs[id], e, now), kinds);
    case Renew(id, _) => CountUpdated(db.jobs, id, Edited(db.jobs[id], e, now), kinds);
    case Finish(id, _, _, _, _, _) => CountUpdated(db.jobs, id, Edited(db.jobs[id], e, now), kinds);
    case Cancel(id, _) => CountUpdated(db.jobs, id, Edited(db.jobs[id], e, now), kinds);
    case _ =>
  }

  function AllAdds(edits: seq<Edit>, kinds: set<JobKind>): nat {
    if |edits| == 0 then 0 else AllAdds(edits[..|edits| - 1], kinds) + Adds(edits[|edits| - 1], kinds)
  }

  lemma {:induction false} EditsCount(db: Db, now: int, edits: seq<Edit>, kinds: set<JobKind>)
    requires AllInRange(db, edits) && SoundAll(db, now, edits)
    ensures ActiveCount(ApplyAll(db, now, edits).jobs, kinds) <= ActiveCount(db.jobs, kinds) + AllAdds(edits, kinds)
  {
    if |edits| > 0 {
      var n := |edits| - 1;
      EditsCount(db, now, edits[..n], kinds);
      EditCounts(ApplyAll(db, now, edits[..n]), now, edits[n], kinds);
    }
  }

  lemma {:induction false} NoAdds(edits: seq<Edit>, kinds: set<JobKind>)
    requires forall k :: 0 <= k < |edits| ==> Adds(edits[k], kinds) == 0
    ensures AllAdds(edits, kinds) == 0
  {
    if |edits| > 0 { NoAdds(edits[..|edits| - 1], kinds); }
  }

  lemma {:induction false} AddsAtMost(edits: seq<Edit>, kinds: set<JobKind>)
    ensures AllAdds(edits, kinds) <= |edits|
  {
    if |edits| > 0 { AddsAtMost(edits[..|edits| - 1], kinds); }
  }

  /** A submission never pushes the kinds it is limited over past its limit. */
  lemma SubmitCounts(db: Db, now: int, request: JobRequest, principal: string, limit: int, scope: Option<set<JobKind>>,
                     kinds: set<JobKind>)
    requires DecideSubmit(db, now, request, principal, Some(limit), scope).Commit?
    requires kinds == if scope.Some? then scope.value else {request.Kind()}
    ensures ActiveCount(Do(db, now, Submit(request, principal, Some(limit), scope)).jobs, kinds)
         <= if ActiveCount(db.jobs, kinds) > limit then ActiveCount(db.jobs, kinds) else limit
  {
    var d := DecideSubmit(db, now, request, principal, Some(limit), scope);
    SoundSubmit(db, now, request, principal, Some(limit), scope);
    EditsCount(db, now, d.edits, kinds);
    AddsAtMost(d.edits, kinds);
  }

  lemma BatchCounts(db: Db, now: int, requests: seq<JobRequest>, principal: string, cap: int)
    requires DecideBatch(db, requests, principal, cap).Commit?
    ensures ActiveCount(Do(db, now, SubmitBatch(requests, principal, cap)).jobs, {requests[0].Kind()}) <= cap
  {
    var d := DecideBatch(db, requests, principal, cap);
    DecisionSound(db, now, SubmitBatch(requests, principal, cap));
    EditsCount(db, now, d.edits, {requests[0].Kind()});
    AddsAtMost(d.edits, {requests[0].Kind()});
  }

  predicate AddsNone(op: Op, kinds: set<JobKind>) {
    && (op.Submit? ==> op.request.Kind() !in kinds)
    && (op.SubmitBatch? ==> forall i :: 0 <= i < |op.requests| ==> op.requests[i].Kind() !in kinds)
  }

  lemma BatchAddsNone(db: Db, requests: seq<JobRequest>, principal: string, cap: int, kinds: set<JobKind>)
    requires DecideBatch(db, requests, principal, cap).Commit?
    requires forall i :: 0 <= i < |requests| ==> requests[i].Kind() !in kinds
    ensures AllAdds(DecideBatch(db, requests, principal, cap).edits, kinds) == 0
  {
    var pending := ScanBatch(db, requests, principal).pending;
    ScanFresh(db, requests, principal);
    forall k | 0 <= k < |pending| ensures pending[k].Kind() !in kinds {
      assert pending[k] in requests;
    }
    NoAdds(Inserts(pending, principal), kinds);
  }

  lemma ClaimsAddNone(db: Db, now: int, op: Op, kinds: set<JobKind>)
    requires Decide(db, now, op).Commit? && !op.SubmitBatch? && AddsNone(op, kinds)
    ensures forall k :: 0 <= k < |Decide(db, now, op).edits| ==> Adds(Decide(db, now, op).edits[k], kinds) == 0
  {
  }

  lemma OtherCounts(db: Db, now: int, op: Op, kinds: set<JobKind>)
    requires AddsNone(op, kinds)
    ensures ActiveCount(Do(db, now, op).jobs, kinds) <= ActiveCount(db.jobs, kinds)
  {
    var d := Decide(db, now, op);
    if d.Commit? {
      if op.SubmitBatch? {
        BatchAddsNone(db, op.requests, op.principal, op.cap, kinds);
      } else {
        ClaimsAddNone(db, now, op, kinds);
        NoAdds(d.edits, kinds);
      }
      DecisionSound(db, now, op);
      EditsCount(db, now, d.edits, kinds);
    }
  }

  lemma SubmitKeepsCap(db: Db, now: int, op: Op, kind: JobKind)
    requires SlotsOf(kind).Some? && FromApp(op) && op.Submit? && op.request.Kind() in SlotsOf(kind).value.0
    requires ActiveCount(db.jobs, SlotsOf(kind).value.0) <= SlotsOf(kind).value.1 && Decide(db, now, op).Commit?
    ensures ActiveCount(Do(db, now, op).jobs, SlotsOf(kind).value.0) <= SlotsOf(kind).value.1
  {
    var kinds := SlotsOf(kind).value.0;
    ScopeIsSlots(op, kind);
    SubmitCounts(db, now, op.request, op.principal, 1, op.kinds, kinds);
  }

  /** The endpoint limits a kind over exactly the group it shares slots with, to the number of its slots. */
  lemma ScopeIsSlots(op: Op, kind: JobKind)
    requires SlotsOf(kind).Some? && FromApp(op) && op.Submit? && op.request.Kind() in SlotsOf(kind).value.0
    ensures op.limit == Some(1) && SlotsOf(kind).value.1 == 1
    ensures SlotsOf(kind).value.0 == if op.kinds.Some? then op.kinds.value else {op.request.Kind()}
  {
  }

  lemma BatchKeepsCap(db: Db, now: int, op: Op, kind: JobKind)
    requires SlotsOf(kind).Some? && FromApp(op) && op.SubmitBatch? && !AddsNone(op, SlotsOf(kind).value.0)
    requires Decide(db, now, op).Commit?
    ensures ActiveCount(Do(db, now, op).jobs, SlotsOf(kind).value.0) <= SlotsOf(kind).value.1
  {
    assert SlotsOf(kind).value == ({WEBHOOK_HEAL}, MAX_ACTIVE_HEALS) && op.requests[0].Kind() == WEBHOOK_HEAL;
    BatchCounts(db, now, op.requests, op.principal, op.cap);
  }

  lemma StepKeepsCap(db: Db, now: int, op: Op, kind: JobKind)
    requires SlotsOf(kind).Some? && FromApp(op)
    requires ActiveCount(db.jobs, SlotsOf(kind).value.0) <= SlotsOf(kind).value.1
    ensures ActiveCount(Do(db, now, op).jobs, SlotsOf(kind).value.0) <= SlotsOf(kind).value.1
  {
    var kinds := SlotsOf(kind).value.0;
    if AddsNone(op, kinds) {
      OtherCounts(db, now, op, kinds);
    } else if Decide(db, now, op).Commit? {
      if op.Submit? { SubmitKeepsCap(db, now, op, kind); } else { BatchKeepsCap(db, now, op, kind); }
    }
  }

  /** Over all principals and any run, each group of kinds stays within its slots. */
  lemma {:induction false} AdmissionCaps(steps: seq<Step>)
    requires forall k :: 0 <= k < |steps| ==> FromApp(steps[k].op)
    ensures CapsHold(Run(EMPTY, steps))
  {
    if |steps| > 0 {
      var n := |steps| - 1;
      AdmissionCaps(steps[..n]);
      forall kind | SlotsOf(kind).Some?
        ensures ActiveCount(Run(EMPTY, steps).jobs, SlotsOf(kind).value.0) <= SlotsOf(kind).value.1
      {
        StepKeepsCap(Run(EMPTY, steps[..n]), steps[n].now, steps[n].op, kind);
      }
    }
  }
}
