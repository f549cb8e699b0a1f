/** Which submissions are accepted: free slots are counted as sets of rows, and approvals by what their rows show. */
module Acceptance {
  import opened Contracts
  import opened JobTables
  import opened JobRuns
  import opened Approvals
  import opened Submissions
  import opened Admission
  import opened StoreEffects

  /** The rows of unfinished jobs of these kinds. */
  function Unfinished(jobs: seq<Row>, kinds: set<JobKind>): set<nat> {
    set id: nat | id < |jobs| && Occupies(jobs[id], kinds)
  }

  predicate Occupies(row: Row, kinds: set<JobKind>) {
    && (row.state == QUEUED || row.state == RUNNING || row.state == CANCEL_REQUESTED)
    && row.request.Kind() in kinds
  }

  lemma {:induction false} CountIsSize(jobs: seq<Row>, kinds: set<JobKind>)
    ensures ActiveCount(jobs, kinds) == |Unfinished(jobs, kinds)|
  {
    if |jobs| == 0 {
      assert Unfinished(jobs, kinds) == {};
    } else {
      CountIsSize(jobs[..|jobs| - 1], kinds);
      OneMoreRow(jobs, kinds, |jobs| - 1);
    }
  }

  lemma OneMoreRow(jobs: seq<Row>, kinds: set<JobKind>, n: nat)
    requires |jobs| == n + 1
    ensures |Unfinished(jobs, kinds)| == |Unfinished(jobs[..n], kinds)| + if Occupies(jobs[n], kinds) then 1 else 0
  {
    var earlier := Unfinished(jobs[..n], kinds);
    assert forall id: nat :: id < n ==> jobs[..n][id] == jobs[id];
    assert Unfinished(jobs, kinds) == if Occupies(jobs[n], kinds) then earlier + {n} else earlier;
  }

  predicate NewKey(db: Db, principal: string, key: string) {
    forall i :: 0 <= i < |db.jobs| ==> db.jobs[i].principal != principal || db.jobs[i].key != key
  }

  /** The limits a caller may give. */
  predicate Admissible(request: JobRequest, limit: Option<int>, kinds: Option<set<JobKind>>) {
    (limit.Some? ==> limit.value >= 1) && (kinds.Some? ==> request.Kind() in kinds.value)
  }

  /** A slot is free: there is no limit, or fewer unfinished jobs of the kinds it counts. */
  predicate SlotFree(db: Db, request: JobRequest, limit: Option<int>, kinds: Option<set<JobKind>>) {
    limit.None? || |Unfinished(db.jobs, if kinds.Some? then kinds.value else {request.Kind()})| < limit.value
  }

  /** The stored form: no approval token, no readable invitation, and everything else as submitted. */
  predicate StoredAs(request: JobRequest, principal: string, stored: JobRequest) {
    && stored.key == request.key
    && match request.operation
       case Destroy(action, scopes, revision, plan, hash, _) =>
         stored.operation == Destroy(action, scopes, revision, plan, hash, "consumed-approval")
       case Invite(command) => stored.operation == SealedInvite(command, principal, request.key)
       case _ => stored.operation == request.operation
  }

  /** One queued row for the request at the end of the table, and its audit record; earlier rows and the events are as
      they were. */
  ghost predicate Queued(db: Db, after: Db, now: int, request: JobRequest, principal: string) {
    && |after.jobs| == |db.jobs| + 1 && after.jobs[..|db.jobs|] == db.jobs
    && QueuedRow(after.jobs[|db.jobs|], now, request, principal)
    && after.events == db.events && after.plans == db.plans
    && after.audit == db.audit
                      + [AuditRow(now, principal, JobCreate(|db.jobs|, request.Kind(), Sha256(request)))]
  }

  ghost predicate QueuedRow(row: Row, now: int, request: JobRequest, principal: string) {
    && row.principal == principal && row.key == request.key && row.payloadHash == Sha256(request)
    && StoredAs(request, principal, row.request)
    && row.state == QUEUED && !row.cancelRequested && row.createdAt == now && row.updatedAt == now
    && row.result.None? && row.error.None?
    && row.leaseOwner.None? && row.leaseExpiry.None? && row.generation == 0
  }

  /** A submission under a new key that is neither destructive nor already sealed is accepted exactly when a slot is
      free, and otherwise refused with the queue limit. */
  lemma SubmissionExact(db: Db, now: int, request: JobRequest, principal: string, limit: Option<int>,
                        kinds: Option<set<JobKind>>)
    requires NewKey(db, principal, request.key) && Admissible(request, limit, kinds)
    requires !request.operation.Destroy? && !request.operation.SealedInvite?
    ensures var op := Submit(request, principal, limit, kinds);
            var d, after := Decide(db, now, op), Do(db, now, op);
            if SlotFree(db, request, limit, kinds) then
              d.Commit? && d.marks == [Mark(|db.jobs|, true)]
              && Queued(db, after, now, request, principal) && after.approvals == db.approvals
            else d == Refuse(QueueLimit) && after == db
  {
    var op := Submit(request, principal, limit, kinds);
    FindKeyExact(db.jobs, principal, request.key);
    CountIsSize(db.jobs, if kinds.Some? then kinds.value else {request.Kind()});
    if Decide(db, now, op).Commit? { OneEdit(db, now, op, Insert(principal, request, None)); }
  }

  /** The other answers: a known key is replayed or refused as a conflict by its payload, whatever else holds; limits no
      caller may give are refused first of all, and an invitation that arrives sealed last. */
  lemma SubmissionOtherwise(db: Db, now: int, request: JobRequest, principal: string, limit: Option<int>,
                            kinds: Option<set<JobKind>>)
    requires KeysUnique(db)
    ensures var d := Decide(db, now, Submit(request, principal, limit, kinds));
            if !Admissible(request, limit, kinds) then d == Refuse(InvalidValue)
            else if NewKey(db, principal, request.key) then
              request.operation.SealedInvite? ==>
                d == Refuse(if SlotFree(db, request, limit, kinds) then PayloadProtection else QueueLimit)
            else
              forall i: nat :: i < |db.jobs| && db.jobs[i].principal == principal && db.jobs[i].key == request.key ==>
                d == if db.jobs[i].payloadHash == Sha256(request) then Commit([], [Mark(i, false)])
                     else Refuse(IdempotencyConflict)
  {
    FindKeyExact(db.jobs, principal, request.key);
    CountIsSize(db.jobs, if kinds.Some? then kinds.value else {request.Kind()});
  }

  // ---- destructive submissions -------------------------------------------------------------------------------

  /** The plan belongs to the caller and agrees with the request in every respect. */
  predicate PlanAgrees(db: Db, op: Operation, principal: string)
    requires op.Destroy?
  {
    && op.planId < |db.plans|
    && var plan := db.plans[op.planId];
    && plan.actor == principal && op.planHash == Sha256(plan.spec)
    && plan.spec == PlanSpec(op.action, op.scopes, op.configRevision, plan.spec.evidence)
  }

  /** Approval `a` is for this plan, actor and token, unspent and unexpired. */
  predicate Approves(db: Db, a: nat, op: Operation, principal: string, now: int)
    requires op.Destroy?
  {
    && a < |db.approvals|
    && var approval := db.approvals[a];
    && approval.planId == op.planId && approval.actor == principal && approval.tokenHash == Sha256(op.approvalToken)
    && approval.consumedAt.None? && now < approval.expiresAt
  }

  lemma {:induction false} FindApprovalExact(approvals: seq<ApprovalRow>, planId: nat, actor: string, token: string)
    requires TokensDistinct(approvals)
    ensures var found := FindApproval(approvals, planId, actor, token);
            forall a: nat :: a < |approvals| && Grants(approvals[a], planId, actor, token) ==> found == Some(a)
  {
    if |approvals| > 0 {
      var n := |approvals| - 1;
      FindApprovalExact(approvals[..n], planId, actor, token);
      assert forall a: nat :: a < n ==> approvals[..n][a] == approvals[a];
    }
  }

  /** A destructive submission under a new key with a free slot is accepted exactly when its plan agrees and some
      unspent and unexpired approval carries its token; that approval, and no other, is then spent. Approval tokens are
      drawn anew, so no two rows share one. */
  lemma DestructionExact(db: Db, now: int, request: JobRequest, principal: string, limit: Option<int>,
                         kinds: Option<set<JobKind>>)
    requires NewKey(db, principal, request.key) && Admissible(request, limit, kinds)
    requires request.operation.Destroy? && TokensDistinct(db.approvals)
    ensures var op := Submit(request, principal, limit, kinds);
            var d, after := Decide(db, now, op), Do(db, now, op);
            && (d.Commit? <==>
                  SlotFree(db, request, limit, kinds) && PlanAgrees(db, request.operation, principal)
                  && exists a: nat :: Approves(db, a, request.operation, principal, now))
            && (d.Refuse? ==> after == db)
            && (d.Refuse? ==> d == Refuse(if SlotFree(db, request, limit, kinds) then ApprovalRefused else QueueLimit))
            && (d.Commit? ==>
                  && d.marks == [Mark(|db.jobs|, true)] && Queued(db, after, now, request, principal)
                  && forall a: nat :: Approves(db, a, request.operation, principal, now) ==>
                       after.approvals == db.approvals[a := db.approvals[a].(consumedAt := Some(now))])
  {
    var op := Submit(request, principal, limit, kinds);
    FindKeyExact(db.jobs, principal, request.key);
    CountIsSize(db.jobs, if kinds.Some? then kinds.value else {request.Kind()});
    ApprovalExact(db, request.operation, principal, now);
    if Decide(db, now, op).Commit? {
      OneEdit(db, now, op, Insert(principal, request, ApprovalFor(db, request.operation, principal, now)));
    }
  }

  lemma ApprovalExact(db: Db, op: Operation, principal: string, now: int)
    requires op.Destroy? && TokensDistinct(db.approvals)
    ensures var found := ApprovalFor(db, op, principal, now);
            && (found.Some? <==>
                  PlanAgrees(db, op, principal) && exists a: nat :: Approves(db, a, op, principal, now))
            && (found.Some? ==> Approves(db, found.value, op, principal, now))
            && (found.Some? ==> forall a: nat :: Approves(db, a, op, principal, now) ==> found == Some(a))
  {
    FindApprovalExact(db.approvals, op.planId, principal, op.approvalToken);
    assert forall a: nat :: Approves(db, a, op, principal, now) ==>
             Grants(db.approvals[a], op.planId, principal, op.approvalToken);
    var found := ApprovalFor(db, op, principal, now);
    if found.Some? { assert Approves(db, found.value, op, principal, now); }
  }

  /** In every reachable store no two approvals share a token. */
  lemma {:induction false} TokensStayDistinct(steps: seq<Step>)
    requires GenuineRun(EMPTY, steps)
    ensures TokensDistinct(Run(EMPTY, steps).approvals)
  {
    var P := (d: Db) => TokensDistinct(d.approvals);
    forall d: Db, t, e | P(d) && InRange(d, e) && Sound(d, t, e) && Proper(GENUINE, d, t, e) ensures P(Apply(d, t, e)) {
      EditKeepsTokens(d, t, e);
    }
    RunKeeps(P, GENUINE, EMPTY, steps);
  }

  lemma EditKeepsTokens(db: Db, now: int, e: Edit)
    requires TokensDistinct(db.approvals) && InRange(db, e) && Proper(GENUINE, db, now, e)
    ensures TokensDistinct(Apply(db, now, e).approvals)
  {
  }

  // ---- batches -------------------------------------------------------------------------------------------------

  /** The requests whose keys are new. */
  function NewOnes(db: Db, requests: seq<JobRequest>, principal: string): set<nat> {
    set i: nat | i < |requests| && NewKey(db, principal, requests[i].key)
  }

  /** Every key is new to the table or names a job with the same payload, and no new request is already sealed. */
  predicate Consistent(db: Db, requests: seq<JobRequest>, principal: string) {
    forall i: nat :: i < |requests| ==> Acceptable(db, requests[i], principal)
  }

  predicate Acceptable(db: Db, request: JobRequest, principal: string) {
    && (NewKey(db, principal, request.key) ==> !request.operation.SealedInvite?)
    && (forall i :: 0 <= i < |db.jobs| && db.jobs[i].principal == principal && db.jobs[i].key == request.key ==>
          db.jobs[i].payloadHash == Sha256(request))
  }

  lemma {:induction false} ScanExact(db: Db, requests: seq<JobRequest>, principal: string)
    requires KeysUnique(db)
    ensures var scan := ScanBatch(db, requests, principal);
            && (scan.Scanned? <==> Consistent(db, requests, principal))
            && (scan.Scanned? ==> |scan.pending| == |NewOnes(db, requests, principal)|)
  {
    if |requests| == 0 {
      assert NewOnes(db, requests, principal) == {};
    } else {
      var n := |requests| - 1;
      ScanExact(db, requests[..n], principal);
      ScanOneExact(db, ScanBatch(db, requests[..n], principal), requests[n], principal);
      NewOnesSnoc(db, requests, principal, n);
    }
  }

  lemma ScanOneExact(db: Db, earlier: Scan, request: JobRequest, principal: string)
    requires KeysUnique(db)
    ensures var scan := ScanOne(db, earlier, request, principal);
            && (scan.Scanned? <==> earlier.Scanned? && Acceptable(db, request, principal))
            && (scan.Scanned? ==>
                  |scan.pending| == |earlier.pending| + if NewKey(db, principal, request.key) then 1 else 0)
  {
    FindKeyExact(db.jobs, principal, request.key);
  }

  lemma NewOnesSnoc(db: Db, requests: seq<JobRequest>, principal: string, n: nat)
    requires |requests| == n + 1
    ensures |NewOnes(db, requests, principal)|
         == |NewOnes(db, requests[..n], principal)| + if NewKey(db, principal, requests[n].key) then 1 else 0
    ensures Consistent(db, requests, principal)
            <==> Consistent(db, requests[..n], principal) && Acceptable(db, requests[n], principal)
  {
    var earlier := NewOnes(db, requests[..n], principal);
    assert NewOnes(db, requests, principal)
        == if NewKey(db, principal, requests[n].key) then earlier + {n} else earlier;
    assert forall i: nat :: i < n ==> requests[..n][i] == requests[i];
  }

  /** A batch is accepted exactly when it is of one kind, not destructive, without repeated keys and within the cap,
      every key is new or repeats its payload, and the unfinished jobs of the kind leave room for its new ones. */
  lemma BatchExact(db: Db, now: int, requests: seq<JobRequest>, principal: string, cap: int)
    requires KeysUnique(db)
    ensures Decide(db, now, SubmitBatch(requests, principal, cap)).Commit? <==>
              && 0 < |requests| <= cap
              && (forall i, j :: 0 <= i < j < |requests| ==> requests[i].key != requests[j].key)
              && (forall i :: 0 <= i < |requests| ==>
                    !requests[i].operation.Destroy? && requests[i].Kind() == requests[0].Kind())
              && Consistent(db, requests, principal)
              && |Unfinished(db.jobs, {requests[0].Kind()})| + |NewOnes(db, requests, principal)| <= cap
  {
    ScanExact(db, requests, principal);
    if |requests| > 0 { CountIsSize(db.jobs, {requests[0].Kind()}); }
  }

  /** The records of so many new rows, in order. */
  function Created(db: Db, after: Db, now: int, principal: string): seq<AuditRow>
    requires |db.jobs| <= |after.jobs|
  {
    seq(|after.jobs| - |db.jobs|, i requires 0 <= i < |after.jobs| - |db.jobs| =>
      var row := after.jobs[|db.jobs| + i];
      AuditRow(now, principal, JobCreate(|db.jobs| + i, row.request.Kind(), row.payloadHash)))
  }

  lemma {:induction false} InsertsLog(db: Db, now: int, requests: seq<JobRequest>, principal: string)
    ensures var after := ApplyAll(db, now, Inserts(requests, principal));
            && db.jobs <= after.jobs && |after.jobs| == |db.jobs| + |requests|
            && after == Wrote(db, after.jobs, [], Created(db, after, now, principal))
  {
    if |requests| > 0 {
      var n := |requests| - 1;
      var before := ApplyAll(db, now, Inserts(requests[..n], principal));
      InsertsLog(db, now, requests[..n], principal);
      assert Inserts(requests, principal)[..n] == Inserts(requests[..n], principal);
      OneMoreCreated(db, before, now, requests[n], principal);
    }
  }

  lemma OneMoreCreated(db: Db, before: Db, now: int, request: JobRequest, principal: string)
    requires db.jobs <= before.jobs && before == Wrote(db, before.jobs, [], Created(db, before, now, principal))
    ensures var after := Apply(before, now, Insert(principal, request, None));
            && db.jobs <= after.jobs && |after.jobs| == |before.jobs| + 1
            && after == Wrote(db, after.jobs, [], Created(db, after, now, principal))
  {
    var after := Apply(before, now, Insert(principal, request, None));
    assert after.jobs == before.jobs + [NewRow(principal, request, now)];
    assert forall i :: 0 <= i < |before.jobs| ==> after.jobs[i] == before.jobs[i];
    assert after.jobs[|before.jobs|].request.Kind() == request.Kind();
    assert Created(db, after, now, principal)
        == Created(db, before, now, principal)
           + [AuditRow(now, principal, JobCreate(|before.jobs|, request.Kind(), Sha256(request)))];
  }

  /** What a committed batch leaves: one queued row and one audit record for each new key, and nothing else. */
  lemma BatchRows(db: Db, now: int, requests: seq<JobRequest>, principal: string, cap: int)
    requires KeysUnique(db) && Decide(db, now, SubmitBatch(requests, principal, cap)).Commit?
    ensures var op := SubmitBatch(requests, principal, cap);
            var marks, after := Decide(db, now, op).marks, Do(db, now, op);
            && |marks| == |requests| && db.jobs <= after.jobs
            && |after.jobs| == |db.jobs| + |NewOnes(db, requests, principal)|
            && after == Wrote(db, after.jobs, [], Created(db, after, now, principal))
            && forall i: nat :: i < |requests| ==>
                 && marks[i].job < |after.jobs| && marks[i].created == NewKey(db, principal, requests[i].key)
                 && after.jobs[marks[i].job].principal == principal && after.jobs[marks[i].job].key == requests[i].key
                 && (marks[i].created ==> marks[i].job >= |db.jobs|
                                          && QueuedRow(after.jobs[marks[i].job], now, requests[i], principal))
  {
    var after, marks := Do(db, now, SubmitBatch(requests, principal, cap)),
                        DecideBatch(db, requests, principal, cap).marks;
    InsertsLog(db, now, ScanBatch(db, requests, principal).pending, principal);
    ScanExact(db, requests, principal);
    BatchAnswers(db, now, requests, principal, cap);
    forall i: nat | i < |requests|
      ensures marks[i].job < |after.jobs| && marks[i].created == NewKey(db, principal, requests[i].key)
      ensures after.jobs[marks[i].job].principal == principal && after.jobs[marks[i].job].key == requests[i].key
      ensures marks[i].created ==> marks[i].job >= |db.jobs|
                                   && QueuedRow(after.jobs[marks[i].job], now, requests[i], principal)
    {
      AnsweredRow(db, after, now, marks[i], requests[i], principal);
    }
  }

  lemma AnsweredRow(db: Db, after: Db, now: int, mark: Mark, request: JobRequest, principal: string)
    requires Answered(db, after, now, mark, request, principal)
    ensures mark.job < |after.jobs| && mark.created == NewKey(db, principal, request.key)
    ensures after.jobs[mark.job].principal == principal && after.jobs[mark.job].key == request.key
    ensures mark.created ==> mark.job >= |db.jobs| && QueuedRow(after.jobs[mark.job], now, request, principal)
  {
    FindKeyExact(db.jobs, principal, request.key);
    FindKeyExact(after.jobs, principal, request.key);
  }

  // ---- the app -------------------------------------------------------------------------------------------------

  /** The kinds that share the one slot of this kind; None where there is no slot to share. */
  function SharedSlot(kind: JobKind): Option<set<JobKind>> {
    match kind
    case DEPLOY => Some({DEPLOY, RECOVER, GENERATE, UPDATE, SECRET_ROTATION})
    case RECOVER => Some({DEPLOY, RECOVER, GENERATE, UPDATE, SECRET_ROTATION})
    case GENERATE => Some({DEPLOY, RECOVER, GENERATE, UPDATE, SECRET_ROTATION})
    case UPDATE => Some({DEPLOY, RECOVER, GENERATE, UPDATE, SECRET_ROTATION})
    case SECRET_ROTATION => Some({DEPLOY, RECOVER, GENERATE, UPDATE, SECRET_ROTATION})
    case HOST_RECONCILE => Some({HOST_RECONCILE, HOST_REMOVE})
    case HOST_REMOVE => Some({HOST_RECONCILE, HOST_REMOVE})
    case DNS_SYNC => None
    case CONTAINER_ACTION => None
    case CONFIG_APPLY => None
    case DESTROY_INFRA => None
    case WEBHOOK_HEAL => None
    case _ => Some({kind})
  }

  /** The endpoint passes on every request but a heal and an already sealed invitation. A request under a new key that
      is not destructive is then accepted exactly when no unfinished job occupies the slot of its kind; a kind without
      a slot always is. */
  lemma FreeSlotAdmits(db: Db, now: int, request: JobRequest, principal: string)
    requires NewKey(db, principal, request.key) && !request.operation.Destroy?
    ensures var op := ApiSubmit(request, principal);
            && (op.None? <==> request.Kind() == WEBHOOK_HEAL || request.operation.SealedInvite?)
            && (op.Some? ==>
                  (var slot := SharedSlot(request.Kind());
                   var d, after := Decide(db, now, op.value), Do(db, now, op.value);
                   if slot.None? || Unfinished(db.jobs, slot.value) == {} then
                     d.Commit? && Queued(db, after, now, request, principal)
                   else d == Refuse(QueueLimit) && after == db))
  {
    var op := ApiSubmit(request, principal);
    EndpointLimits(request, principal);
    if op.Some? { SubmissionExact(db, now, request, principal, op.value.limit, op.value.kinds); }
  }

  lemma EndpointLimits(request: JobRequest, principal: string)
    requires !request.operation.Destroy?
    ensures var op, slot := ApiSubmit(request, principal), SharedSlot(request.Kind());
            && (op.None? <==> request.Kind() == WEBHOOK_HEAL || request.operation.SealedInvite?)
            && (op.Some? ==>
                  && op.value.Submit? && op.value.request == request && op.value.principal == principal
                  && Admissible(request, op.value.limit, op.value.kinds)
                  && (slot.None? ==> op.value.limit.None?)
                  && (slot.Some? ==> op.value.limit == Some(1)
                                     && slot.value == if op.value.kinds.Some? then op.value.kinds.value
                                                      else {request.Kind()}))
  {
  }

  /** A destructive request under a new key meets no limit: the app admits it exactly when its plan agrees and some
      unspent and unexpired approval carries its token. */
  lemma DestructionAdmitted(db: Db, now: int, request: JobRequest, principal: string)
    requires NewKey(db, principal, request.key) && request.operation.Destroy? && TokensDistinct(db.approvals)
    ensures var op := ApiSubmit(request, principal);
            && op.Some?
            && (Decide(db, now, op.value).Commit? <==>
                  PlanAgrees(db, request.operation, principal)
                  && exists a: nat :: Approves(db, a, request.operation, principal, now))
            && (Decide(db, now, op.value).Commit? ==> Queued(db, Do(db, now, op.value), now, request, principal))
  {
    DestructionExact(db, now, request, principal, None, None);
  }

  /** No two unfinished jobs share a slot, and at most eight heals are unfinished. */
  ghost predicate SlotsKept(db: Db) {
    && (forall kind: JobKind :: SharedSlot(kind).Some? ==> |Unfinished(db.jobs, SharedSlot(kind).value)| <= 1)
    && |Unfinished(db.jobs, {WEBHOOK_HEAL})| <= 8
  }

  lemma {:induction false} SlotsAreKept(steps: seq<Step>)
    requires forall k :: 0 <= k < |steps| ==> FromApp(steps[k].op)
    ensures SlotsKept(Run(EMPTY, steps))
  {
    var db := Run(EMPTY, steps);
    AdmissionCaps(steps);
    forall kind: JobKind | SharedSlot(kind).Some? ensures |Unfinished(db.jobs, SharedSlot(kind).value)| <= 1 {
      SlotIsGroup(kind);
      CountIsSize(db.jobs, SharedSlot(kind).value);
    }
    assert SlotsOf(WEBHOOK_HEAL) == Some(({WEBHOOK_HEAL}, 8));
    CountIsSize(db.jobs, {WEBHOOK_HEAL});
  }

  lemma SlotIsGroup(kind: JobKind)
    requires SharedSlot(kind).Some?
    ensures SlotsOf(kind) == Some((SharedSlot(kind).value, 1))
  {
  }
}
