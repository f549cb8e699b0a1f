/** The durable tables of the controller and what each store method commits to them.

    A store method runs in one immediate transaction and rolls back on an exception, so it is one atomic
    step. `Decide` says, for the tables as they stand, either the refusal or the list of row edits the method
    commits; `Do` applies them. Row numbers stand for uuids, so a new row's identifier is fresh by construction;
    SHA-256, HMAC and sealing are injective constructors; times are integer microseconds. */
module JobTables {
  import opened Contracts

  const MAX_APPROVAL_TTL: int := 15 * 60 * SECOND
  const CONSUMED_TOKEN: string := "consumed-approval"
  const MAX_EVENT_MESSAGE: nat := 4000

  type PlainKind = k: JobKind | k != DESTROY_INFRA witness GENERATE

  datatype PlanSpec = PlanSpec(action: string, scopes: seq<string>, configRevision: string, evidence: string)

  datatype Operation =
    | Destroy(action: string, scopes: seq<string>, configRevision: string,
              planId: nat, planHash: Digest<PlanSpec>, approvalToken: string)
    | Invite(command: string)
    | SealedInvite(plaintext: string, boundPrincipal: string, boundKey: string)
    | Plain(plainKind: PlainKind, body: string)

  datatype JobRequest = JobRequest(key: string, operation: Operation) {
    function Kind(): JobKind {
      match operation
      case Destroy(_, _, _, _, _, _) => DESTROY_INFRA
      case Invite(_) => IDENTITY
      case SealedInvite(_, _, _) => IDENTITY
      case Plain(k, _) => k
    }
  }

  /** The form of a request that is written to disk: a destructive approval token is blanked and a plaintext
      invitation is sealed to the principal and key it was submitted under. */
  function Persisted(request: JobRequest, principal: string): JobRequest {
    match request.operation
    case Destroy(_, _, _, _, _, _) => request.(operation := request.operation.(approvalToken := CONSUMED_TOKEN))
    case Invite(command) => request.(operation := SealedInvite(command, principal, request.key))
    case _ => request
  }

  datatype JobResult = JobResult(partial: bool, body: string)
  datatype ErrorBody = ErrorBody(code: string, message: string)
  datatype EventLevel = DEBUG | INFO | WARNING | ERROR
  datatype EventText = EventText(level: EventLevel, message: string)

  datatype Row = Row(
    principal: string, key: string, payloadHash: Digest<JobRequest>, request: JobRequest,
    state: JobState, createdAt: int, updatedAt: int, cancelRequested: bool,
    result: Option<JobResult>, error: Option<ErrorBody>,
    leaseOwner: Option<string>, generation: nat, leaseExpiry: Option<int>)

  datatype EventRow = EventRow(job: nat, at: int, text: EventText)

  datatype AuditEntry =
    | JobCreate(job: nat, kind: JobKind, hash: Digest<JobRequest>)
    | JobClaim(job: nat, expiry: int, generation: nat)
    | JobTransition(job: nat, from: JobState, to: JobState)
    | JobCancelRequest(job: nat, from: JobState, to: JobState)
    | JobCancelRecover(job: nat)
    | PlanCreate(plan: nat)
    | ApprovalIssue(plan: nat, expiresAt: int)
    | Other(action: string)

  datatype AuditRow = AuditRow(at: int, principal: string, entry: AuditEntry)
  datatype PlanRow = PlanRow(actor: string, spec: PlanSpec)
  datatype ApprovalRow = ApprovalRow(planId: nat, actor: string, tokenHash: Digest<string>,
                                     createdAt: int, expiresAt: int, consumedAt: Option<int>)

  datatype Db = Db(jobs: seq<Row>, events: seq<EventRow>, audit: seq<AuditRow>,
                   plans: seq<PlanRow>, approvals: seq<ApprovalRow>)

  const EMPTY: Db := Db([], [], [], [], [])

  datatype StoreError =
    | JobNotFound | JobConflict | QueueLimit | IdempotencyConflict | PlanNotFound | ApprovalRefused
    | InvalidValue | PayloadProtection

  // ---- queries -----------------------------------------------------------------------------------------

  predicate Active(row: Row) {
    !Terminal(row.state)
  }

  /** The lease check every fenced write makes. */
  predicate LiveLease(row: Row, worker: string, generation: nat, now: int) {
    && Leased(row.state)
    && row.leaseOwner == Some(worker)
    && row.generation == generation
    && row.leaseExpiry.Some? && row.leaseExpiry.value > now
  }

  predicate Expired(row: Row, now: int) {
    row.leaseExpiry.Some? && row.leaseExpiry.value <= now
  }

  datatype Query = Abandoned(now: int) | Claimable(now: int)

  predicate Picks(q: Query, row: Row) {
    match q
    case Abandoned(now) => row.state == CANCEL_REQUESTED && (row.leaseExpiry.None? || Expired(row, now))
    case Claimable(now) => row.state == QUEUED || (row.state == RUNNING && Expired(row, now))
  }

  /** ORDER BY created_at, rowid. */
  predicate Earlier(jobs: seq<Row>, i: nat, j: nat)
    requires i < |jobs| && j < |jobs|
  {
    jobs[i].createdAt < jobs[j].createdAt || (jobs[i].createdAt == jobs[j].createdAt && i < j)
  }

  function Place(jobs: seq<Row>, ids: seq<nat>, i: nat): seq<nat>
    requires i < |jobs| && forall k :: 0 <= k < |ids| ==> ids[k] < |jobs|
  {
    if |ids| == 0 || Earlier(jobs, i, ids[0]) then [i] + ids
    else [ids[0]] + Place(jobs, ids[1..], i)
  }

  function SelectPrefix(jobs: seq<Row>, q: Query, n: nat): (ids: seq<nat>)
    requires n <= |jobs|
    ensures forall k :: 0 <= k < |ids| ==> ids[k] < |jobs|
  {
    if n == 0 then []
    else
      PickOne(jobs, q, SelectPrefix(jobs, q, n - 1), n - 1)
  }

  /** The matching rows with row `n` in its place, if it matches. */
  function PickOne(jobs: seq<Row>, q: Query, ids: seq<nat>, n: nat): (next: seq<nat>)
    requires n < |jobs| && forall k :: 0 <= k < |ids| ==> ids[k] < |jobs|
    ensures forall k :: 0 <= k < |next| ==> next[k] < |jobs|
  {
    if Picks(q, jobs[n]) then PlaceInBounds(jobs, ids, n); Place(jobs, ids, n) else ids
  }

  lemma PlaceInBounds(jobs: seq<Row>, ids: seq<nat>, i: nat)
    requires i < |jobs| && forall k :: 0 <= k < |ids| ==> ids[k] < |jobs|
    ensures forall k :: 0 <= k < |Place(jobs, ids, i)| ==> Place(jobs, ids, i)[k] < |jobs|
  {
  }

  /** SELECT ... WHERE <q> ORDER BY created_at, rowid. */
  function Select(jobs: seq<Row>, q: Query): (ids: seq<nat>)
    ensures forall k :: 0 <= k < |ids| ==> ids[k] < |jobs|
  {
    SelectPrefix(jobs, q, |jobs|)
  }

  function FindKey(jobs: seq<Row>, principal: string, key: string): (found: Option<nat>)
    ensures found.Some? ==> found.value < |jobs|
  {
    if |jobs| == 0 then None
    else
      var earlier := FindKey(jobs[..|jobs| - 1], principal, key);
      if earlier.Some? then earlier
      else if jobs[|jobs| - 1].principal == principal && jobs[|jobs| - 1].key == key then Some(|jobs| - 1)
      else None
  }

  function ActiveCount(jobs: seq<Row>, kinds: set<JobKind>): nat {
    if |jobs| == 0 then 0
    else
      var last := jobs[|jobs| - 1];
      ActiveCount(jobs[..|jobs| - 1], kinds) + (if Active(last) && last.request.Kind() in kinds then 1 else 0)
  }

  predicate Grants(a: ApprovalRow, planId: nat, actor: string, token: string) {
    a.planId == planId && a.actor == actor && a.tokenHash == Sha256(token)
  }

  /** The newest approval row for this plan, actor and token. */
  function FindApproval(approvals: seq<ApprovalRow>, planId: nat, actor: string, token: string): (found: Option<nat>)
    ensures found.Some? ==> found.value < |approvals| && Grants(approvals[found.value], planId, actor, token)
  {
    if |approvals| == 0 then None
    else
      var n := |approvals| - 1;
      var earlier := FindApproval(approvals[..n], planId, actor, token);
      if !Grants(approvals[n], planId, actor, token) then earlier
      else if earlier.Some? && approvals[earlier.value].createdAt >= approvals[n].createdAt then earlier
      else Some(n)
  }

  // ---- edits -------------------------------------------------------------------------------------------

  /** One row-level change together with the event and audit records committed with it. Inserting a destructive
      job also spends its approval. */
  datatype Edit =
    | AddPlan(actor: string, spec: PlanSpec)
    | AddApproval(plan: nat, actor: string, token: string, ttl: int)
    | Insert(principal: string, request: JobRequest, spent: Option<nat>)
    | Claim(job: nat, worker: string, leaseSeconds: int)
    | Recover(job: nat, worker: string)
    | Renew(job: nat, leaseSeconds: int)
    | Finish(job: nat, target: JobState, result: Option<JobResult>, error: Option<ErrorBody>,
             event: Option<EventText>, writer: string)
    | Cancel(job: nat, principal: string)
    | Emit(job: nat, text: EventText)
    | Audit(principal: string, action: string)

  predicate InRange(db: Db, e: Edit) {
    match e
    case Insert(_, _, spent) => spent.Some? ==> spent.value < |db.approvals|
    case Claim(id, _, _) => id < |db.jobs|
    case Recover(id, _) => id < |db.jobs|
    case Renew(id, _) => id < |db.jobs|
    case Finish(id, _, _, _, _, _) => id < |db.jobs|
    case Cancel(id, _) => id < |db.jobs|
    case Emit(id, _) => id < |db.jobs|
    case _ => true
  }

  function NewRow(principal: string, request: JobRequest, now: int): Row {
    Row(principal, request.key, Sha256(request), Persisted(request, principal), QUEUED, now, now, false,
        None, None, None, 0, None)
  }

  function CancelTarget(state: JobState): JobState {
    if state == QUEUED then CANCELLED else CANCEL_REQUESTED
  }

  /** The row a job edit leaves behind. */
  function Edited(row: Row, e: Edit, now: int): Row {
    match e
    case Claim(_, worker, seconds) =>
      row.(state := RUNNING, leaseOwner := Some(worker), generation := row.generation + 1,
           leaseExpiry := Some(now + seconds * SECOND), updatedAt := now)
    case Recover(_, _) =>
      row.(state := CANCELLED, updatedAt := now, leaseOwner := None, leaseExpiry := None)
    case Renew(_, seconds) =>
      row.(leaseExpiry := Some(now + seconds * SECOND), updatedAt := now)
    case Finish(_, target, result, error, _, _) =>
      row.(state := target, updatedAt := now, result := result, error := error,
           leaseOwner := if Terminal(target) then None else row.leaseOwner,
           leaseExpiry := if Terminal(target) then None else row.leaseExpiry)
    case Cancel(_, _) =>
      var target := CancelTarget(row.state);
      row.(state := target, cancelRequested := true, updatedAt := now,
           leaseOwner := if target == CANCELLED then None else row.leaseOwner,
           leaseExpiry := if target == CANCELLED then None else row.leaseExpiry)
    case _ => row
  }

  const RECOVERED: EventText := EventText(WARNING, "Cancellation finalized after worker lease expired")
  const CANCELLED_EARLY: EventText := EventText(WARNING, "Job cancelled before execution")

  function NewEvents(db: Db, now: int, e: Edit): seq<EventRow>
    requires InRange(db, e)
  {
    match e
    case Recover(id, _) => [EventRow(id, now, RECOVERED)]
    case Finish(id, _, _, _, event, _) => if event.Some? then [EventRow(id, now, event.value)] else []
    case Cancel(id, _) => if db.jobs[id].state == QUEUED then [EventRow(id, now, CANCELLED_EARLY)] else []
    case Emit(id, text) => [EventRow(id, now, text)]
    case _ => []
  }

  function NewAudit(db: Db, now: int, e: Edit): seq<AuditRow>
    requires InRange(db, e)
  {
    match e
    case AddPlan(actor, _) => [AuditRow(now, actor, PlanCreate(|db.plans|))]
    case AddApproval(plan, actor, _, ttl) => [AuditRow(now, actor, ApprovalIssue(plan, now + ttl))]
    case Insert(principal, request, _) =>
      [AuditRow(now, principal, JobCreate(|db.jobs|, request.Kind(), Sha256(request)))]
    case Claim(id, worker, seconds) =>
      [AuditRow(now, worker, JobClaim(id, now + seconds * SECOND, db.jobs[id].generation + 1))]
    case Recover(id, worker) => [AuditRow(now, worker, JobCancelRecover(id))]
    case Finish(id, target, _, _, _, writer) => [AuditRow(now, writer, JobTransition(id, db.jobs[id].state, target))]
    case Cancel(id, principal) =>
      [AuditRow(now, principal, JobCancelRequest(id, db.jobs[id].state, CancelTarget(db.jobs[id].state)))]
    case Audit(principal, action) => [AuditRow(now, principal, Other(action))]
    case _ => []
  }

  function NewJobs(db: Db, now: int, e: Edit): seq<Row>
    requires InRange(db, e)
  {
    match e
    case Insert(principal, request, _) => db.jobs + [NewRow(principal, request, now)]
    case Claim(id, _, _) => db.jobs[id := Edited(db.jobs[id], e, now)]
    case Recover(id, _) => db.jobs[id := Edited(db.jobs[id], e, now)]
    case Renew(id, _) => db.jobs[id := Edited(db.jobs[id], e, now)]
    case Finish(id, _, _, _, _, _) => db.jobs[id := Edited(db.jobs[id], e, now)]
    case Cancel(id, _) => db.jobs[id := Edited(db.jobs[id], e, now)]
    case _ => db.jobs
  }

  function NewApprovals(db: Db, now: int, e: Edit): seq<ApprovalRow>
    requires InRange(db, e)
  {
    match e
    case AddApproval(plan, actor, token, ttl) =>
      db.approvals + [ApprovalRow(plan, actor, Sha256(token), now, now + ttl, None)]
    case Insert(_, _, spent) =>
      if spent.None? then db.approvals
      else db.approvals[spent.value := db.approvals[spent.value].(consumedAt := Some(now))]
    case _ => db.approvals
  }

  function Apply(db: Db, now: int, e: Edit): Db
    requires InRange(db, e)
  {
    Db(NewJobs(db, now, e), db.events + NewEvents(db, now, e), db.audit + NewAudit(db, now, e),
       if e.AddPlan? then db.plans + [PlanRow(e.actor, e.spec)] else db.plans, NewApprovals(db, now, e))
  }

  /** Every edit of the list is in range when its turn comes; edits never remove a row. */
  predicate AllInRange(db: Db, edits: seq<Edit>) {
    forall k :: 0 <= k < |edits| ==> InRange(db, edits[k])
  }

  function ApplyAll(db: Db, now: int, edits: seq<Edit>): (after: Db)
    requires AllInRange(db, edits)
    ensures |after.jobs| >= |db.jobs| && |after.approvals| >= |db.approvals| && |after.plans| >= |db.plans|
  {
    if |edits| == 0 then db
    else
      var before := ApplyAll(db, now, edits[..|edits| - 1]);
      Apply(before, now, edits[|edits| - 1])
  }

  // ---- store methods -----------------------------------------------------------------------------------

  datatype Op =
    | CreatePlan(actor: string, spec: PlanSpec)
    | IssueApproval(planId: nat, actor: string, ttl: int, token: string)
    | Submit(request: JobRequest, principal: string, limit: Option<int>, kinds: Option<set<JobKind>>)
    | SubmitBatch(requests: seq<JobRequest>, principal: string, cap: int)
    | ClaimJob(job: nat, worker: string, leaseSeconds: int)
    | ClaimNext(worker: string, leaseSeconds: int)
    | RenewLease(job: nat, worker: string, generation: nat, leaseSeconds: int)
    | Transition(job: nat, expected: JobState, target: JobState, result: Option<JobResult>, error: Option<ErrorBody>,
                 event: Option<EventText>, holder: Option<string>, held: Option<nat>)
    | RequestCancel(job: nat, principal: string)
    | AppendEvent(job: nat, text: EventText, holder: Option<string>, held: Option<nat>)
    | AppendAudit(principal: string, action: string)

  /** The jobs a submission answers with, in request order; `true` marks a job this call created. */
  datatype Mark = Mark(job: nat, created: bool)

  datatype Decision = Refuse(error: StoreError) | Commit(edits: seq<Edit>, marks: seq<Mark>)

  predicate ValidEvent(text: EventText) {
    1 <= |text.message| <= MAX_EVENT_MESSAGE
  }

  /** What `_consume_destructive_approval` finds wrong with a destructive request, or the approval it spends. */
  function ApprovalFor(db: Db, op: Operation, principal: string, now: int): (found: Option<nat>)
    requires op.Destroy?
    ensures found.Some? ==> found.value < |db.approvals|
  {
    if op.planId >= |db.plans| then None
    else
      var plan := db.plans[op.planId];
      if || plan.actor != principal
         || Sha256(plan.spec) != op.planHash
         || plan.spec.action != op.action
         || plan.spec.scopes != op.scopes
         || plan.spec.configRevision != op.configRevision then None
      else
        var found := FindApproval(db.approvals, op.planId, principal, op.approvalToken);
        if found.None? then None
        else if db.approvals[found.value].consumedAt.Some? then None
        else if db.approvals[found.value].expiresAt <= now then None
        else found
  }

  function DecideSubmit(db: Db, now: int, request: JobRequest, principal: string,
                        limit: Option<int>, kinds: Option<set<JobKind>>): (d: Decision)
    ensures d.Commit? ==> AllInRange(db, d.edits)
  {
    if limit.Some? && limit.value < 1 then Refuse(InvalidValue)
    else if kinds.Some? && request.Kind() !in kinds.value then Refuse(InvalidValue)
    else
      var existing := FindKey(db.jobs, principal, request.key);
      if existing.Some? then
        if db.jobs[existing.value].payloadHash != Sha256(request) then Refuse(IdempotencyConflict)
        else Commit([], [Mark(existing.value, false)])
      else if limit.Some? &&
              ActiveCount(db.jobs, if kinds.Some? then kinds.value else {request.Kind()}) >= limit.value
      then Refuse(QueueLimit)
      else if request.operation.Destroy? then
        var approval := ApprovalFor(db, request.operation, principal, now);
        if approval.None? then Refuse(ApprovalRefused)
        else Commit([Insert(principal, request, approval)], [Mark(|db.jobs|, true)])
      else if request.operation.SealedInvite? then Refuse(PayloadProtection)
      else Commit([Insert(principal, request, None)], [Mark(|db.jobs|, true)])
  }

  /** The scan over a batch before anything is written: a refusal, or for each request the job that answers it.
      Requests that need a new job are numbered in order from the end of the table. */
  datatype Scan = Stop(error: StoreError) | Scanned(marks: seq<Mark>, pending: seq<JobRequest>)

  function ScanOne(db: Db, earlier: Scan, request: JobRequest, principal: string): Scan {
    if earlier.Stop? then earlier
    else
      var existing := FindKey(db.jobs, principal, request.key);
      if existing.Some? then
        if db.jobs[existing.value].payloadHash != Sha256(request) then Stop(IdempotencyConflict)
        else earlier.(marks := earlier.marks + [Mark(existing.value, false)])
      else if request.operation.SealedInvite? then Stop(PayloadProtection)
      else Scanned(earlier.marks + [Mark(|db.jobs| + |earlier.pending|, true)], earlier.pending + [request])
  }

  function ScanBatch(db: Db, requests: seq<JobRequest>, principal: string): Scan {
    if |requests| == 0 then Scanned([], [])
    else
      var n := |requests| - 1;
      ScanOne(db, ScanBatch(db, requests[..n], principal), requests[n], principal)
  }

  predicate BatchShape(requests: seq<JobRequest>, cap: int) {
    && 0 < |requests| <= cap
    && (forall i, j :: 0 <= i < j < |requests| ==> requests[i].key != requests[j].key)
    && (forall i :: 0 <= i < |requests| ==>
          requests[i].Kind() == requests[0].Kind() && !requests[i].operation.Destroy?)
  }

  function Inserts(requests: seq<JobRequest>, principal: string): seq<Edit> {
    seq(|requests|, i requires 0 <= i < |requests| => Insert(principal, requests[i], None))
  }

  function DecideBatch(db: Db, requests: seq<JobRequest>, principal: string, cap: int): (d: Decision)
    ensures d.Commit? ==> AllInRange(db, d.edits)
  {
    if !BatchShape(requests, cap) then Refuse(InvalidValue)
    else
      var scan := ScanBatch(db, requests, principal);
      if scan.Stop? then Refuse(scan.error)
      else if ActiveCount(db.jobs, {requests[0].Kind()}) + |scan.pending| > cap then Refuse(QueueLimit)
      else Commit(Inserts(scan.pending, principal), scan.marks)
  }

  function Recoveries(ids: seq<nat>, worker: string): seq<Edit> {
    seq(|ids|, i requires 0 <= i < |ids| => Edit.Recover(ids[i], worker))
  }

  function DecideClaimNext(db: Db, now: int, worker: string, leaseSeconds: int): (d: Decision)
    ensures d.Commit? ==> AllInRange(db, d.edits)
  {
    if leaseSeconds <= 0 then Refuse(InvalidValue)
    else
      var recoveries := Recoveries(Select(db.jobs, Abandoned(now)), worker);
      var waiting := Select(db.jobs, Claimable(now));
      if |waiting| == 0 then Commit(recoveries, [])
      else Commit(recoveries + [Claim(waiting[0], worker, leaseSeconds)], [Mark(waiting[0], false)])
  }

  function DecideTransition(db: Db, now: int, op: Op): (d: Decision)
    requires op.Transition?
    ensures d.Commit? ==> AllInRange(db, d.edits)
  {
    if op.target !in Transitions(op.expected) then Refuse(JobConflict)
    else if op.event.Some? && !ValidEvent(op.event.value) then Refuse(InvalidValue)
    else if op.job >= |db.jobs| then Refuse(JobNotFound)
    else
      var row := db.jobs[op.job];
      if row.state != op.expected then Refuse(JobConflict)
      else if Leased(op.expected) &&
              (op.holder.None? || op.held.None? || !LiveLease(row, op.holder.value, op.held.value, now))
      then Refuse(JobConflict)
      else
        var writer := if op.holder.Some? && op.holder.value != "" then op.holder.value else row.principal;
        Commit([Finish(op.job, op.target, op.result, op.error, op.event, writer)], [Mark(op.job, false)])
  }

  function Decide(db: Db, now: int, op: Op): (d: Decision)
    ensures d.Commit? ==> AllInRange(db, d.edits)
  {
    match op
    case CreatePlan(actor, spec) => Commit([AddPlan(actor, spec)], [])
    case IssueApproval(plan, actor, ttl, token) =>
      if ttl <= 0 || ttl > MAX_APPROVAL_TTL then Refuse(ApprovalRefused)
      else if plan >= |db.plans| then Refuse(PlanNotFound)
      else if db.plans[plan].actor != actor then Refuse(ApprovalRefused)
      else Commit([AddApproval(plan, actor, token, ttl)], [])
    case Submit(request, principal, limit, kinds) => DecideSubmit(db, now, request, principal, limit, kinds)
    case SubmitBatch(requests, principal, cap) => DecideBatch(db, requests, principal, cap)
    case ClaimJob(id, worker, seconds) =>
      if seconds <= 0 then Refuse(InvalidValue)
      else if id >= |db.jobs| then Refuse(JobNotFound)
      else if !Picks(Claimable(now), db.jobs[id]) then Refuse(JobConflict)
      else Commit([Claim(id, worker, seconds)], [Mark(id, false)])
    case ClaimNext(worker, seconds) => DecideClaimNext(db, now, worker, seconds)
    case RenewLease(id, worker, generation, seconds) =>
      if seconds <= 0 then Refuse(InvalidValue)
      else if id >= |db.jobs| then Refuse(JobNotFound)
      else if !LiveLease(db.jobs[id], worker, generation, now) then Refuse(JobConflict)
      else Commit([Renew(id, seconds)], [Mark(id, false)])
    case Transition(_, _, _, _, _, _, _, _) => DecideTransition(db, now, op)
    case RequestCancel(id, principal) =>
      if id >= |db.jobs| then Refuse(JobNotFound)
      else if !CanCancel(db.jobs[id].request.Kind(), db.jobs[id].state) then Refuse(JobConflict)
      else Commit([Cancel(id, principal)], [Mark(id, false)])
    case AppendEvent(id, text, holder, held) =>
      if !ValidEvent(text) then Refuse(InvalidValue)
      else if id >= |db.jobs| then Refuse(JobNotFound)
      else if holder.None? != held.None? then Refuse(JobConflict)
      else if holder.Some? && !LiveLease(db.jobs[id], holder.value, held.value, now) then Refuse(JobConflict)
      else Commit([Emit(id, text)], [])
    case AppendAudit(principal, action) => Commit([Audit(principal, action)], [])
  }

  function Do(db: Db, now: int, op: Op): Db {
    match Decide(db, now, op)
    case Refuse(_) => db
    case Commit(edits, _) => ApplyAll(db, now, edits)
  }

  // ---- runs --------------------------------------------------------------------------------------------

  /** One atomic store step, at the instant its caller read the clock. */
  datatype Step = Step(now: int, op: Op)

  function Run(db: Db, steps: seq<Step>): Db {
    if |steps| == 0 then db
    else
      var last := steps[|steps| - 1];
      Do(Run(db, steps[..|steps| - 1]), last.now, last.op)
  }

  lemma {:induction false} RunConcat(db: Db, first: seq<Step>, second: seq<Step>)
    ensures Run(db, first + second) == Run(Run(db, first), second)
  {
    if |second| == 0 {
      assert first + second == first;
    } else {
      var n := |second| - 1;
      RunConcat(db, first, second[..n]);
      assert (first + second)[..|first + second| - 1] == first + second[..n];
    }
  }
}
