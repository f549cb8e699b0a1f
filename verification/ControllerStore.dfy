/** The store as the controller runs it: tables updated in place, one method per transaction. Every method is proved
    to do exactly what `JobTables.Decide` says, so the run theorems of the other modules hold of this class. */
module ControllerStore {
  import opened Contracts
  import opened JobTables
  import opened JobOrder
  import opened JobRuns
  import opened Submissions

  datatype Reply = Refused(error: StoreError) | Accepted(marks: seq<Mark>)

  function ReplyOf(d: Decision): Reply {
    match d
    case Refuse(e) => Refused(e)
    case Commit(_, marks) => Accepted(marks)
  }

  /** Finalising abandoned cancellations does not change who is waiting. */
  lemma RecoveryKeepsWaiting(jobs: seq<Row>, now: int)
    ensures Select(RecoveredRows(jobs, Select(jobs, Abandoned(now)), now), Claimable(now))
         == Select(jobs, Claimable(now))
  {
    var after := RecoveredRows(jobs, Select(jobs, Abandoned(now)), now);
    SelectExact(jobs, Abandoned(now));
    SelectExact(jobs, Claimable(now));
    SelectExact(after, Claimable(now));
    OrderedUnique(jobs, Select(jobs, Claimable(now)), Select(after, Claimable(now)));
  }

  lemma AbandonedRows(db: Db, now: int, worker: string)
    ensures ApplyAll(db, now, Recoveries(Select(db.jobs, Abandoned(now)), worker)).jobs
         == RecoveredRows(db.jobs, Select(db.jobs, Abandoned(now)), now)
  {
    AbandonedSound(db, now, worker);
  }

  /** Every mark that names a row below `rows` is recorded under its request's key. */
  ghost predicate Recorded(marks: seq<Mark>, requests: seq<JobRequest>, results: map<string, Mark>, rows: nat) {
    && |marks| == |requests|
    && forall i :: 0 <= i < |requests| && marks[i].job < rows ==>
         requests[i].key in results && results[requests[i].key] == marks[i]
  }

  lemma RecoveriesSnoc(db: Db, now: int, ids: seq<nat>, worker: string, n: nat)
    requires n < |ids| && ids[n] < |db.jobs| && AllInRange(db, Recoveries(ids[..n], worker))
    ensures AllInRange(db, Recoveries(ids[..n + 1], worker))
    ensures InRange(ApplyAll(db, now, Recoveries(ids[..n], worker)), Edit.Recover(ids[n], worker))
    ensures ApplyAll(db, now, Recoveries(ids[..n + 1], worker))
         == Apply(ApplyAll(db, now, Recoveries(ids[..n], worker)), now, Edit.Recover(ids[n], worker))
  {
    assert Recoveries(ids[..n + 1], worker)[..n] == Recoveries(ids[..n], worker);
  }

  lemma InsertsSnoc(db: Db, now: int, pending: seq<JobRequest>, principal: string, n: nat)
    requires n < |pending|
    ensures AllInRange(db, Inserts(pending[..n], principal)) && AllInRange(db, Inserts(pending[..n + 1], principal))
    ensures ApplyAll(db, now, Inserts(pending[..n + 1], principal))
         == Apply(ApplyAll(db, now, Inserts(pending[..n], principal)), now, Insert(principal, pending[n], None))
  {
    assert Inserts(pending[..n + 1], principal)[..n] == Inserts(pending[..n], principal);
  }

  class ControllerStore {
    var jobs: seq<Row>
    var events: seq<EventRow>
    var audit: seq<AuditRow>
    var plans: seq<PlanRow>
    var approvals: seq<ApprovalRow>
    ghost var history: seq<Step>

    function Tables(): Db
      reads this
    {
      Db(jobs, events, audit, plans, approvals)
    }

    /** The tables are what the recorded transactions made of an empty database. */
    ghost predicate Valid()
      reads this
    {
      Tables() == Run(EMPTY, history)
    }

    /** The call was this one atomic step and answered as decided. */
    twostate predicate Did(now: int, op: Op, reply: Reply)
      reads this
    {
      && Tables() == Do(old(Tables()), now, op)
      && history == old(history) + [Step(now, op)]
      && reply == ReplyOf(Decide(old(Tables()), now, op))
    }

    lemma OneMore(db: Db, earlier: seq<Step>, step: Step)
      requires db == Run(EMPTY, earlier)
      ensures Do(db, step.now, step.op) == Run(EMPTY, earlier + [step])
    {
      assert (earlier + [step])[..|earlier|] == earlier;
    }

    constructor ()
      ensures Valid() && Tables() == EMPTY && history == []
    {
      jobs, events, audit, plans, approvals, history := [], [], [], [], [], [];
    }

    method CreatePlan(now: int, actor: string, spec: PlanSpec) returns (reply: Reply)
      requires Valid()
      modifies this
      ensures Valid() && Did(now, Op.CreatePlan(actor, spec), reply)
    {
      ghost var before, step := Tables(), Step(now, Op.CreatePlan(actor, spec));
      SoundOne(before, now, AddPlan(actor, spec));
      OneMore(before, history, step);
      audit := audit + [AuditRow(now, actor, PlanCreate(|plans|))];
      plans := plans + [PlanRow(actor, spec)];
      history := history + [step];
      assert Tables().events == before.events + [];
      reply := Accepted([]);
    }

    method IssueApproval(now: int, planId: nat, actor: string, ttl: int, token: string) returns (reply: Reply)
      requires Valid()
      modifies this
      ensures Valid() && Did(now, Op.IssueApproval(planId, actor, ttl, token), reply)
    {
      ghost var before, step := Tables(), Step(now, Op.IssueApproval(planId, actor, ttl, token));
      OneMore(before, history, step);
      history := history + [step];
      if ttl <= 0 || ttl > MAX_APPROVAL_TTL { return Refused(ApprovalRefused); }
      if planId >= |plans| { return Refused(PlanNotFound); }
      if plans[planId].actor != actor { return Refused(ApprovalRefused); }
      SoundOne(before, now, AddApproval(planId, actor, token, ttl));
      approvals := approvals + [ApprovalRow(planId, actor, Sha256(token), now, now + ttl, None)];
      audit := audit + [AuditRow(now, actor, ApprovalIssue(planId, now + ttl))];
      assert Tables().events == before.events + [];
      reply := Accepted([]);
    }

    /** `submit_job`. */
    method SubmitJob(now: int, request: JobRequest, principal: string, limit: Option<int>,
                     kinds: Option<set<JobKind>>) returns (reply: Reply)
      requires Valid()
      modifies this
      ensures Valid() && Did(now, Submit(request, principal, limit, kinds), reply)
    {
      ghost var before, step := Tables(), Step(now, Submit(request, principal, limit, kinds));
      OneMore(before, history, step);
      history := history + [step];
      if limit.Some? && limit.value < 1 { return Refused(InvalidValue); }
      if kinds.Some? && request.Kind() !in kinds.value { return Refused(InvalidValue); }
      var existing := FindKey(jobs, principal, request.key);
      if existing.Some? {
        if jobs[existing.value].payloadHash != Sha256(request) { return Refused(IdempotencyConflict); }
        return Accepted([Mark(existing.value, false)]);
      }
      if limit.Some? {
        var scope := if kinds.Some? then kinds.value else {request.Kind()};
        if ActiveCount(jobs, scope) >= limit.value { return Refused(QueueLimit); }
      }
      var spent: Option<nat> := None;
      if request.operation.Destroy? {
        spent := ApprovalFor(Tables(), request.operation, principal, now);
        if spent.None? { return Refused(ApprovalRefused); }
      } else if request.operation.SealedInvite? {
        return Refused(PayloadProtection);
      }
      SoundOne(before, now, Insert(principal, request, spent));
      var id := InsertRow(now, request, principal, spent);
      reply := Accepted([Mark(id, true)]);
    }

    /** Spend the approval, if one is needed, and add the job with its audit record. */
    method InsertRow(now: int, request: JobRequest, principal: string, spent: Option<nat>) returns (id: nat)
      requires spent.Some? ==> spent.value < |approvals|
      modifies this
      ensures id == old(|jobs|) && history == old(history)
      ensures Tables() == Apply(old(Tables()), now, Insert(principal, request, spent))
    {
      id := |jobs|;
      if spent.Some? {
        approvals := approvals[spent.value := approvals[spent.value].(consumedAt := Some(now))];
      }
      jobs := jobs + [NewRow(principal, request, now)];
      audit := audit + [AuditRow(now, principal, JobCreate(id, request.Kind(), Sha256(request)))];
      assert events == events + [];
    }

    /** The first loop of a batch: look every key up, collecting replays and the requests that need a new job. */
    method ScanRequests(requests: seq<JobRequest>, principal: string)
      returns (stop: Option<StoreError>, results: map<string, Mark>, pending: seq<JobRequest>)
      requires forall i, j :: 0 <= i < j < |requests| ==> requests[i].key != requests[j].key
      ensures var scan := ScanBatch(Tables(), requests, principal);
              if stop.Some? then scan == Stop(stop.value)
              else scan.Scanned? && scan.pending == pending && Recorded(scan.marks, requests, results, |jobs|)
    {
      stop, results, pending := None, map[], [];
      var k := 0;
      while k < |requests|
        invariant 0 <= k <= |requests|
        invariant var scan := ScanBatch(Tables(), requests[..k], principal);
                  scan.Scanned? && scan.pending == pending && Recorded(scan.marks, requests[..k], results, |jobs|)
      {
        var request := requests[k];
        ScanStep(Tables(), requests, principal, results, k);
        var existing := FindKey(jobs, principal, request.key);
        if existing.Some? {
          if jobs[existing.value].payloadHash != Sha256(request) {
            ScanStops(Tables(), requests, principal, k + 1);
            stop := Some(IdempotencyConflict);
            return;
          }
          results := results[request.key := Mark(existing.value, false)];
        } else {
          if request.operation.SealedInvite? {
            ScanStops(Tables(), requests, principal, k + 1);
            stop := Some(PayloadProtection);
            return;
          }
          pending := pending + [request];
        }
        k := k + 1;
      }
      assert requests[..k] == requests;
    }

    /** The last loop of a batch: insert the new jobs in order, recording each under its key. */
    method InsertPending(now: int, requests: seq<JobRequest>, principal: string, pending: seq<JobRequest>,
                         scanned: map<string, Mark>) returns (results: map<string, Mark>)
      requires forall i, j :: 0 <= i < j < |requests| ==> requests[i].key != requests[j].key
      requires var scan := ScanBatch(Tables(), requests, principal);
               scan.Scanned? && scan.pending == pending && Recorded(scan.marks, requests, scanned, |jobs|)
      modifies this
      ensures AllInRange(old(Tables()), Inserts(pending, principal))
      ensures Tables() == ApplyAll(old(Tables()), now, Inserts(pending, principal))
      ensures history == old(history)
      ensures Recorded(ScanBatch(old(Tables()), requests, principal).marks, requests, results, |jobs|)
    {
      results := scanned;
      ghost var before := Tables();
      ghost var marks := ScanBatch(before, requests, principal).marks;
      var n := 0;
      while n < |pending|
        invariant 0 <= n <= |pending|
        invariant AllInRange(before, Inserts(pending[..n], principal))
        invariant Tables() == ApplyAll(before, now, Inserts(pending[..n], principal))
        invariant |jobs| == |before.jobs| + n && history == old(history)
        invariant Recorded(marks, requests, results, |jobs|)
      {
        InsertsSnoc(before, now, pending, principal, n);
        RecordOneMore(before, requests, principal, results, n);
        var id := InsertRow(now, pending[n], principal, None);
        results := results[pending[n].key := Mark(id, true)];
        n := n + 1;
      }
      assert pending[..n] == pending;
    }

    /** `submit_job_batch_limited`: scan all requests, then insert the new ones, then answer in request order. */
    method SubmitJobBatch(now: int, requests: seq<JobRequest>, principal: string, cap: int) returns (reply: Reply)
      requires Valid()
      modifies this
      ensures Valid() && Did(now, SubmitBatch(requests, principal, cap), reply)
    {
      ghost var before, step := Tables(), Step(now, SubmitBatch(requests, principal, cap));
      OneMore(before, history, step);
      history := history + [step];
      if !BatchShape(requests, cap) { return Refused(InvalidValue); }
      var stop, results, pending := ScanRequests(requests, principal);
      if stop.Some? { return Refused(stop.value); }
      if ActiveCount(jobs, {requests[0].Kind()}) + |pending| > cap { return Refused(QueueLimit); }
      ScanMarks(before, requests, principal);
      InsertsEffect(before, now, pending, principal);
      results := InsertPending(now, requests, principal, pending, results);
      AllRecorded(before, requests, principal, results);
      reply := Accepted(InRequestOrder(requests, results));
    }

    /** `claim_job`. */
    method ClaimJob(now: int, id: nat, worker: string, seconds: int) returns (reply: Reply)
      requires Valid()
      modifies this
      ensures Valid() && Did(now, Op.ClaimJob(id, worker, seconds), reply)
    {
      ghost var before, step := Tables(), Step(now, Op.ClaimJob(id, worker, seconds));
      OneMore(before, history, step);
      history := history + [step];
      if seconds <= 0 { return Refused(InvalidValue); }
      if id >= |jobs| { return Refused(JobNotFound); }
      var row := jobs[id];
      if !(row.state == QUEUED || (row.state == RUNNING && row.leaseExpiry.Some? && row.leaseExpiry.value <= now)) {
        return Refused(JobConflict);
      }
      SoundOne(before, now, Claim(id, worker, seconds));
      Take(now, id, worker, seconds);
      reply := Accepted([Mark(id, false)]);
    }

    /** The claim both claiming methods make. */
    method Take(now: int, id: nat, worker: string, seconds: int)
      requires id < |jobs|
      modifies this
      ensures Tables() == Apply(old(Tables()), now, Claim(id, worker, seconds))
      ensures history == old(history)
    {
      var row, expiry := jobs[id], now + seconds * SECOND;
      jobs := jobs[id := row.(state := RUNNING, leaseOwner := Some(worker), generation := row.generation + 1,
                              leaseExpiry := Some(expiry), updatedAt := now)];
      audit := audit + [AuditRow(now, worker, JobClaim(id, expiry, jobs[id].generation))];
      assert events == old(events) + [];
    }

    method FinalizeOne(now: int, worker: string, id: nat)
      requires id < |jobs|
      modifies this
      ensures Tables() == Apply(old(Tables()), now, Edit.Recover(id, worker)) && history == old(history)
    {
      jobs := jobs[id := jobs[id].(state := CANCELLED, updatedAt := now, leaseOwner := None, leaseExpiry := None)];
      events := events + [EventRow(id, now, RECOVERED)];
      audit := audit + [AuditRow(now, worker, JobCancelRecover(id))];
    }

    /** The recovery loop of `claim_next`. */
    method FinalizeAbandoned(now: int, worker: string)
      modifies this
      ensures Tables() == ApplyAll(old(Tables()), now, Recoveries(Select(old(jobs), Abandoned(now)), worker))
      ensures history == old(history)
    {
      ghost var before := Tables();
      var abandoned := Select(jobs, Abandoned(now));
      var k := 0;
      while k < |abandoned|
        invariant 0 <= k <= |abandoned|
        invariant |jobs| == |before.jobs| && history == old(history)
        invariant AllInRange(before, Recoveries(abandoned[..k], worker))
        invariant Tables() == ApplyAll(before, now, Recoveries(abandoned[..k], worker))
      {
        RecoveriesSnoc(before, now, abandoned, worker, k);
        FinalizeOne(now, worker, abandoned[k]);
        k := k + 1;
      }
      assert abandoned[..k] == abandoned;
    }

    /** `claim_next`: finalise abandoned cancellations one by one, then take the oldest waiting job. */
    method ClaimNext(now: int, worker: string, seconds: int) returns (reply: Reply)
      requires Valid()
      modifies this
      ensures Valid() && Did(now, Op.ClaimNext(worker, seconds), reply)
    {
      ghost var before, step := Tables(), Step(now, Op.ClaimNext(worker, seconds));
      OneMore(before, history, step);
      history := history + [step];
      if seconds <= 0 { return Refused(InvalidValue); }
      ghost var recoveries := Recoveries(Select(before.jobs, Abandoned(now)), worker);
      AbandonedRows(before, now, worker);
      FinalizeAbandoned(now, worker);
      RecoveryKeepsWaiting(before.jobs, now);
      var waiting := Select(jobs, Claimable(now));
      if |waiting| == 0 { return Accepted([]); }
      assert (recoveries + [Claim(waiting[0], worker, seconds)])[..|recoveries|] == recoveries;
      Take(now, waiting[0], worker, seconds);
      reply := Accepted([Mark(waiting[0], false)]);
    }

    /** `renew_lease`. */
    method RenewLease(now: int, id: nat, worker: string, generation: nat, seconds: int) returns (reply: Reply)
      requires Valid()
      modifies this
      ensures Valid() && Did(now, Op.RenewLease(id, worker, generation, seconds), reply)
    {
      ghost var before, step := Tables(), Step(now, Op.RenewLease(id, worker, generation, seconds));
      OneMore(before, history, step);
      history := history + [step];
      if seconds <= 0 { return Refused(InvalidValue); }
      if id >= |jobs| { return Refused(JobNotFound); }
      if !LiveLease(jobs[id], worker, generation, now) { return Refused(JobConflict); }
      SoundOne(before, now, Renew(id, seconds));
      WriteRenewal(now, id, seconds);
      reply := Accepted([Mark(id, false)]);
    }

    method WriteRenewal(now: int, id: nat, seconds: int)
      requires id < |jobs|
      modifies this
      ensures Tables() == Apply(old(Tables()), now, Renew(id, seconds)) && history == old(history)
    {
      jobs := jobs[id := jobs[id].(leaseExpiry := Some(now + seconds * SECOND), updatedAt := now)];
      assert events == old(events) + [] && audit == old(audit) + [];
    }

    /** `assert_lease`: reads only. */
    method AssertLease(now: int, id: nat, worker: string, generation: nat) returns (state: Option<JobState>)
      ensures state.Some? <==> id < |jobs| && LiveLease(jobs[id], worker, generation, now)
      ensures state.Some? ==> state.value == jobs[id].state
    {
      if id >= |jobs| || !LiveLease(jobs[id], worker, generation, now) { return None; }
      state := Some(jobs[id].state);
    }

    /** `transition`. */
    method Transition(now: int, id: nat, expected: JobState, target: JobState, result: Option<JobResult>,
                      error: Option<ErrorBody>, event: Option<EventText>, holder: Option<string>, held: Option<nat>)
      returns (reply: Reply)
      requires Valid()
      modifies this
      ensures Valid() && Did(now, Op.Transition(id, expected, target, result, error, event, holder, held), reply)
    {
      ghost var op := Op.Transition(id, expected, target, result, error, event, holder, held);
      ghost var before := Tables();
      OneMore(before, history, Step(now, op));
      history := history + [Step(now, op)];
      if target !in Transitions(expected) { return Refused(JobConflict); }
      if event.Some? && !ValidEvent(event.value) { return Refused(InvalidValue); }
      if id >= |jobs| { return Refused(JobNotFound); }
      var row := jobs[id];
      if row.state != expected { return Refused(JobConflict); }
      if Leased(expected) {
        if holder.None? || held.None? { return Refused(JobConflict); }
        if !LiveLease(row, holder.value, held.value, now) { return Refused(JobConflict); }
      }
      var writer := if holder.Some? && holder.value != "" then holder.value else row.principal;
      SoundOne(before, now, Finish(id, target, result, error, event, writer));
      WriteOutcome(now, id, target, result, error, event, writer);
      reply := Accepted([Mark(id, false)]);
    }

    method WriteOutcome(now: int, id: nat, target: JobState, result: Option<JobResult>, error: Option<ErrorBody>,
                        event: Option<EventText>, writer: string)
      requires id < |jobs|
      modifies this
      ensures Tables() == Apply(old(Tables()), now, Finish(id, target, result, error, event, writer))
      ensures history == old(history)
    {
      var row := jobs[id];
      jobs := jobs[id := row.(state := target, updatedAt := now, result := result, error := error,
                              leaseOwner := if Terminal(target) then None else row.leaseOwner,
                              leaseExpiry := if Terminal(target) then None else row.leaseExpiry)];
      if event.Some? {
        events := events + [EventRow(id, now, event.value)];
      }
      audit := audit + [AuditRow(now, writer, JobTransition(id, row.state, target))];
      assert event.None? ==> events == old(events) + [];
    }

    /** `request_cancel`. */
    method RequestCancel(now: int, id: nat, principal: string) returns (reply: Reply)
      requires Valid()
      modifies this
      ensures Valid() && Did(now, Op.RequestCancel(id, principal), reply)
    {
      ghost var before, step := Tables(), Step(now, Op.RequestCancel(id, principal));
      OneMore(before, history, step);
      history := history + [step];
      if id >= |jobs| { return Refused(JobNotFound); }
      var row := jobs[id];
      if !CanCancel(row.request.Kind(), row.state) { return Refused(JobConflict); }
      SoundOne(before, now, Cancel(id, principal));
      WriteCancel(now, id, principal);
      reply := Accepted([Mark(id, false)]);
    }

    method WriteCancel(now: int, id: nat, principal: string)
      requires id < |jobs|
      modifies this
      ensures Tables() == Apply(old(Tables()), now, Cancel(id, principal)) && history == old(history)
    {
      var row := jobs[id];
      if row.state == QUEUED {
        jobs := jobs[id := row.(state := CANCELLED, cancelRequested := true, updatedAt := now,
                                leaseOwner := None, leaseExpiry := None)];
        events := events + [EventRow(id, now, CANCELLED_EARLY)];
        audit := audit + [AuditRow(now, principal, JobCancelRequest(id, QUEUED, CANCELLED))];
      } else {
        jobs := jobs[id := row.(state := CANCEL_REQUESTED, cancelRequested := true, updatedAt := now)];
        audit := audit + [AuditRow(now, principal, JobCancelRequest(id, row.state, CANCEL_REQUESTED))];
        assert events == old(events) + [];
      }
    }

    /** `append_event`. */
    method AppendEvent(now: int, id: nat, text: EventText, holder: Option<string>, held: Option<nat>)
      returns (reply: Reply)
      requires Valid()
      modifies this
      ensures Valid() && Did(now, Op.AppendEvent(id, text, holder, held), reply)
    {
      ghost var before, step := Tables(), Step(now, Op.AppendEvent(id, text, holder, held));
      OneMore(before, history, step);
      history := history + [step];
      if !ValidEvent(text) { return Refused(InvalidValue); }
      if id >= |jobs| { return Refused(JobNotFound); }
      if holder.None? != held.None? { return Refused(JobConflict); }
      if holder.Some? && !LiveLease(jobs[id], holder.value, held.value, now) { return Refused(JobConflict); }
      SoundOne(before, now, Emit(id, text));
      events := events + [EventRow(id, now, text)];
      assert audit == before.audit + [];
      reply := Accepted([]);
    }

    /** `append_audit`. */
    method AppendAudit(now: int, principal: string, action: string) returns (reply: Reply)
      requires Valid()
      modifies this
      ensures Valid() && Did(now, Op.AppendAudit(principal, action), reply)
    {
      ghost var before, step := Tables(), Step(now, Op.AppendAudit(principal, action));
      OneMore(before, history, step);
      SoundOne(before, now, Audit(principal, action));
      history := history + [step];
      audit := audit + [AuditRow(now, principal, Other(action))];
      assert events == before.events + [];
      reply := Accepted([]);
    }

    /** Any one call. */
    method Perform(step: Step) returns (reply: Reply)
      requires Valid()
      modifies this
      ensures Valid() && Did(step.now, step.op, reply)
    {
      var now := step.now;
      match step.op
      case CreatePlan(actor, spec) => reply := CreatePlan(now, actor, spec);
      case IssueApproval(plan, actor, ttl, token) => reply := IssueApproval(now, plan, actor, ttl, token);
      case Submit(request, principal, limit, kinds) => reply := SubmitJob(now, request, principal, limit, kinds);
      case SubmitBatch(requests, principal, cap) => reply := SubmitJobBatch(now, requests, principal, cap);
      case ClaimJob(id, worker, seconds) => reply := ClaimJob(now, id, worker, seconds);
      case ClaimNext(worker, seconds) => reply := ClaimNext(now, worker, seconds);
      case RenewLease(id, worker, generation, seconds) => reply := RenewLease(now, id, worker, generation, seconds);
      case Transition(id, expected, target, result, error, event, holder, held) =>
        reply := Transition(now, id, expected, target, result, error, event, holder, held);
      case RequestCancel(id, principal) => reply := RequestCancel(now, id, principal);
      case AppendEvent(id, text, holder, held) => reply := AppendEvent(now, id, text, holder, held);
      case AppendAudit(principal, action) => reply := AppendAudit(now, principal, action);
    }

    /** Everything other clients do to the store between two calls of one client. */
    method Others(steps: seq<Step>)
      requires Valid()
      modifies this
      ensures Valid()
      ensures Tables() == Run(old(Tables()), steps)
      ensures history == old(history) + steps
    {
      var k := 0;
      while k < |steps|
        invariant 0 <= k <= |steps|
        invariant Valid() && Tables() == Run(old(Tables()), steps[..k]) && history == old(history) + steps[..k]
      {
        assert steps[..k + 1][..k] == steps[..k];
        var _ := Perform(steps[k]);
        assert old(history) + steps[..k] + [steps[k]] == old(history) + steps[..k + 1];
        k := k + 1;
      }
      assert steps[..k] == steps;
    }
  }

  lemma {:induction false} ScanStops(db: Db, requests: seq<JobRequest>, principal: string, k: nat)
    requires k <= |requests| && ScanBatch(db, requests[..k], principal).Stop?
    ensures ScanBatch(db, requests, principal) == ScanBatch(db, requests[..k], principal)
    decreases |requests| - k
  {
    if k == |requests| {
      assert requests[..k] == requests;
    } else {
      assert requests[..k + 1][..k] == requests[..k];
      ScanStops(db, requests, principal, k + 1);
    }
  }

  /** One turn of the scanning loop. */
  lemma ScanStep(db: Db, requests: seq<JobRequest>, principal: string, results: map<string, Mark>, k: nat)
    requires k < |requests| && forall i, j :: 0 <= i < j < |requests| ==> requests[i].key != requests[j].key
    requires var scan := ScanBatch(db, requests[..k], principal);
             scan.Scanned? && Recorded(scan.marks, requests[..k], results, |db.jobs|)
    ensures var request, next := requests[k], ScanBatch(db, requests[..k + 1], principal);
            var pending := ScanBatch(db, requests[..k], principal).pending;
            var found := FindKey(db.jobs, principal, request.key);
            if found.Some? then
              if db.jobs[found.value].payloadHash != Sha256(request) then next == Stop(IdempotencyConflict)
              else next.Scanned? && next.pending == pending
                   && Recorded(next.marks, requests[..k + 1], results[request.key := Mark(found.value, false)],
                               |db.jobs|)
            else if request.operation.SealedInvite? then next == Stop(PayloadProtection)
            else next.Scanned? && next.pending == pending + [request]
                 && Recorded(next.marks, requests[..k + 1], results, |db.jobs|)
  {
    assert requests[..k + 1][..k] == requests[..k];
    var scan := ScanBatch(db, requests[..k], principal);
    assert ScanBatch(db, requests[..k + 1], principal) == ScanOne(db, scan, requests[k], principal);
    forall i | 0 <= i < k ensures requests[..k + 1][i] == requests[..k][i] && requests[i].key != requests[k].key {}
  }

  /** The answers in request order. */
  function InRequestOrder(requests: seq<JobRequest>, results: map<string, Mark>): seq<Mark>
    requires forall i :: 0 <= i < |requests| ==> requests[i].key in results
  {
    seq(|requests|, i requires 0 <= i < |requests| => results[requests[i].key])
  }

  lemma AllRecorded(db: Db, requests: seq<JobRequest>, principal: string, results: map<string, Mark>)
    requires var s := ScanBatch(db, requests, principal);
             s.Scanned? && Recorded(s.marks, requests, results, |db.jobs| + |s.pending|)
    ensures forall i :: 0 <= i < |requests| ==> requests[i].key in results
    ensures InRequestOrder(requests, results) == ScanBatch(db, requests, principal).marks
  {
    forall i | 0 <= i < |requests|
      ensures requests[i].key in results
      ensures results[requests[i].key] == ScanBatch(db, requests, principal).marks[i]
    {
      MarkInTable(db, requests, principal, i);
    }
  }

  /** Recording new row `n` under its request's key disturbs no other request's record. */
  lemma RecordOneMore(db: Db, requests: seq<JobRequest>, principal: string, results: map<string, Mark>, n: nat)
    requires ScanBatch(db, requests, principal).Scanned? && n < |ScanBatch(db, requests, principal).pending|
    requires forall i, j :: 0 <= i < j < |requests| ==> requests[i].key != requests[j].key
    requires Recorded(ScanBatch(db, requests, principal).marks, requests, results, |db.jobs| + n)
    ensures var s := ScanBatch(db, requests, principal);
            Recorded(s.marks, requests, results[s.pending[n].key := Mark(|db.jobs| + n, true)], |db.jobs| + n + 1)
  {
    var s := ScanBatch(db, requests, principal);
    ScanMarks(db, requests, principal);
    PendingSource(db, requests, principal, n);
    forall i | 0 <= i < |requests| && s.marks[i].job == |db.jobs| + n
      ensures requests[i].key == s.pending[n].key && s.marks[i] == Mark(|db.jobs| + n, true)
    {
      assert MarkOk(db, s.pending, s.marks[i], requests[i], principal);
    }
  }

  lemma MarkInTable(db: Db, requests: seq<JobRequest>, principal: string, i: nat)
    requires ScanBatch(db, requests, principal).Scanned? && i < |requests|
    ensures var s := ScanBatch(db, requests, principal);
            |s.marks| == |requests| && s.marks[i].job < |db.jobs| + |s.pending|
  {
    var s := ScanBatch(db, requests, principal);
    ScanMarks(db, requests, principal);
    assert MarkOk(db, s.pending, s.marks[i], requests[i], principal);
  }

  lemma {:induction false} PendingSource(db: Db, requests: seq<JobRequest>, principal: string, n: nat)
    requires ScanBatch(db, requests, principal).Scanned? && n < |ScanBatch(db, requests, principal).pending|
    ensures var s := ScanBatch(db, requests, principal);
            |s.marks| == |requests|
            && exists j :: 0 <= j < |requests| && requests[j] == s.pending[n] && s.marks[j] == Mark(|db.jobs| + n, true)
  {
    var last := |requests| - 1;
    var earlier := ScanBatch(db, requests[..last], principal);
    ScanMarks(db, requests, principal);
    ScanMarks(db, requests[..last], principal);
    if n < |earlier.pending| {
      PendingSource(db, requests[..last], principal, n);
      var j :| 0 <= j < last && requests[..last][j] == earlier.pending[n]
               && earlier.marks[j] == Mark(|db.jobs| + n, true);
      assert requests[j] == requests[..last][j];
    } else {
      assert requests[last] == ScanBatch(db, requests, principal).pending[n];
    }
  }
}
