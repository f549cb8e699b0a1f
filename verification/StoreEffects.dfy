/** When each store call is accepted and what it leaves, told from the columns of the tables alone. */
module StoreEffects {
  import opened Contracts
  import opened JobTables
  import opened JobOrder
  import opened JobRuns
  import opened ClaimDrain

  /** The tables with these jobs and with these records added to both logs; plans and approvals as they were. */
  function Wrote(db: Db, jobs: seq<Row>, events: seq<EventRow>, audit: seq<AuditRow>): Db {
    db.(jobs := jobs, events := db.events + events, audit := db.audit + audit)
  }

  /** The row shows an unexpired lease of this worker and generation. */
  predicate Holds(row: Row, worker: string, generation: nat, now: int) {
    && (row.state == RUNNING || row.state == CANCEL_REQUESTED)
    && row.leaseOwner == Some(worker) && row.generation == generation
    && row.leaseExpiry.Some? && now < row.leaseExpiry.value
  }

  lemma OneEdit(db: Db, now: int, op: Op, e: Edit)
    requires InRange(db, e) && Decide(db, now, op).Commit? && Decide(db, now, op).edits == [e]
    ensures Do(db, now, op) == Apply(db, now, e)
  {
    OnlyEdit(db, now, e);
  }

  lemma OnlyEdit(db: Db, now: int, e: Edit)
    requires InRange(db, e)
    ensures AllInRange(db, [e]) && ApplyAll(db, now, [e]) == Apply(db, now, e)
  {
    assert [e][..0] == [];
    assert ApplyAll(db, now, [e]) == Apply(ApplyAll(db, now, [e][..0]), now, e);
  }

  // ---- leases --------------------------------------------------------------------------------------------

  /** A renewal is accepted exactly under a live lease. It moves the expiry to so many seconds from now and changes
      nothing else, so the lease is live at exactly the moments before that. */
  lemma RenewalExact(db: Db, now: int, id: nat, worker: string, generation: nat, seconds: int)
    ensures var op := RenewLease(id, worker, generation, seconds);
            var d, after := Decide(db, now, op), Do(db, now, op);
            && (d.Commit? <==> seconds > 0 && id < |db.jobs| && Holds(db.jobs[id], worker, generation, now))
            && (d.Refuse? ==> after == db)
            && (d.Commit? ==>
                  (var row := db.jobs[id].(leaseExpiry := Some(now + seconds * 1_000_000), updatedAt := now);
                   && after == Wrote(db, db.jobs[id := row], [], [])
                   && forall t :: Holds(after.jobs[id], worker, generation, t) <==> t < now + seconds * 1_000_000))
  {
    var op := RenewLease(id, worker, generation, seconds);
    if Decide(db, now, op).Commit? { OneEdit(db, now, op, Renew(id, seconds)); }
  }

  /** The op renews, reports or logs under this lease. */
  predicate Uses(op: Op, id: nat, generation: nat) {
    || (op.RenewLease? && op.job == id && op.generation == generation)
    || (op.Transition? && op.job == id && op.held == Some(generation))
  }

  /** The lease is as it was, and the job at most being cancelled. */
  ghost predicate StillLeased(before: Row, after: Row) {
    && after.leaseOwner == before.leaseOwner && after.generation == before.generation
    && after.leaseExpiry == before.leaseExpiry && after.request == before.request
    && (after.state == before.state || after.state == CANCEL_REQUESTED)
  }

  lemma StepLeavesLease(db: Db, now: int, op: Op, id: nat, worker: string, generation: nat)
    requires id < |db.jobs| && Holds(db.jobs[id], worker, generation, now) && !Uses(op, id, generation)
    ensures id < |Do(db, now, op).jobs| && StillLeased(db.jobs[id], Do(db, now, op).jobs[id])
  {
    if Decide(db, now, op).Commit? {
      if op.ClaimNext? {
        ClaimNextExact(db, now, op.worker, op.leaseSeconds);
        ClaimListsExact(db, now);
      } else if op.Submit? || op.SubmitBatch? {
        SubmissionLeavesRows(db, now, op, id);
      } else {
        OtherLeavesLease(db, now, op, id, worker, generation);
      }
    }
  }

  lemma SubmissionLeavesRows(db: Db, now: int, op: Op, id: nat)
    requires (op.Submit? || op.SubmitBatch?) && id < |db.jobs|
    ensures id < |Do(db, now, op).jobs| && Do(db, now, op).jobs[id] == db.jobs[id]
  {
    var d := Decide(db, now, op);
    if d.Commit? {
      if op.SubmitBatch? {
        InsertsEffect(db, now, ScanBatch(db, op.requests, op.principal).pending, op.principal);
      } else if d.edits != [] {
        OneEdit(db, now, op, d.edits[0]);
      }
    }
  }

  lemma OtherLeavesLease(db: Db, now: int, op: Op, id: nat, worker: string, generation: nat)
    requires id < |db.jobs| && Holds(db.jobs[id], worker, generation, now) && !Uses(op, id, generation)
    requires !op.ClaimNext? && !op.Submit? && !op.SubmitBatch?
    ensures id < |Do(db, now, op).jobs| && StillLeased(db.jobs[id], Do(db, now, op).jobs[id])
  {
    var d := Decide(db, now, op);
    if d.Commit? { OneEdit(db, now, op, d.edits[0]); }
  }

  /** Until it expires a lease cannot be taken away: whatever anybody does that is not done under the lease itself, the
      job keeps its owner, generation and expiry, and the lease is live at every moment before that expiry. */
  lemma {:induction false} LeaseHolds(db: Db, steps: seq<Step>, id: nat, worker: string, generation: nat, expiry: int)
    requires id < |db.jobs| && db.jobs[id].leaseExpiry == Some(expiry)
    requires Holds(db.jobs[id], worker, generation, expiry - 1)
    requires forall k :: 0 <= k < |steps| ==> steps[k].now < expiry && !Uses(steps[k].op, id, generation)
    ensures id < |Run(db, steps).jobs| && StillLeased(db.jobs[id], Run(db, steps).jobs[id])
    ensures forall t :: t < expiry ==> Holds(Run(db, steps).jobs[id], worker, generation, t)
  {
    if |steps| > 0 {
      var n := |steps| - 1;
      LeaseHolds(db, steps[..n], id, worker, generation, expiry);
      StepLeavesLease(Run(db, steps[..n]), steps[n].now, steps[n].op, id, worker, generation);
    }
  }

  /** A renewed lease lasts the seconds asked for, whatever others do meanwhile. */
  lemma {:induction false} RenewalLasts(db: Db, now: int, id: nat, worker: string, generation: nat, seconds: int,
                                        steps: seq<Step>, t: int)
    requires Decide(db, now, RenewLease(id, worker, generation, seconds)).Commit?
    requires now <= t < now + seconds * 1_000_000
    requires forall k :: 0 <= k < |steps| ==> steps[k].now <= t && !Uses(steps[k].op, id, generation)
    ensures var after := Run(Do(db, now, RenewLease(id, worker, generation, seconds)), steps);
            id < |after.jobs| && Holds(after.jobs[id], worker, generation, t)
  {
    RenewalExact(db, now, id, worker, generation, seconds);
    LeaseHolds(Do(db, now, RenewLease(id, worker, generation, seconds)), steps, id, worker, generation,
               now + seconds * 1_000_000);
  }

  predicate MayBeClaimed(row: Row, now: int) {
    || row.state == QUEUED
    || (row.state == RUNNING && row.leaseExpiry.Some? && row.leaseExpiry.value <= now)
  }

  predicate MayBeFinalised(row: Row, now: int) {
    row.state == CANCEL_REQUESTED && (row.leaseExpiry.None? || row.leaseExpiry.value <= now)
  }

  /** The job, running under a new lease. */
  function Taken(row: Row, now: int, worker: string, seconds: int): Row {
    row.(state := RUNNING, leaseOwner := Some(worker), generation := row.generation + 1,
         leaseExpiry := Some(now + seconds * 1_000_000), updatedAt := now)
  }

  function ClaimRecord(id: nat, row: Row, now: int, worker: string, seconds: int): AuditRow {
    AuditRow(now, worker, JobClaim(id, now + seconds * 1_000_000, row.generation + 1))
  }

  lemma ClaimJobExact(db: Db, now: int, id: nat, worker: string, seconds: int)
    ensures var op := ClaimJob(id, worker, seconds);
            var d, after := Decide(db, now, op), Do(db, now, op);
            && (d.Commit? <==> seconds > 0 && id < |db.jobs| && MayBeClaimed(db.jobs[id], now))
            && (d.Refuse? ==> after == db)
            && (d.Commit? ==>
                  after == Wrote(db, db.jobs[id := Taken(db.jobs[id], now, worker, seconds)], [],
                                 [ClaimRecord(id, db.jobs[id], now, worker, seconds)]))
  {
    var op := ClaimJob(id, worker, seconds);
    if Decide(db, now, op).Commit? { OneEdit(db, now, op, Claim(id, worker, seconds)); }
  }

  /** The two lists `claim_next` works on, by what the rows show: membership, each once, the oldest first and the
      earlier row first among equals. */
  lemma ClaimListsExact(db: Db, now: int)
    ensures var abandoned, waiting := Select(db.jobs, Abandoned(now)), Select(db.jobs, Claimable(now));
            && (forall k: nat :: k in abandoned <==> k < |db.jobs| && MayBeFinalised(db.jobs[k], now))
            && (forall k: nat :: k in waiting <==> k < |db.jobs| && MayBeClaimed(db.jobs[k], now))
            && ByAge(db.jobs, abandoned) && ByAge(db.jobs, waiting)
  {
    SelectExact(db.jobs, Abandoned(now));
    SelectExact(db.jobs, Claimable(now));
  }

  ghost predicate ByAge(jobs: seq<Row>, ids: seq<nat>) {
    forall i, j :: 0 <= i < j < |ids| && ids[i] < |jobs| && ids[j] < |jobs| ==>
      || jobs[ids[i]].createdAt < jobs[ids[j]].createdAt
      || (jobs[ids[i]].createdAt == jobs[ids[j]].createdAt && ids[i] < ids[j])
  }

  function Finalised(row: Row, now: int): Row {
    row.(state := CANCELLED, updatedAt := now, leaseOwner := None, leaseExpiry := None)
  }

  function FinalisedEvents(ids: seq<nat>, now: int): seq<EventRow> {
    seq(|ids|, i requires 0 <= i < |ids| =>
      EventRow(ids[i], now, EventText(WARNING, "Cancellation finalized after worker lease expired")))
  }

  function FinalisedAudit(ids: seq<nat>, now: int, worker: string): seq<AuditRow> {
    seq(|ids|, i requires 0 <= i < |ids| => AuditRow(now, worker, JobCancelRecover(ids[i])))
  }

  lemma LogsSnoc(ids: seq<nat>, now: int, worker: string, n: nat)
    requires |ids| == n + 1
    ensures FinalisedEvents(ids, now) == FinalisedEvents(ids[..n], now) + [EventRow(ids[n], now, RECOVERED)]
    ensures FinalisedAudit(ids, now, worker)
         == FinalisedAudit(ids[..n], now, worker) + [AuditRow(now, worker, JobCancelRecover(ids[n]))]
  {
  }

  lemma {:induction false} RecoveriesLog(db: Db, now: int, ids: seq<nat>, worker: string)
    requires AllInRange(db, Recoveries(ids, worker))
    ensures var after := ApplyAll(db, now, Recoveries(ids, worker));
            && after.events == db.events + FinalisedEvents(ids, now)
            && after.audit == db.audit + FinalisedAudit(ids, now, worker)
            && after.plans == db.plans && after.approvals == db.approvals
  {
    if |ids| > 0 {
      var n := |ids| - 1;
      assert Recoveries(ids, worker)[..n] == Recoveries(ids[..n], worker);
      RecoveriesLog(db, now, ids[..n], worker);
      LogsSnoc(ids, now, worker, n);
    }
  }

  /** What `claim_next` leaves, row by row. */
  ghost predicate ClaimedNext(before: seq<Row>, after: seq<Row>, waiting: seq<nat>, now: int, worker: string,
                              seconds: int)
  {
    && |after| == |before|
    && forall k: nat :: k < |before| ==>
         after[k] == if MayBeFinalised(before[k], now) then Finalised(before[k], now)
                     else if waiting != [] && k == waiting[0] then Taken(before[k], now, worker, seconds)
                     else before[k]
  }

  /** `claim_next` finalises exactly the abandoned cancellations, puts the head of the waiting list under a new lease,
      leaves every other row alone and logs each of these changes once. */
  lemma ClaimNextExact(db: Db, now: int, worker: string, seconds: int)
    requires seconds > 0
    ensures var op := ClaimNext(worker, seconds);
            var d, after := Decide(db, now, op), Do(db, now, op);
            var abandoned, waiting := Select(db.jobs, Abandoned(now)), Select(db.jobs, Claimable(now));
            && d.Commit? && d.marks == (if waiting == [] then [] else [Mark(waiting[0], false)])
            && ClaimedNext(db.jobs, after.jobs, waiting, now, worker, seconds)
            && after == Wrote(db, after.jobs, FinalisedEvents(abandoned, now),
                              FinalisedAudit(abandoned, now, worker)
                              + if waiting == [] then []
                                else [ClaimRecord(waiting[0], db.jobs[waiting[0]], now, worker, seconds)])
  {
    ClaimNextLeaves(db, now, worker, seconds);
    ClaimNextLogs(db, now, worker, seconds);
  }

  lemma ClaimNextLeaves(db: Db, now: int, worker: string, seconds: int)
    requires seconds > 0
    ensures var after, waiting := Do(db, now, ClaimNext(worker, seconds)), Select(db.jobs, Claimable(now));
            ClaimedNext(db.jobs, after.jobs, waiting, now, worker, seconds)
  {
    var abandoned, waiting := Select(db.jobs, Abandoned(now)), Select(db.jobs, Claimable(now));
    ClaimNextTable(db, now, worker, seconds);
    ClaimListsExact(db, now);
    HeadWaits(db, now);
    RowsLeft(db.jobs, abandoned, waiting, now, worker, seconds);
  }

  lemma HeadWaits(db: Db, now: int)
    ensures var waiting := Select(db.jobs, Claimable(now));
            waiting != [] ==> waiting[0] < |db.jobs| && MayBeClaimed(db.jobs[waiting[0]], now)
  {
    ClaimListsExact(db, now);
    if Select(db.jobs, Claimable(now)) != [] {
      assert Select(db.jobs, Claimable(now))[0] in Select(db.jobs, Claimable(now));
    }
  }

  lemma ClaimNextTable(db: Db, now: int, worker: string, seconds: int)
    requires seconds > 0
    ensures var waiting := Select(db.jobs, Claimable(now));
            var recovered := RecoveredRows(db.jobs, Select(db.jobs, Abandoned(now)), now);
            Do(db, now, ClaimNext(worker, seconds)).jobs
            == if waiting == [] then recovered
               else recovered[waiting[0] := Taken(recovered[waiting[0]], now, worker, seconds)]
  {
    ClaimNextRows(db, now, worker, seconds);
  }

  lemma RowsLeft(jobs: seq<Row>, abandoned: seq<nat>, waiting: seq<nat>, now: int, worker: string, seconds: int)
    requires forall k: nat :: k in abandoned <==> k < |jobs| && MayBeFinalised(jobs[k], now)
    requires waiting != [] ==> waiting[0] < |jobs| && MayBeClaimed(jobs[waiting[0]], now)
    ensures var recovered := RecoveredRows(jobs, abandoned, now);
            ClaimedNext(jobs, if waiting == [] then recovered
                              else recovered[waiting[0] := Taken(recovered[waiting[0]], now, worker, seconds)],
                        waiting, now, worker, seconds)
  {
  }

  lemma ClaimNextLogs(db: Db, now: int, worker: string, seconds: int)
    requires seconds > 0
    ensures var after := Do(db, now, ClaimNext(worker, seconds));
            var abandoned, waiting := Select(db.jobs, Abandoned(now)), Select(db.jobs, Claimable(now));
            after == Wrote(db, after.jobs, FinalisedEvents(abandoned, now),
                           FinalisedAudit(abandoned, now, worker)
                           + if waiting == [] then []
                             else [ClaimRecord(waiting[0], db.jobs[waiting[0]], now, worker, seconds)])
  {
    var abandoned, waiting := Select(db.jobs, Abandoned(now)), Select(db.jobs, Claimable(now));
    AbandonedSound(db, now, worker);
    RecoveriesLog(db, now, abandoned, worker);
    ClaimNextEdits(db, now, worker, seconds, abandoned, waiting);
    if waiting != [] {
      HeadIsUntouched(db, now);
      ClaimLogs(db, now, abandoned, waiting[0], worker, seconds);
    }
  }

  lemma ClaimNextEdits(db: Db, now: int, worker: string, seconds: int, abandoned: seq<nat>, waiting: seq<nat>)
    requires seconds > 0
    requires abandoned == Select(db.jobs, Abandoned(now)) && waiting == Select(db.jobs, Claimable(now))
    ensures var recoveries := Recoveries(abandoned, worker);
            var edits := if waiting == [] then recoveries else recoveries + [Claim(waiting[0], worker, seconds)];
            AllInRange(db, edits) && Do(db, now, ClaimNext(worker, seconds)) == ApplyAll(db, now, edits)
  {
    assert Decide(db, now, ClaimNext(worker, seconds)).Commit?;
  }

  /** The claim after the recoveries. */
  lemma ClaimLogs(db: Db, now: int, abandoned: seq<nat>, head: nat, worker: string, seconds: int)
    requires Recovers(db, now, abandoned, worker) && head < |db.jobs|
    requires RecoveredRows(db.jobs, abandoned, now)[head] == db.jobs[head]
    requires var between := ApplyAll(db, now, Recoveries(abandoned, worker));
             between == Wrote(db, between.jobs, FinalisedEvents(abandoned, now),
                              FinalisedAudit(abandoned, now, worker))
    ensures AllInRange(db, Recoveries(abandoned, worker) + [Claim(head, worker, seconds)])
    ensures var after := ApplyAll(db, now, Recoveries(abandoned, worker) + [Claim(head, worker, seconds)]);
            after == Wrote(db, after.jobs, FinalisedEvents(abandoned, now),
                           FinalisedAudit(abandoned, now, worker)
                           + [ClaimRecord(head, db.jobs[head], now, worker, seconds)])
  {
    var between := ApplyAll(db, now, Recoveries(abandoned, worker));
    LastEdit(db, now, Recoveries(abandoned, worker), Claim(head, worker, seconds));
    ClaimEdit(between, now, head, worker, seconds);
    WroteTwice(db, between.jobs, FinalisedEvents(abandoned, now), FinalisedAudit(abandoned, now, worker),
               between.jobs[head := Taken(between.jobs[head], now, worker, seconds)],
               [ClaimRecord(head, between.jobs[head], now, worker, seconds)]);
  }

  lemma ClaimEdit(db: Db, now: int, id: nat, worker: string, seconds: int)
    requires id < |db.jobs|
    ensures Apply(db, now, Claim(id, worker, seconds))
         == Wrote(db, db.jobs[id := Taken(db.jobs[id], now, worker, seconds)], [],
                  [ClaimRecord(id, db.jobs[id], now, worker, seconds)])
  {
  }

  lemma WroteTwice(db: Db, jobs: seq<Row>, events: seq<EventRow>, audit: seq<AuditRow>, later: seq<Row>,
                   more: seq<AuditRow>)
    ensures Wrote(Wrote(db, jobs, events, audit), later, [], more) == Wrote(db, later, events, audit + more)
  {
    assert db.events + events + [] == db.events + events;
  }

  lemma LastEdit(db: Db, now: int, edits: seq<Edit>, e: Edit)
    requires AllInRange(db, edits) && InRange(db, e)
    ensures AllInRange(db, edits + [e])
    ensures ApplyAll(db, now, edits + [e]) == Apply(ApplyAll(db, now, edits), now, e)
  {
    assert (edits + [e])[..|edits|] == edits;
  }

  lemma HeadIsUntouched(db: Db, now: int)
    requires Select(db.jobs, Claimable(now)) != []
    ensures var abandoned, head := Select(db.jobs, Abandoned(now)), Select(db.jobs, Claimable(now))[0];
            head < |db.jobs| && RecoveredRows(db.jobs, abandoned, now)[head] == db.jobs[head]
  {
    ClaimListsExact(db, now);
    assert Select(db.jobs, Claimable(now))[0] in Select(db.jobs, Claimable(now));
  }

  // ---- the other writes ----------------------------------------------------------------------------------

  predicate MayFollow(from: JobState, to: JobState) {
    || (from == QUEUED && (to == RUNNING || to == CANCELLED))
    || (from == RUNNING && (to == CANCEL_REQUESTED || to == SUCCEEDED || to == PARTIAL_FAILURE || to == FAILED))
    || (from == CANCEL_REQUESTED && (to == CANCELLED || to == FAILED))
  }

  predicate Over(state: JobState) {
    state == SUCCEEDED || state == PARTIAL_FAILURE || state == FAILED || state == CANCELLED
  }

  /** Who the audit record of a transition names. */
  function Writer(row: Row, holder: Option<string>): string {
    if holder.None? || holder.value == "" then row.principal else holder.value
  }

  /** The job in the target state with its outcome; a finished job has no lease. */
  function Moved(row: Row, now: int, op: Op): Row
    requires op.Transition?
  {
    var moved := row.(state := op.target, updatedAt := now, result := op.result, error := op.error);
    if Over(op.target) then moved.(leaseOwner := None, leaseExpiry := None) else moved
  }

  /** A transition is accepted exactly along the state graph, from the expected state and, out of a leased state, under
      the live lease. It writes the outcome, drops the lease of a finished job and logs the change. */
  lemma TransitionExact(db: Db, now: int, op: Op)
    requires op.Transition?
    ensures var d, after := Decide(db, now, op), Do(db, now, op);
            && (d.Commit? <==>
                  && MayFollow(op.expected, op.target)
                  && (op.event.Some? ==> 1 <= |op.event.value.message| <= 4000)
                  && op.job < |db.jobs| && db.jobs[op.job].state == op.expected
                  && (op.expected == QUEUED
                      || (op.holder.Some? && op.held.Some?
                          && Holds(db.jobs[op.job], op.holder.value, op.held.value, now))))
            && (d.Refuse? ==> after == db)
            && (d.Commit? ==>
                  (var writer := Writer(db.jobs[op.job], op.holder);
                   after == Wrote(db, db.jobs[op.job := Moved(db.jobs[op.job], now, op)],
                                  if op.event.Some? then [EventRow(op.job, now, op.event.value)] else [],
                                  [AuditRow(now, writer, JobTransition(op.job, op.expected, op.target))])))
  {
    var d := Decide(db, now, op);
    if d.Commit? { OneEdit(db, now, op, d.edits[0]); }
  }

  /** A cancellation is accepted exactly for a queued job and for a running one of a kind that may be cancelled after
      its start; the former ends at once, the latter keeps its lease. */
  lemma CancelExact(db: Db, now: int, id: nat, principal: string)
    ensures var op := RequestCancel(id, principal);
            var d, after := Decide(db, now, op), Do(db, now, op);
            && (d.Commit? <==>
                  && id < |db.jobs|
                  && (db.jobs[id].state == QUEUED
                      || (db.jobs[id].state == RUNNING
                          && db.jobs[id].request.Kind() !in {HOST_RECONCILE, HOST_REMOVE, IDENTITY, MAINTENANCE,
                                                             BACKUP_DRILL, RESTORE_DRILL, UPDATE, SERVICE_ACTION})))
            && (d.Refuse? ==> after == db)
            && (d.Commit? ==>
                  (var row := db.jobs[id].(cancelRequested := true, updatedAt := now);
                   after == if db.jobs[id].state == QUEUED then
                              Wrote(db, db.jobs[id := row.(state := CANCELLED, leaseOwner := None,
                                                           leaseExpiry := None)],
                                    [EventRow(id, now, EventText(WARNING, "Job cancelled before execution"))],
                                    [AuditRow(now, principal, JobCancelRequest(id, QUEUED, CANCELLED))])
                            else
                              Wrote(db, db.jobs[id := row.(state := CANCEL_REQUESTED)], [],
                                    [AuditRow(now, principal, JobCancelRequest(id, RUNNING, CANCEL_REQUESTED))])))
  {
    var op := RequestCancel(id, principal);
    if Decide(db, now, op).Commit? { OneEdit(db, now, op, Cancel(id, principal)); }
  }

  /** An event is accepted for an existing job, fenced by the live lease when one is named, and only the log grows. */
  lemma AppendEventExact(db: Db, now: int, id: nat, text: EventText, holder: Option<string>, held: Option<nat>)
    ensures var op := AppendEvent(id, text, holder, held);
            var d, after := Decide(db, now, op), Do(db, now, op);
            && (d.Commit? <==>
                  && 1 <= |text.message| <= 4000 && id < |db.jobs|
                  && ((holder.None? && held.None?)
                      || (holder.Some? && held.Some? && Holds(db.jobs[id], holder.value, held.value, now))))
            && after == if d.Commit? then Wrote(db, db.jobs, [EventRow(id, now, text)], []) else db
  {
    var op := AppendEvent(id, text, holder, held);
    if Decide(db, now, op).Commit? { OneEdit(db, now, op, Emit(id, text)); }
  }

  /** A plan is always taken; an approval for at most fifteen minutes, of one's own plan. */
  lemma PlanAndApprovalExact(db: Db, now: int, plan: nat, actor: string, spec: PlanSpec, ttl: int, token: string)
    ensures Do(db, now, CreatePlan(actor, spec))
         == Wrote(db, db.jobs, [], [AuditRow(now, actor, PlanCreate(|db.plans|))])
            .(plans := db.plans + [PlanRow(actor, spec)])
    ensures var op := IssueApproval(plan, actor, ttl, token);
            var d, after := Decide(db, now, op), Do(db, now, op);
            && (d.Commit? <==> 0 < ttl <= 900_000_000 && plan < |db.plans| && db.plans[plan].actor == actor)
            && after == if d.Refuse? then db
                        else Wrote(db, db.jobs, [], [AuditRow(now, actor, ApprovalIssue(plan, now + ttl))])
                             .(approvals := db.approvals
                                            + [ApprovalRow(plan, actor, Sha256(token), now, now + ttl, None)])
  {
    OneEdit(db, now, CreatePlan(actor, spec), AddPlan(actor, spec));
    var op := IssueApproval(plan, actor, ttl, token);
    if Decide(db, now, op).Commit? { OneEdit(db, now, op, AddApproval(plan, actor, token, ttl)); }
  }

  lemma AppendAuditExact(db: Db, now: int, principal: string, action: string)
    ensures var op := AppendAudit(principal, action);
            Decide(db, now, op) == Commit([Audit(principal, action)], [])
            && Do(db, now, op) == Wrote(db, db.jobs, [], [AuditRow(now, principal, Other(action))])
  {
    OneEdit(db, now, AppendAudit(principal, action), Audit(principal, action));
  }
}
