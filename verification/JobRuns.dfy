/** What every committed edit respects, what every row keeps, and how rows may change over a whole run. */
module JobRuns {
  import opened Contracts
  import opened JobTables
  import opened JobOrder

  predicate Unexpired(row: Row, now: int) {
    Leased(row.state) && row.leaseExpiry.Some? && row.leaseExpiry.value > now
  }

  /** The guard under which the store commits an edit. */
  predicate Sound(db: Db, now: int, e: Edit)
    requires InRange(db, e)
  {
    match e
    case Insert(principal, request, spent) =>
      && !request.operation.SealedInvite? && FindKey(db.jobs, principal, request.key).None?
      && (if request.operation.Destroy? then spent.Some? && spent == ApprovalFor(db, request.operation, principal, now)
          else spent.None?)
    case Claim(id, _, seconds) => Picks(Claimable(now), db.jobs[id]) && seconds > 0
    case Recover(id, _) => Picks(Abandoned(now), db.jobs[id])
    case Renew(id, seconds) => Unexpired(db.jobs[id], now) && seconds > 0
    case Finish(id, target, _, _, _, _) =>
      target in Transitions(db.jobs[id].state) && (Leased(db.jobs[id].state) ==> Unexpired(db.jobs[id], now))
    case Cancel(id, _) => CanCancel(db.jobs[id].request.Kind(), db.jobs[id].state)
    case _ => true
  }

  ghost predicate SoundAll(db: Db, now: int, edits: seq<Edit>) {
    |edits| == 0 ||
    (var n := |edits| - 1;
     && AllInRange(db, edits)
     && SoundAll(db, now, edits[..n])
     && Sound(ApplyAll(db, now, edits[..n]), now, edits[n]))
  }

  // ---- the guards hold for everything the methods commit -------------------------------------------------

  lemma {:induction false} FindKeyExact(jobs: seq<Row>, principal: string, key: string)
    ensures FindKey(jobs, principal, key).None? <==>
            forall i :: 0 <= i < |jobs| ==> !(jobs[i].principal == principal && jobs[i].key == key)
    ensures var f := FindKey(jobs, principal, key);
            f.Some? ==> jobs[f.value].principal == principal && jobs[f.value].key == key
                        && forall i :: 0 <= i < f.value ==> !(jobs[i].principal == principal && jobs[i].key == key)
  {
    if |jobs| > 0 {
      var n := |jobs| - 1;
      FindKeyExact(jobs[..n], principal, key);
      assert forall i {:trigger jobs[i]} :: 0 <= i < n ==> jobs[..n][i] == jobs[i];
    }
  }

  lemma SoundSnoc(db: Db, now: int, edits: seq<Edit>, e: Edit)
    requires AllInRange(db, edits) && SoundAll(db, now, edits) && InRange(db, e)
    requires Sound(ApplyAll(db, now, edits), now, e)
    ensures AllInRange(db, edits + [e]) && SoundAll(db, now, edits + [e])
    ensures ApplyAll(db, now, edits + [e]) == Apply(ApplyAll(db, now, edits), now, e)
  {
    assert (edits + [e])[..|edits|] == edits;
  }

  function RecoveredRow(row: Row, now: int): Row {
    row.(state := CANCELLED, updatedAt := now, leaseOwner := None, leaseExpiry := None)
  }

  function RecoveredRows(jobs: seq<Row>, ids: seq<nat>, now: int): seq<Row> {
    seq(|jobs|, i requires 0 <= i < |jobs| => if i in ids then RecoveredRow(jobs[i], now) else jobs[i])
  }

  lemma RecoverOneMore(db: Db, mid: Db, ids: seq<nat>, id: nat, worker: string, now: int)
    requires mid.jobs == RecoveredRows(db.jobs, ids, now)
    requires id < |db.jobs| && id !in ids && Picks(Abandoned(now), db.jobs[id])
    ensures var e := Edit.Recover(id, worker);
            && InRange(mid, e) && Sound(mid, now, e)
            && Apply(mid, now, e).jobs == RecoveredRows(db.jobs, ids + [id], now)
  {
    assert mid.jobs[id] == db.jobs[id];
    assert RecoveredRows(db.jobs, ids + [id], now) == mid.jobs[id := RecoveredRow(db.jobs[id], now)];
  }

  ghost predicate AllAbandoned(db: Db, now: int, ids: seq<nat>) {
    && InBounds(db.jobs, ids)
    && (forall k :: 0 <= k < |ids| ==> Picks(Abandoned(now), db.jobs[ids[k]]))
    && (forall i, j :: 0 <= i < j < |ids| ==> ids[i] != ids[j])
  }

  /** Recovering these rows one by one is guarded and cancels exactly them. */
  ghost predicate Recovers(db: Db, now: int, ids: seq<nat>, worker: string) {
    && AllInRange(db, Recoveries(ids, worker)) && SoundAll(db, now, Recoveries(ids, worker))
    && ApplyAll(db, now, Recoveries(ids, worker)).jobs == RecoveredRows(db.jobs, ids, now)
  }

  /** The recovery loop finalises exactly the listed rows; each is still abandoned when its turn comes. */
  lemma {:induction false} RecoveriesSound(db: Db, now: int, ids: seq<nat>, worker: string)
    requires AllAbandoned(db, now, ids)
    ensures Recovers(db, now, ids, worker)
  {
    if |ids| == 0 {
      RecoversNone(db, now, ids, worker);
    } else {
      var n := |ids| - 1;
      AllButLast(db, now, ids);
      RecoveriesSound(db, now, ids[..n], worker);
      RecoverNext(db, now, ids[..n], ids[n], worker);
    }
  }

  lemma AllButLast(db: Db, now: int, ids: seq<nat>)
    requires AllAbandoned(db, now, ids) && |ids| > 0
    ensures var n := |ids| - 1;
            && AllAbandoned(db, now, ids[..n]) && ids[n] !in ids[..n] && ids[..n] + [ids[n]] == ids
            && ids[n] < |db.jobs| && Picks(Abandoned(now), db.jobs[ids[n]])
  {
  }

  lemma RecoversNone(db: Db, now: int, ids: seq<nat>, worker: string)
    requires |ids| == 0
    ensures Recovers(db, now, ids, worker)
  {
    assert RecoveredRows(db.jobs, ids, now) == db.jobs;
  }

  lemma RecoverNext(db: Db, now: int, ids: seq<nat>, id: nat, worker: string)
    requires id < |db.jobs| && id !in ids && Picks(Abandoned(now), db.jobs[id])
    requires Recovers(db, now, ids, worker)
    ensures Recovers(db, now, ids + [id], worker)
  {
    var before := ApplyAll(db, now, Recoveries(ids, worker));
    RecoverOneMore(db, before, ids, id, worker, now);
    SoundSnoc(db, now, Recoveries(ids, worker), Edit.Recover(id, worker));
    assert Recoveries(ids + [id], worker) == Recoveries(ids, worker) + [Edit.Recover(id, worker)];
  }

  /** The rows the claim query found are still claimable after the recoveries, which touch other rows. */
  lemma StillClaimable(db: Db, now: int, worker: string, id: nat)
    requires id in Select(db.jobs, Claimable(now))
    ensures var recoveries := Recoveries(Select(db.jobs, Abandoned(now)), worker);
            && AllInRange(db, recoveries) && SoundAll(db, now, recoveries)
            && id < |ApplyAll(db, now, recoveries).jobs|
            && Picks(Claimable(now), ApplyAll(db, now, recoveries).jobs[id])
  {
    var abandoned := Select(db.jobs, Abandoned(now));
    AbandonedSound(db, now, worker);
    SelectExact(db.jobs, Abandoned(now));
    SelectExact(db.jobs, Claimable(now));
    assert id !in abandoned;
  }

  lemma AbandonedSound(db: Db, now: int, worker: string)
    ensures Recovers(db, now, Select(db.jobs, Abandoned(now)), worker)
  {
    var abandoned := Select(db.jobs, Abandoned(now));
    SelectExact(db.jobs, Abandoned(now));
    assert forall k :: 0 <= k < |abandoned| ==> abandoned[k] in abandoned;
    RecoveriesSound(db, now, abandoned, worker);
  }

  lemma ClaimNextSound(db: Db, now: int, worker: string, leaseSeconds: int)
    requires leaseSeconds > 0
    ensures SoundAll(db, now, DecideClaimNext(db, now, worker, leaseSeconds).edits)
  {
    var waiting := Select(db.jobs, Claimable(now));
    AbandonedSound(db, now, worker);
    if |waiting| > 0 {
      StillClaimable(db, now, worker, waiting[0]);
      SoundSnoc(db, now, Recoveries(Select(db.jobs, Abandoned(now)), worker), Claim(waiting[0], worker, leaseSeconds));
    }
  }

  /** Keys of a batch's new requests: none is in the table, no two agree. */
  lemma {:induction false} ScanFresh(db: Db, requests: seq<JobRequest>, principal: string)
    requires ScanBatch(db, requests, principal).Scanned?
    requires forall i :: 0 <= i < |requests| ==> !requests[i].operation.Destroy?
    requires forall i, j :: 0 <= i < j < |requests| ==> requests[i].key != requests[j].key
    ensures var pending := ScanBatch(db, requests, principal).pending;
            && (forall k :: 0 <= k < |pending| ==> pending[k] in requests && Insertable(db, pending[k], principal))
            && (forall i, j :: 0 <= i < j < |pending| ==> pending[i].key != pending[j].key)
  {
    if |requests| > 0 {
      var n := |requests| - 1;
      ScanFresh(db, requests[..n], principal);
      var before := ScanBatch(db, requests[..n], principal).pending;
      forall k | 0 <= k < |before| ensures before[k] in requests && before[k].key != requests[n].key {
        assert before[k] in requests[..n];
      }
    }
  }

  lemma {:induction false} InsertsEffect(db: Db, now: int, requests: seq<JobRequest>, principal: string)
    ensures ApplyAll(db, now, Inserts(requests, principal)).jobs
         == db.jobs + seq(|requests|, i requires 0 <= i < |requests| => NewRow(principal, requests[i], now))
  {
    if |requests| > 0 {
      var n := |requests| - 1;
      InsertsEffect(db, now, requests[..n], principal);
      assert Inserts(requests, principal)[..n] == Inserts(requests[..n], principal);
    }
  }

  predicate Insertable(db: Db, request: JobRequest, principal: string) {
    && !request.operation.SealedInvite? && !request.operation.Destroy?
    && FindKey(db.jobs, principal, request.key).None?
  }

  lemma StillInsertable(db: Db, after: Db, requests: seq<JobRequest>, request: JobRequest, principal: string, now: int)
    requires Insertable(db, request, principal)
    requires after.jobs
          == db.jobs + seq(|requests|, i requires 0 <= i < |requests| => NewRow(principal, requests[i], now))
    requires forall k :: 0 <= k < |requests| ==> requests[k].key != request.key
    ensures Insertable(after, request, principal)
  {
    FindKeyExact(db.jobs, principal, request.key);
    FindKeyExact(after.jobs, principal, request.key);
  }

  lemma {:induction false} InsertsSound(db: Db, now: int, requests: seq<JobRequest>, principal: string)
    requires forall k :: 0 <= k < |requests| ==> Insertable(db, requests[k], principal)
    requires forall i, j :: 0 <= i < j < |requests| ==> requests[i].key != requests[j].key
    ensures SoundAll(db, now, Inserts(requests, principal))
  {
    if |requests| > 0 {
      var n := |requests| - 1;
      InsertsSound(db, now, requests[..n], principal);
      InsertNext(db, now, requests[..n], requests[n], principal);
      assert requests == requests[..n] + [requests[n]];
    }
  }

  lemma InsertNext(db: Db, now: int, requests: seq<JobRequest>, request: JobRequest, principal: string)
    requires SoundAll(db, now, Inserts(requests, principal)) && Insertable(db, request, principal)
    requires forall k :: 0 <= k < |requests| ==> requests[k].key != request.key
    ensures SoundAll(db, now, Inserts(requests + [request], principal))
  {
    StillSound(db, now, requests, request, principal);
    SoundSnoc(db, now, Inserts(requests, principal), Insert(principal, request, None));
    InsertsAppend(requests, request, principal);
  }

  lemma StillSound(db: Db, now: int, requests: seq<JobRequest>, request: JobRequest, principal: string)
    requires Insertable(db, request, principal)
    requires forall k :: 0 <= k < |requests| ==> requests[k].key != request.key
    ensures Sound(ApplyAll(db, now, Inserts(requests, principal)), now, Insert(principal, request, None))
  {
    InsertsEffect(db, now, requests, principal);
    StillInsertable(db, ApplyAll(db, now, Inserts(requests, principal)), requests, request, principal, now);
  }

  lemma InsertsAppend(requests: seq<JobRequest>, request: JobRequest, principal: string)
    ensures Inserts(requests + [request], principal)
         == Inserts(requests, principal) + [Insert(principal, request, None)]
  {
  }

  lemma SoundOne(db: Db, now: int, e: Edit)
    requires InRange(db, e) && Sound(db, now, e)
    ensures SoundAll(db, now, [e]) && AllInRange(db, [e]) && ApplyAll(db, now, [e]) == Apply(db, now, e)
  {
    SoundSnoc(db, now, [], e);
    assert [] + [e] == [e];
  }

  lemma SoundSubmit(db: Db, now: int, request: JobRequest, principal: string,
                    limit: Option<int>, kinds: Option<set<JobKind>>)
    requires DecideSubmit(db, now, request, principal, limit, kinds).Commit?
    ensures SoundAll(db, now, DecideSubmit(db, now, request, principal, limit, kinds).edits)
  {
    if FindKey(db.jobs, principal, request.key).None? {
      SoundOne(db, now, DecideSubmit(db, now, request, principal, limit, kinds).edits[0]);
    }
  }

  /** Everything any store method commits is guarded. */
  lemma DecisionSound(db: Db, now: int, op: Op)
    requires Decide(db, now, op).Commit?
    ensures SoundAll(db, now, Decide(db, now, op).edits)
  {
    match op
    case ClaimNext(worker, seconds) => ClaimNextSound(db, now, worker, seconds);
    case SubmitBatch(requests, principal, cap) =>
      ScanFresh(db, requests, principal);
      InsertsSound(db, now, ScanBatch(db, requests, principal).pending, principal);
    case Submit(request, principal, limit, kinds) => SoundSubmit(db, now, request, principal, limit, kinds);
    case _ => SoundOne(db, now, Decide(db, now, op).edits[0]);
  }

  // ---- runs --------------------------------------------------------------------------------------------

  /** The four transitions the worker makes: a success stores a result, a failure an error, a cancellation neither. */
  predicate WorkerShape(from: JobState, to: JobState, result: Option<JobResult>, error: Option<ErrorBody>) {
    || (from == RUNNING && result.Some? && error.None?
        && to == if result.value.partial then PARTIAL_FAILURE else SUCCEEDED)
    || (from == CANCEL_REQUESTED && to == CANCELLED && result.None? && error.None?)
    || (Leased(from) && to == FAILED && result.None? && error.Some?)
  }

  /** Only the worker transitions jobs. */
  predicate Shaped(op: Op) {
    op.Transition? ==> WorkerShape(op.expected, op.target, op.result, op.error)
  }

  /** An approval token is newly drawn. */
  predicate FreshToken(approvals: seq<ApprovalRow>, token: string) {
    forall a :: 0 <= a < |approvals| ==> approvals[a].tokenHash != Sha256(token)
  }

  predicate Fresh(db: Db, op: Op) {
    op.IssueApproval? ==> FreshToken(db.approvals, op.token)
  }

  /** No transition is made in this worker's name. */
  predicate Foreign(op: Op, worker: string) {
    op.Transition? ==> op.holder != Some(worker)
  }

  /** What is known of the calls in a run: worker-shaped transitions, fresh tokens, no clock reading before `since`,
      no transition by the spared worker. */
  datatype Scope = Scope(shaped: bool, newTokens: bool, since: Option<int>, spared: Option<string>)

  const ANY: Scope := Scope(false, false, None, None)
  const SHAPED: Scope := Scope(true, false, None, None)
  const GENUINE: Scope := Scope(true, true, None, None)

  predicate InScope(scope: Scope, db: Db, step: Step) {
    && (scope.shaped ==> Shaped(step.op))
    && (scope.newTokens ==> Fresh(db, step.op))
    && (scope.since.Some? ==> step.now >= scope.since.value)
    && (scope.spared.Some? ==> Foreign(step.op, scope.spared.value))
  }

  ghost predicate RunInScope(scope: Scope, db: Db, steps: seq<Step>) {
    forall k :: 0 <= k < |steps| ==> InScope(scope, Run(db, steps[..k]), steps[k])
  }

  /** Calls the program makes. */
  ghost predicate GenuineRun(db: Db, steps: seq<Step>) {
    RunInScope(GENUINE, db, steps)
  }

  /** What the scope adds to the guard of an edit. */
  predicate Proper(scope: Scope, db: Db, now: int, e: Edit)
    requires InRange(db, e)
  {
    && (scope.shaped && e.Finish? ==> WorkerShape(db.jobs[e.job].state, e.target, e.result, e.error))
    && (scope.newTokens && e.AddApproval? ==> FreshToken(db.approvals, e.token))
    && (scope.since.Some? ==> now >= scope.since.value)
    && (scope.spared.Some? && e.Finish? && Leased(db.jobs[e.job].state) ==> db.jobs[e.job].leaseOwner != scope.spared)
  }

  ghost predicate KeptByEdits(P: Db -> bool, scope: Scope) {
    forall d: Db, t: int, e: Edit {:trigger P(Apply(d, t, e))} ::
      P(d) && InRange(d, e) && Sound(d, t, e) && Proper(scope, d, t, e) ==> P(Apply(d, t, e))
  }

  predicate Plainly(edits: seq<Edit>) {
    forall k :: 0 <= k < |edits| ==> !edits[k].Finish? && !edits[k].AddApproval?
  }

  lemma {:induction false} EditsKeep(P: Db -> bool, scope: Scope, db: Db, now: int, edits: seq<Edit>)
    requires KeptByEdits(P, scope) && P(db) && SoundAll(db, now, edits) && AllInRange(db, edits)
    requires Plainly(edits) && (scope.since.Some? ==> now >= scope.since.value)
    ensures P(ApplyAll(db, now, edits))
  {
    if |edits| > 0 {
      var n := |edits| - 1;
      EditsKeep(P, scope, db, now, edits[..n]);
      assert P(Apply(ApplyAll(db, now, edits[..n]), now, edits[n]));
    }
  }

  lemma DecisionProper(scope: Scope, db: Db, now: int, op: Op)
    requires Decide(db, now, op).Commit? && InScope(scope, db, Step(now, op))
    ensures var edits := Decide(db, now, op).edits;
            Plainly(edits) || (|edits| == 1 && Proper(scope, db, now, edits[0]))
  {
  }

  lemma CommitKeeps(P: Db -> bool, scope: Scope, db: Db, now: int, edits: seq<Edit>)
    requires KeptByEdits(P, scope) && P(db) && SoundAll(db, now, edits) && AllInRange(db, edits)
    requires scope.since.Some? ==> now >= scope.since.value
    requires Plainly(edits) || (|edits| == 1 && Proper(scope, db, now, edits[0]))
    ensures P(ApplyAll(db, now, edits))
  {
    if Plainly(edits) {
      EditsKeep(P, scope, db, now, edits);
    } else {
      assert edits == [edits[0]];
      assert edits[..0] == [];
      assert P(Apply(db, now, edits[0]));
    }
  }

  /** A property kept by every guarded edit is kept by every store method. */
  lemma StepKeeps(P: Db -> bool, scope: Scope, db: Db, now: int, op: Op)
    requires KeptByEdits(P, scope) && P(db) && InScope(scope, db, Step(now, op))
    ensures P(Do(db, now, op))
  {
    var d := Decide(db, now, op);
    if d.Commit? {
      DecisionSound(db, now, op);
      DecisionProper(scope, db, now, op);
      CommitKeeps(P, scope, db, now, d.edits);
    }
  }

  lemma {:induction false} RunKeeps(P: Db -> bool, scope: Scope, db: Db, steps: seq<Step>)
    requires KeptByEdits(P, scope) && P(db) && RunInScope(scope, db, steps)
    ensures P(Run(db, steps))
  {
    if |steps| > 0 {
      var n := |steps| - 1;
      assert forall k :: 0 <= k < n ==> steps[..n][..k] == steps[..k];
      RunKeeps(P, scope, db, steps[..n]);
      StepKeeps(P, scope, Run(db, steps[..n]), steps[n].now, steps[n].op);
    }
  }
}
