/** What the update operation may do to its records, told from the steps a call takes and from the records. */
module ReleaseLaws {
  import opened Contracts
  import opened ReleaseMachine

  predicate ConvergedAt(effects: seq<Effect>, k: nat) {
    k < |effects| && effects[k].Deploy? && effects[k].result.Converged?
  }

  ghost predicate SomeConverged(effects: seq<Effect>) {
    exists k: nat :: ConvergedAt(effects, k)
  }

  // ---- every call ------------------------------------------------------------------------------------------

  /** Every deployment runs with the release that is active when it starts. */
  lemma DeploysWhatIsActive(f: Files, action: Action, w: World, k: nat)
    requires k < |Handle(f, action, w).effects| && Handle(f, action, w).effects[k].Deploy?
    ensures Handle(f, action, w).effects[k].ran == Active(AfterAll(f, Handle(f, action, w).effects[..k]))
  {
    HandlePrefix(f, action, w, k);
    if action.Apply? { ApplyDeploys(f, w, k); } else { ShortDeploys(f, action, w, k); }
  }

  lemma ShortDeploys(f: Files, action: Action, w: World, k: nat)
    requires !action.Apply? && k < |Course(f, action, w).effects| && Course(f, action, w).effects[k].Deploy?
    ensures Course(f, action, w).effects[k].ran == Active(AfterAll(f, Course(f, action, w).effects[..k]))
  {
    CoursePrefix(f, action, w, k);
  }

  lemma ApplyDeploys(f: Files, w: World, k: nat)
    requires k < |Course(f, Apply, w).effects| && Course(f, Apply, w).effects[k].Deploy?
    ensures Course(f, Apply, w).effects[k].ran == Active(AfterAll(f, Course(f, Apply, w).effects[..k]))
  {
    CoursePrefix(f, Apply, w, k);
    UndoneSteps(f, w);
    assert k == 3 || k == 7;
  }

  /** The steps of an apply, whatever its deployments do. */
  lemma UndoneSteps(f: Files, w: World)
    requires w.prepared.Resolved? && w.rolesKnown
    ensures var active, release, steps := Active(f), Updated(Active(f), w.prepared), CourseOfApply(f, w).effects;
            && |steps| >= 4 && (|steps| == 4 <==> !w.first.NotConverged?)
            && steps[0] == WriteRollback(RollbackRecord(Sha256(release), active))
            && steps[1] == WriteActive(Some(release)) && steps[2] == Log
            && steps[3] == Deploy(Some(release), w.first)
            && (|steps| > 4 ==>
                  && |steps| == (if w.second.Converged? then 10 else if w.second.NotConverged? then 9 else 8)
                  && steps[4] == WriteActive(active) && steps[5] == Log
                  && steps[6] == WriteRecovery(RecoveryRecord(active, release))
                  && steps[7] == Deploy(active, w.second)
                  && (w.second.NotConverged? ==> steps[8] == Log)
                  && (w.second.Converged? ==> steps[8] == ClearRecovery && steps[9] == ClearRollback))
  {
    if w.first.NotConverged? { UndoSteps(f, w); }
  }

  /** A record is cleared only after a deployment of the same call has converged. */
  lemma ClearsOnlyConverged(f: Files, action: Action, w: World, i: nat)
    requires i < |Handle(f, action, w).effects|
    requires Handle(f, action, w).effects[i].ClearRecovery? || Handle(f, action, w).effects[i].ClearRollback?
    ensures SomeConverged(Handle(f, action, w).effects[..i])
  {
    HandlePrefix(f, action, w, i);
    var effects := Handle(f, action, w).effects;
    if action.Apply? {
      UndoneSteps(f, w);
      assert effects[i] == Course(f, action, w).effects[i];
      assert ConvergedAt(effects[..i], 7);
    } else {
      assert ConvergedAt(effects[..i], if action.Rollback? then 2 else 1);
    }
  }

  // ---- a pending recovery ------------------------------------------------------------------------------------

  /** While a recovery is pending, the first steps of a call leave all three records as they are, as long as no
      deployment among them converged. */
  lemma PendingKept(f: Files, action: Action, w: World, k: nat)
    requires f.recovery.Present? && k <= |Handle(f, action, w).effects|
    requires !SomeConverged(Handle(f, action, w).effects[..k])
    ensures AfterAll(f, Handle(f, action, w).effects[..k]) == f
  {
    if action.Refresh? {
      RefreshWritesNothing(f, w, k);
    } else if action.Recover? {
      RecoverKeeps(f, w, k);
    } else {
      PendingBlocks(f, action, w);
    }
  }

  lemma RecoverKeeps(f: Files, w: World, k: nat)
    requires f.recovery.Present? && k <= |Handle(f, Recover, w).effects|
    requires !SomeConverged(Handle(f, Recover, w).effects[..k])
    ensures AfterAll(f, Handle(f, Recover, w).effects[..k]) == f
  {
    HandlePrefix(f, Recover, w, k);
    CoursePrefix(f, Recover, w, k);
    if k > 2 { assert ConvergedAt(Handle(f, Recover, w).effects[..k], 1); }
  }

  /** The steps a call takes before it returns, raises or is killed. */
  function Performed(f: Files, call: Call): seq<Effect> {
    var effects := Handle(f, call.action, call.world).effects;
    if call.cut <= |effects| then effects[..call.cut] else effects
  }

  ghost predicate NeverConverged(f: Files, calls: seq<Call>) {
    forall k :: 0 <= k < |calls| ==> !SomeConverged(Performed(Reached(f, calls[..k]), calls[k]))
  }

  /** A pending recovery survives any calls, recovers included, each completed, raising or killed anywhere, until a
      deployment converges: till then no record changes. */
  lemma {:induction false} PendingUntilConverged(f: Files, calls: seq<Call>)
    requires f.recovery.Present? && NeverConverged(f, calls)
    ensures Reached(f, calls) == f
  {
    if |calls| > 0 {
      var n := |calls| - 1;
      EarlierCalls(f, calls, n);
      PendingUntilConverged(f, calls[..n]);
      PendingAfterCall(f, calls[n]);
      LastCall(f, calls, n);
    }
  }

  lemma {:induction false} EarlierCalls(f: Files, calls: seq<Call>, n: nat)
    requires |calls| == n + 1 && NeverConverged(f, calls)
    ensures NeverConverged(f, calls[..n]) && !SomeConverged(Performed(Reached(f, calls[..n]), calls[n]))
  {
    assert forall k :: 0 <= k < n ==> calls[..n][..k] == calls[..k];
  }

  lemma {:induction false} LastCall(f: Files, calls: seq<Call>, n: nat)
    requires |calls| == n + 1
    ensures Reached(f, calls)
         == AfterAll(Reached(f, calls[..n]), Performed(Reached(f, calls[..n]), calls[n]))
  {
  }

  lemma PendingAfterCall(f: Files, call: Call)
    requires f.recovery.Present? && !SomeConverged(Performed(f, call))
    ensures AfterAll(f, Performed(f, call)) == f
  {
    var effects := Handle(f, call.action, call.world).effects;
    assert effects[..|effects|] == effects;
    PendingKept(f, call.action, call.world, if call.cut <= |effects| then call.cut else |effects|);
  }

  /** A recover that raises leaves the records as they were, exactly unless its deployment converged and the fault
      struck after the recovery record was cleared; it succeeds exactly if the pending record names the active release,
      the nodes are known, the deployment converges and nothing raises, and then both records are gone. */
  lemma RecoverExact(f: Files, w: World)
    ensures var r := Handle(f, Recover, w);
            var g := AfterAll(f, r.effects);
            var accepted := !f.active.Corrupt? && f.recovery.Present? && Active(f) == f.recovery.value.previous
                            && w.rolesKnown;
            && (r.outcome == Ok <==> accepted && w.first.Converged? && !Strikes(w, 4))
            && (r.outcome == Ok ==> g == f.(recovery := Missing, rollback := Missing))
            && (accepted && w.first.NotConverged? && !Strikes(w, 2) ==> r.outcome == Raised(DidNotConverge))
            && (r.outcome.Raised? ==>
                  g == if !accepted || !w.first.Converged? || !Strikes(w, 4) || Taken(w.raises.value) <= 2 then f
                       else if Taken(w.raises.value) == 3 then f.(recovery := Missing)
                       else f.(recovery := Missing, rollback := Missing))
  {
    CallEnd(f, Recover, w);
  }

  /** Some step among the first `n` raises. */
  predicate Strikes(w: World, n: nat) {
    w.raises.Some? && w.raises.value.step < n
  }

  // ---- rollback and apply --------------------------------------------------------------------------------------

  /** A rollback succeeds exactly if it is accepted, its deployment converges and nothing raises; the previous release
      is then active and the rollback record gone. One that raises leaves the rollback record as it was, exactly unless
      the deployment converged and the fault struck right after the record was cleared; the recovery record it never
      touches. */
  lemma RollbackExact(f: Files, revision: Revision, w: World)
    ensures var r := Handle(f, Rollback(revision), w);
            var g := AfterAll(f, r.effects);
            var accepted := && !f.active.Corrupt? && f.recovery.Missing? && w.rolesKnown
                            && f.active.Present? && Sha256(f.active.value) == revision
                            && f.rollback.Present? && f.rollback.value.expected == revision;
            && (r.outcome == Ok <==> accepted && w.first.Converged? && !Strikes(w, 4))
            && (r.outcome == Ok ==>
                  g == f.(active := StoredActive(f.rollback.value.previous), rollback := Missing))
            && (r.outcome.Raised? ==>
                  g.rollback == if accepted && w.first.Converged? && w.raises == Some(JustAfter(3)) then Missing
                                else f.rollback)
            && g.recovery == f.recovery
            && (!accepted ==> r.outcome.Raised? && g == f)
  {
    if Begins(f, Rollback(revision), w) {
      RollbackSteps(f, revision, w);
      RollbackLeaves(f, revision, w, |Handle(f, Rollback(revision), w).effects|);
    }
    CallEnd(f, Rollback(revision), w);
  }

  /** The steps of an accepted rollback. */
  lemma RollbackSteps(f: Files, revision: Revision, w: World)
    requires Begins(f, Rollback(revision), w)
    ensures var course, previous := Course(f, Rollback(revision), w), f.rollback.value.previous;
            course == match w.first
                      case Converged =>
                        Script([WriteActive(previous), Log, Deploy(previous, Converged), ClearRollback], Ok)
                      case NotConverged =>
                        Script([WriteActive(previous), Log, Deploy(previous, NotConverged), WriteActive(Active(f))],
                               Raised(DidNotConverge))
                      case Threw =>
                        Script([WriteActive(previous), Log, Deploy(previous, Threw)], Raised(DeployThrew))
  {
  }

  lemma RollbackLeaves(f: Files, revision: Revision, w: World, n: nat)
    requires Begins(f, Rollback(revision), w) && n <= |Course(f, Rollback(revision), w).effects|
    ensures |Course(f, Rollback(revision), w).effects| <= 4
    ensures var g := ShortAt(f, Course(f, Rollback(revision), w).effects, n);
            && g.recovery == f.recovery
            && g.rollback == (if n == 4 && w.first.Converged? then Missing else f.rollback)
            && (n == 4 && w.first.Converged? ==> g.active == StoredActive(f.rollback.value.previous))
  {
    RollbackSteps(f, revision, w);
  }

  /** An apply succeeds exactly if it is accepted, its first deployment converges and nothing raises. One whose first
      deployment does not converge restores the previous release exactly if the second one converges, and records a
      recovery to it exactly if the second one does not. */
  lemma ApplyExact(f: Files, w: World)
    ensures var r := Handle(f, Apply, w);
            var g := AfterAll(f, r.effects);
            var accepted := !f.active.Corrupt? && f.recovery.Missing? && w.prepared.Resolved? && w.rolesKnown;
            && (!accepted ==> r.outcome.Raised? && g == f)
            && (r.outcome == Ok <==> accepted && w.first.Converged? && !Strikes(w, 4))
            && (r.outcome == Raised(PreviousRestored)
                <==> accepted && w.first.NotConverged? && w.second.Converged? && !Strikes(w, 10))
            && (r.outcome == Raised(BothFailed)
                <==> accepted && w.first.NotConverged? && w.second.NotConverged? && !Strikes(w, 9))
            && (accepted ==>
                  (var release := Merged(f, w);
                   var noted := f.(rollback := Present(RollbackRecord(Sha256(release), Active(f))));
                   && (r.outcome == Ok ==> g == noted.(active := Present(release)))
                   && (r.outcome == Raised(PreviousRestored) ==> g == f.(rollback := Missing))
                   && (r.outcome == Raised(BothFailed) ==>
                         g == noted.(recovery := Present(RecoveryRecord(Active(f), release))))))
  {
    CallEnd(f, Apply, w);
    if w.prepared.Resolved? && w.rolesKnown { UndoneSteps(f, w); }
  }

  /** The new release: the prepared images and versions over those of the active release. */
  function Merged(f: Files, w: World): Release
    requires w.prepared.Resolved? && !f.active.Corrupt?
  {
    match f.active
    case Present(current) => Release(w.prepared.createdAt, current.images + w.prepared.images,
                                     current.versions + w.prepared.versions)
    case _ => Release(w.prepared.createdAt, w.prepared.images, w.prepared.versions)
  }

  // ---- refusals ------------------------------------------------------------------------------------------------

  /** Which refusal is given when, each an if-and-only-if over the records. */
  lemma RefusedBecause(f: Files, action: Action, w: World)
    ensures var readable := !action.Refresh? && !f.active.Corrupt? && !f.recovery.Corrupt?;
            var outcome := Handle(f, action, w).outcome;
            && (outcome == Raised(RecoveryPending) <==> readable && f.recovery.Present? && !action.Recover?)
            && (outcome == Raised(NothingToRecover) <==> readable && f.recovery.Missing? && action.Recover?)
            && (outcome == Raised(Superseded) <==>
                  readable && if action.Recover? then f.recovery.Present? && Active(f) != f.recovery.value.previous
                              else f.recovery.Missing? && action.Rollback? && !f.rollback.Corrupt?
                                   && !IsActive(f, action.revision))
            && (outcome == Raised(NoRollback) <==>
                  && readable && f.recovery.Missing? && action.Rollback? && !f.rollback.Corrupt?
                  && IsActive(f, action.revision)
                  && (f.rollback.Missing? || f.rollback.value.expected != action.revision))
            && (outcome == Raised(StateUnreadable) <==>
                  && !action.Refresh?
                  && (!readable || (action.Rollback? && f.recovery.Missing? && f.rollback.Corrupt?)))
  {
    var course := Course(f, action, w);
    if action.Apply? && w.prepared.Resolved? && w.rolesKnown { UndoneSteps(f, w); }
    assert Handle(f, action, w).outcome in {Raised(StepRaised), course.outcome};
  }

  predicate IsActive(f: Files, revision: Revision) {
    f.active.Present? && Sha256(f.active.value) == revision
  }

  /** The view names the active release whenever it is available, and it is available exactly when all records can be
      read and either a recovery is pending or the plan can be read too. */
  lemma ViewNamesActive(f: Files, plan: PlanLoad)
    ensures var view := UpdatesStatus(f, plan);
            && (view.available <==> !f.active.Corrupt? && !f.rollback.Corrupt? && !f.recovery.Corrupt?
                                    && (f.recovery.Present? || !plan.PlanUnreadable?))
            && (view.available ==> forall revision :: view.activeRevision == Some(revision) <==> IsActive(f, revision))
            && (!view.available ==> view.activeRevision.None? && !view.recoveryRequired && !view.rollbackAvailable)
  {
  }
}
