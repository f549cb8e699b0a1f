/** The update operation: three durable records rewritten in a fixed order around deployments that may fail. */
module ReleaseMachine {
  import opened Contracts

  datatype Release = Release(createdAt: string, images: map<string, string>, versions: map<string, string>)

  /** A release revision is a digest of its whole content. */
  type Revision = Digest<Release>

  datatype RollbackRecord = RollbackRecord(expected: Revision, previous: Option<Release>)
  datatype RecoveryRecord = RecoveryRecord(previous: Option<Release>, failed: Release)

  datatype Stored<+T> = Missing | Corrupt | Present(value: T)

  datatype Files = Files(active: Stored<Release>, rollback: Stored<RollbackRecord>, recovery: Stored<RecoveryRecord>)

  const FIRST_RUN: Files := Files(Missing, Missing, Missing)

  function StoredActive(release: Option<Release>): Stored<Release> {
    if release.Some? then Present(release.value) else Missing
  }

  /** The loaded active release; a corrupt file raises instead. */
  function Active(f: Files): Option<Release> {
    if f.active.Present? then Some(f.active.value) else None
  }

  // ---- the operation -------------------------------------------------------------------------------------

  datatype Action = Refresh | Apply | Rollback(revision: Revision) | Recover

  /** Converged and NotConverged are the boolean a deployment returns; Threw is an exception out of it. */
  datatype Deployment = Converged | NotConverged | Threw

  datatype Prepared = Resolved(images: map<string, string>, versions: map<string, string>, createdAt: string) | Rejected

  /** A step of the call that raises: instead of taking effect, or after it has - a write the file system refuses, or
      one whose temporary file cannot be removed once the record is in place; a progress event refused because the
      lease is gone. */
  datatype Fault = InsteadOf(step: nat) | JustAfter(step: nat)

  /** What the surroundings answer: plan checks, digests and snapshots for an apply; whether the affected nodes can be
      determined; the results of the first and second deployment; and the step of the call, if any, that raises. */
  datatype World = World(prepared: Prepared, rolesKnown: bool, first: Deployment, second: Deployment,
                         raises: Option<Fault>)

  datatype Reason =
    | NothingToRecover | Superseded | RecoveryPending | NoRollback | StateUnreadable | NotPrepared | RolesUnknown
    | DidNotConverge | PreviousRestored | BothFailed | DeployThrew | StepRaised

  datatype Outcome = Ok | Raised(reason: Reason) {
    predicate IsFailure() {
      Raised?
    }

    function PropagateFailure(): Outcome
      requires IsFailure()
    {
      this
    }
  }

  /** One step of a call: a durable write, a fenced progress event, or a deployment together with the active release it
      runs with and its result. */
  datatype Effect =
    | WriteActive(release: Option<Release>)
    | WriteRollback(rollback: RollbackRecord)
    | ClearRollback
    | WriteRecovery(recovery: RecoveryRecord)
    | ClearRecovery
    | Log
    | Deploy(ran: Option<Release>, result: Deployment)

  function After(f: Files, e: Effect): Files {
    match e
    case WriteActive(release) => f.(active := StoredActive(release))
    case WriteRollback(r) => f.(rollback := Present(r))
    case ClearRollback => f.(rollback := Missing)
    case WriteRecovery(r) => f.(recovery := Present(r))
    case ClearRecovery => f.(recovery := Missing)
    case Log => f
    case Deploy(_, _) => f
  }

  function AfterAll(f: Files, effects: seq<Effect>): Files {
    if |effects| == 0 then f else After(AfterAll(f, effects[..|effects| - 1]), effects[|effects| - 1])
  }

  function Updated(active: Option<Release>, p: Prepared): Release
    requires p.Resolved?
  {
    if active.None? then Release(p.createdAt, p.images, p.versions)
    else Release(p.createdAt, active.value.images + p.images, active.value.versions + p.versions)
  }

  datatype Script = Script(effects: seq<Effect>, outcome: Outcome)

  function Refused(reason: Reason): Script {
    Script([], Raised(reason))
  }

  /** Everything the handler does, in order, as long as no step raises. */
  function Course(f: Files, action: Action, w: World): Script {
    if action.Refresh? then Script([Log, Log], Ok)
    else if f.active.Corrupt? || f.recovery.Corrupt? then Refused(StateUnreadable)
    else if action.Recover? then CourseOfRecover(f, w)
    else if f.recovery.Present? then Refused(RecoveryPending)
    else if action.Rollback? then CourseOfRollback(f, action.revision, w)
    else CourseOfApply(f, w)
  }

  /** The course up to the step that raises, if one does. */
  function Handle(f: Files, action: Action, w: World): Script {
    Stopped(Course(f, action, w), w)
  }

  function Stopped(course: Script, w: World): Script {
    if w.raises.Some? && w.raises.value.step < |course.effects|
    then Script(course.effects[..Taken(w.raises.value)], Raised(StepRaised))
    else course
  }

  /** How many steps have taken effect when the fault strikes. */
  function Taken(fault: Fault): nat {
    if fault.InsteadOf? then fault.step else fault.step + 1
  }

  function CourseOfRecover(f: Files, w: World): Script {
    if f.recovery.Missing? then Refused(NothingToRecover)
    else if f.recovery.Present? && Active(f) != f.recovery.value.previous then Refused(Superseded)
    else if !w.rolesKnown then Refused(RolesUnknown)
    else
      var begun := [Log, Deploy(Active(f), w.first)];
      match w.first
      case Converged => Script(begun + [ClearRecovery, ClearRollback], Ok)
      case NotConverged => Script(begun, Raised(DidNotConverge))
      case Threw => Script(begun, Raised(DeployThrew))
  }

  /** The guards of a rollback to be accepted, once no recovery is pending. */
  predicate RollbackMatches(f: Files, revision: Revision) {
    && f.active.Present? && Sha256(f.active.value) == revision
    && f.rollback.Present? && f.rollback.value.expected == revision
  }

  function CourseOfRollback(f: Files, revision: Revision, w: World): Script {
    if f.rollback.Corrupt? then Refused(StateUnreadable)
    else if !f.active.Present? || Sha256(f.active.value) != revision then Refused(Superseded)
    else if !RollbackMatches(f, revision) then Refused(NoRollback)
    else if !w.rolesKnown then Refused(RolesUnknown)
    else
      var previous := f.rollback.value.previous;
      var begun := [WriteActive(previous), Log, Deploy(previous, w.first)];
      match w.first
      case Converged => Script(begun + [ClearRollback], Ok)
      case NotConverged => Script(begun + [WriteActive(Active(f))], Raised(DidNotConverge))
      case Threw => Script(begun, Raised(DeployThrew))
  }

  function CourseOfApply(f: Files, w: World): Script {
    if w.prepared.Rejected? || !w.rolesKnown then Refused(NotPrepared)
    else
      var active := Active(f);
      var release := Updated(active, w.prepared);
      var begun := Begun(active, release, w);
      match w.first
      case Converged => Script(begun, Ok)
      case Threw => Script(begun, Raised(DeployThrew))
      case NotConverged =>
        var undo := Undo(active, release, w);
        Script(begun + undo.effects, undo.outcome)
  }

  function Begun(active: Option<Release>, release: Release, w: World): (effects: seq<Effect>)
    ensures |effects| == 4
  {
    [WriteRollback(RollbackRecord(Sha256(release), active)), WriteActive(Some(release)), Log,
     Deploy(Some(release), w.first)]
  }

  /** The automatic rollback of an apply whose deployment did not converge. */
  function Undo(active: Option<Release>, release: Release, w: World): Script {
    var undone := [WriteActive(active), Log, WriteRecovery(RecoveryRecord(active, release)), Deploy(active, w.second)];
    match w.second
    case Converged => Script(undone + [ClearRecovery, ClearRollback], Raised(PreviousRestored))
    case NotConverged => Script(undone + [Log], Raised(BothFailed))
    case Threw => Script(undone, Raised(DeployThrew))
  }

  /** The steps of an apply that is undone, one by one. */
  lemma UndoSteps(f: Files, w: World)
    requires w.prepared.Resolved? && w.rolesKnown && w.first.NotConverged?
    ensures var active, release := Active(f), Updated(Active(f), w.prepared);
            var course := CourseOfApply(f, w);
            && |course.effects| == (if w.second.Converged? then 10 else if w.second.NotConverged? then 9 else 8)
            && course.effects[4] == WriteActive(active) && course.effects[5] == Log
            && course.effects[6] == WriteRecovery(RecoveryRecord(active, release))
            && course.effects[7] == Deploy(active, w.second)
            && (w.second.NotConverged? ==> course.effects[8] == Log)
            && (w.second.Converged? ==> course.effects[8] == ClearRecovery && course.effects[9] == ClearRollback)
            && course.outcome == Undo(active, release, w).outcome
  {
  }

  // ---- the handler on the durable files ----------------------------------------------------------------------

  /** A step raises, an exception leaves a deployment, or the call goes on. */
  function Next(e: Effect, w: World, step: nat): Outcome {
    if w.raises.Some? && w.raises.value.step == step then Raised(StepRaised)
    else if e.Deploy? && e.result.Threw? then Raised(DeployThrew)
    else Ok
  }

  class ReleaseState {
    var active: Stored<Release>
    var rollback: Stored<RollbackRecord>
    var recovery: Stored<RecoveryRecord>
    var step: nat
    ghost var log: seq<Effect>

    function Now(): Files
      reads this
    {
      Files(active, rollback, recovery)
    }

    constructor ()
      ensures Now() == FIRST_RUN
    {
      active, rollback, recovery, step, log := Missing, Missing, Missing, 0, [];
    }

    /** The steps taken in this call are the first of the course, none was due to raise, and the records are what these
        steps made of the records at `f`. */
    ghost predicate OnCourse(f: Files, course: seq<Effect>, w: World)
      reads this
    {
      && step == |log| <= |course| && log == course[..step]
      && Now() == AfterAll(f, log)
      && (w.raises.Some? ==> step <= w.raises.value.step)
    }

    /** The call stopped at the fault. */
    ghost predicate AtFault(f: Files, course: seq<Effect>, w: World)
      reads this
    {
      && w.raises.Some? && w.raises.value.step < |course|
      && log == course[..Taken(w.raises.value)] && Now() == AfterAll(f, log)
    }

    /** The call ended as the script says. */
    ghost predicate Ended(f: Files, script: Script, outcome: Outcome)
      reads this
    {
      log == script.effects && Now() == AfterAll(f, log) && outcome == script.outcome
    }

    /** One step of the call: carried out, unless it raises before that. */
    method Perform(e: Effect, w: World, ghost f: Files, ghost course: seq<Effect>) returns (next: Outcome)
      requires OnCourse(f, course, w) && step < |course| && course[step] == e
      modifies this
      ensures next == Next(e, w, old(step))
      ensures next == Raised(StepRaised) ==> AtFault(f, course, w)
      ensures next != Raised(StepRaised) ==> OnCourse(f, course, w) && step == old(step) + 1
    {
      next := Next(e, w, step);
      if w.raises == Some(InsteadOf(step)) { return; }
      NextEffect(f, course, step);
      assert course[..step + 1] == course[..step] + [e];
      match e {
        case WriteActive(release) => active := StoredActive(release);
        case WriteRollback(r) => rollback := Present(r);
        case ClearRollback => rollback := Missing;
        case WriteRecovery(r) => recovery := Present(r);
        case ClearRecovery => recovery := Missing;
        case _ =>
      }
      assert Now() == After(old(Now()), e);
      log := log + [e];
      step := step + 1;
    }

    method Recover(w: World) returns (outcome: Outcome)
      requires !active.Corrupt? && !recovery.Corrupt? && OnCourse(Now(), [], w)
      modifies this
      ensures Ended(old(Now()), Stopped(CourseOfRecover(old(Now()), w), w), outcome)
    {
      ghost var f, course := Now(), CourseOfRecover(Now(), w).effects;
      if recovery.Missing? { return Raised(NothingToRecover); }
      if Active(Now()) != recovery.value.previous { return Raised(Superseded); }
      if !w.rolesKnown { return Raised(RolesUnknown); }
      :- Perform(Log, w, f, course);
      :- Perform(Deploy(Active(Now()), w.first), w, f, course);
      if w.first.NotConverged? { return Raised(DidNotConverge); }
      :- Perform(ClearRecovery, w, f, course);
      :- Perform(ClearRollback, w, f, course);
      outcome := Ok;
    }

    method Rollback(revision: Revision, w: World) returns (outcome: Outcome)
      requires !active.Corrupt? && recovery.Missing? && OnCourse(Now(), [], w)
      modifies this
      ensures Ended(old(Now()), Stopped(CourseOfRollback(old(Now()), revision, w), w), outcome)
    {
      ghost var f, course := Now(), CourseOfRollback(Now(), revision, w).effects;
      if rollback.Corrupt? { return Raised(StateUnreadable); }
      if !active.Present? || Sha256(active.value) != revision { return Raised(Superseded); }
      if !rollback.Present? || rollback.value.expected != Sha256(active.value) { return Raised(NoRollback); }
      if !w.rolesKnown { return Raised(RolesUnknown); }
      var current, previous := Active(Now()), rollback.value.previous;
      :- Perform(WriteActive(previous), w, f, course);
      :- Perform(Log, w, f, course);
      :- Perform(Deploy(previous, w.first), w, f, course);
      if w.first.NotConverged? {
        :- Perform(WriteActive(current), w, f, course);
        return Raised(DidNotConverge);
      }
      :- Perform(ClearRollback, w, f, course);
      outcome := Ok;
    }

    method Apply(w: World) returns (outcome: Outcome)
      requires !active.Corrupt? && recovery.Missing? && OnCourse(Now(), [], w)
      modifies this
      ensures Ended(old(Now()), Stopped(CourseOfApply(old(Now()), w), w), outcome)
    {
      ghost var f, course := Now(), CourseOfApply(Now(), w).effects;
      if w.prepared.Rejected? || !w.rolesKnown { return Raised(NotPrepared); }
      var current := Active(Now());
      var release := Updated(current, w.prepared);
      :- Perform(WriteRollback(RollbackRecord(Sha256(release), current)), w, f, course);
      :- Perform(WriteActive(Some(release)), w, f, course);
      :- Perform(Log, w, f, course);
      :- Perform(Deploy(Some(release), w.first), w, f, course);
      if w.first.Converged? { return Ok; }
      outcome := UndoApply(current, release, w, f);
    }

    method UndoApply(current: Option<Release>, release: Release, w: World, ghost f: Files) returns (outcome: Outcome)
      requires w.prepared.Resolved? && w.rolesKnown && w.first.NotConverged?
      requires current == Active(f) && release == Updated(current, w.prepared)
      requires OnCourse(f, CourseOfApply(f, w).effects, w) && step == 4
      modifies this
      ensures Ended(f, Stopped(CourseOfApply(f, w), w), outcome)
    {
      ghost var course := CourseOfApply(f, w).effects;
      UndoSteps(f, w);
      :- Perform(WriteActive(current), w, f, course);
      :- Perform(Log, w, f, course);
      :- Perform(WriteRecovery(RecoveryRecord(current, release)), w, f, course);
      :- Perform(Deploy(current, w.second), w, f, course);
      outcome := FinishUndo(w, f);
    }

    /** After the second deployment. */
    method FinishUndo(w: World, ghost f: Files) returns (outcome: Outcome)
      requires w.prepared.Resolved? && w.rolesKnown && w.first.NotConverged? && !w.second.Threw?
      requires OnCourse(f, CourseOfApply(f, w).effects, w) && step == 8
      modifies this
      ensures Ended(f, Stopped(CourseOfApply(f, w), w), outcome)
    {
      ghost var course := CourseOfApply(f, w).effects;
      UndoSteps(f, w);
      if w.second.NotConverged? {
        :- Perform(Log, w, f, course);
        return Raised(BothFailed);
      }
      :- Perform(ClearRecovery, w, f, course);
      :- Perform(ClearRollback, w, f, course);
      outcome := Raised(PreviousRestored);
    }

    /** `update`: the steps taken are exactly the script's, in order, and the records end where they take them. */
    method Update(action: Action, w: World) returns (outcome: Outcome)
      modifies this
      ensures Ended(old(Now()), Handle(old(Now()), action, w), outcome)
    {
      ghost var f := Now();
      log, step := [], 0;
      if action.Refresh? {
        :- Perform(Log, w, f, [Log, Log]);
        :- Perform(Log, w, f, [Log, Log]);
        return Ok;
      }
      if active.Corrupt? || recovery.Corrupt? { return Raised(StateUnreadable); }
      if action.Recover? { outcome := Recover(w); return; }
      if recovery.Present? { return Raised(RecoveryPending); }
      if action.Rollback? { outcome := Rollback(action.revision, w); return; }
      outcome := Apply(w);
    }
  }

  // ---- the invariant at every durable write ---------------------------------------------------------------------

  predicate Readable(f: Files) {
    !f.active.Corrupt? && !f.rollback.Corrupt? && !f.recovery.Corrupt?
  }

  /** A pending recovery names the release that is active. */
  predicate Safe(f: Files) {
    Readable(f) && (f.recovery.Present? ==> Active(f) == f.recovery.value.previous)
  }

  lemma NextEffect(f: Files, effects: seq<Effect>, k: nat)
    requires k < |effects|
    ensures AfterAll(f, effects[..k + 1]) == After(AfterAll(f, effects[..k]), effects[k])
  {
    assert effects[..k + 1][..k] == effects[..k];
  }

  /** The records after the first `k` steps of an apply. */
  function ApplyAt(f: Files, w: World, k: nat): Files
    requires w.prepared.Resolved?
  {
    var active, release := Active(f), Updated(Active(f), w.prepared);
    var rollback := Present(RollbackRecord(Sha256(release), active));
    if k == 0 then f
    else if k == 1 then f.(rollback := rollback)
    else if k <= 4 then f.(rollback := rollback, active := Present(release))
    else if k <= 6 then f.(rollback := rollback, active := StoredActive(active))
    else if k <= 8 || w.second.NotConverged? then
      f.(rollback := rollback, active := StoredActive(active), recovery := Present(RecoveryRecord(active, release)))
    else if k == 9 then f.(rollback := rollback, active := StoredActive(active), recovery := Missing)
    else f.(rollback := Missing, active := StoredActive(active), recovery := Missing)
  }

  lemma {:induction false} ApplyPrefix(f: Files, w: World, k: nat)
    requires w.prepared.Resolved? && k <= |CourseOfApply(f, w).effects|
    ensures AfterAll(f, CourseOfApply(f, w).effects[..k]) == ApplyAt(f, w, k)
  {
    var effects := CourseOfApply(f, w).effects;
    if k == 0 {
      assert effects[..0] == [];
    } else {
      ApplyPrefix(f, w, k - 1);
      NextEffect(f, effects, k - 1);
      ApplyEffect(f, w, k);
    }
  }

  lemma ApplyEffect(f: Files, w: World, k: nat)
    requires w.prepared.Resolved? && 1 <= k <= |CourseOfApply(f, w).effects|
    ensures After(ApplyAt(f, w, k - 1), CourseOfApply(f, w).effects[k - 1]) == ApplyAt(f, w, k)
  {
    var release := Updated(Active(f), w.prepared);
    if k <= 4 {
      assert CourseOfApply(f, w).effects[k - 1] == Begun(Active(f), release, w)[k - 1];
    } else {
      assert CourseOfApply(f, w).effects[k - 1] == Undo(Active(f), release, w).effects[k - 5];
    }
  }

  /** The records after the first `k` steps of a refresh, rollback or recovery. */
  function ShortAt(f: Files, effects: seq<Effect>, k: nat): Files
    requires k <= |effects| <= 4
  {
    if k == 0 then f
    else if k == 1 then After(f, effects[0])
    else if k == 2 then After(After(f, effects[0]), effects[1])
    else if k == 3 then After(After(After(f, effects[0]), effects[1]), effects[2])
    else After(After(After(After(f, effects[0]), effects[1]), effects[2]), effects[3])
  }

  lemma ShortPrefix(f: Files, effects: seq<Effect>, k: nat)
    requires k <= |effects| <= 4
    ensures AfterAll(f, effects[..k]) == ShortAt(f, effects, k)
  {
    assert effects[..0] == [];
    if k > 0 { NextEffect(f, effects, 0); }
    if k > 1 { NextEffect(f, effects, 1); }
    if k > 2 { NextEffect(f, effects, 2); }
    if k > 3 { NextEffect(f, effects, 3); }
  }

  /** The records after the first `k` steps of any course. */
  lemma CoursePrefix(f: Files, action: Action, w: World, k: nat)
    requires k <= |Course(f, action, w).effects|
    ensures var effects := Course(f, action, w).effects;
            && (|effects| > 0 && action.Apply? ==>
                  w.prepared.Resolved? && AfterAll(f, effects[..k]) == ApplyAt(f, w, k))
            && (|effects| == 0 || !action.Apply? ==>
                  |effects| <= 4 && AfterAll(f, effects[..k]) == ShortAt(f, effects, k))
  {
    var effects := Course(f, action, w).effects;
    if |effects| > 0 && action.Apply? {
      ApplyPrefix(f, w, k);
    } else {
      ShortPrefix(f, effects, k);
    }
  }

  /** A call is its course cut where a step raises. */
  lemma HandlePrefix(f: Files, action: Action, w: World, k: nat)
    requires k <= |Handle(f, action, w).effects|
    ensures k <= |Course(f, action, w).effects|
    ensures Handle(f, action, w).effects[..k] == Course(f, action, w).effects[..k]
    ensures Handle(f, action, w).effects[..|Handle(f, action, w).effects|] == Handle(f, action, w).effects
  {
  }

  lemma CallEnd(f: Files, action: Action, w: World)
    ensures var effects := Handle(f, action, w).effects;
            && |effects| <= |Course(f, action, w).effects|
            && (|effects| > 0 && action.Apply? ==>
                  w.prepared.Resolved? && AfterAll(f, effects) == ApplyAt(f, w, |effects|))
            && (|effects| == 0 ==> AfterAll(f, effects) == f)
            && (|effects| > 0 && !action.Apply? ==>
                  (|Course(f, action, w).effects| <= 4
                   && AfterAll(f, effects) == ShortAt(f, Course(f, action, w).effects, |effects|)))
  {
    var n := |Handle(f, action, w).effects|;
    HandlePrefix(f, action, w, n);
    CoursePrefix(f, action, w, n);
  }

  lemma ApplySafe(f: Files, w: World, k: nat)
    requires Safe(f) && f.recovery.Missing? && w.prepared.Resolved?
    ensures Safe(ApplyAt(f, w, k))
  {
  }

  lemma ShortSafe(f: Files, action: Action, w: World, k: nat)
    requires Safe(f) && !action.Apply? && k <= |Course(f, action, w).effects| <= 4
    ensures Safe(ShortAt(f, Course(f, action, w).effects, k))
  {
  }

  /** However far the handler gets before it returns, raises or is killed, a pending recovery still names the active
      release. */
  lemma SafeAtEveryWrite(f: Files, action: Action, w: World, k: nat)
    requires Safe(f) && k <= |Handle(f, action, w).effects|
    ensures Safe(AfterAll(f, Handle(f, action, w).effects[..k]))
  {
    HandlePrefix(f, action, w, k);
    CoursePrefix(f, action, w, k);
    if |Course(f, action, w).effects| > 0 {
      if action.Apply? { ApplySafe(f, w, k); } else { ShortSafe(f, action, w, k); }
    }
  }

  /** One call, cut short after `cut` effects if it is killed. */
  datatype Call = Call(action: Action, world: World, cut: nat)

  function Reached(f: Files, calls: seq<Call>): Files {
    if |calls| == 0 then f
    else
      var before := Reached(f, calls[..|calls| - 1]);
      var last := calls[|calls| - 1];
      var effects := Handle(before, last.action, last.world).effects;
      AfterAll(before, if last.cut <= |effects| then effects[..last.cut] else effects)
  }

  /** Over any sequence of calls, each completed or killed anywhere. */
  lemma {:induction false} AlwaysSafe(calls: seq<Call>)
    ensures Safe(Reached(FIRST_RUN, calls))
  {
    if |calls| > 0 {
      AlwaysSafe(calls[..|calls| - 1]);
      var before := Reached(FIRST_RUN, calls[..|calls| - 1]);
      var last := calls[|calls| - 1];
      var effects := Handle(before, last.action, last.world).effects;
      assert effects[..|effects|] == effects;
      SafeAtEveryWrite(before, last.action, last.world, if last.cut <= |effects| then last.cut else |effects|);
    }
  }

  /** While a recovery is pending nothing but refresh and recover is accepted, and a refused call writes nothing. */
  lemma PendingBlocks(f: Files, action: Action, w: World)
    requires f.recovery.Present? && !action.Refresh? && !action.Recover?
    ensures Handle(f, action, w).effects == []
    ensures Handle(f, action, w).outcome == Raised(if f.active.Corrupt? then StateUnreadable else RecoveryPending)
  {
  }

  lemma RefreshWritesNothing(f: Files, w: World, k: nat)
    requires k <= |Handle(f, Refresh, w).effects|
    ensures AfterAll(f, Handle(f, Refresh, w).effects[..k]) == f
  {
    HandlePrefix(f, Refresh, w, k);
    CoursePrefix(f, Refresh, w, k);
  }

  /** A pending recovery stays until somebody recovers: over any calls that are not recover, each completed, raising or
      killed anywhere, no record changes. */
  lemma {:induction false} PendingStays(f: Files, calls: seq<Call>)
    requires f.recovery.Present? && forall k :: 0 <= k < |calls| ==> !calls[k].action.Recover?
    ensures Reached(f, calls) == f
  {
    if |calls| > 0 {
      var last := calls[|calls| - 1];
      var effects := Handle(f, last.action, last.world).effects;
      PendingStays(f, calls[..|calls| - 1]);
      assert effects[..|effects|] == effects;
      if last.action.Refresh? {
        RefreshWritesNothing(f, last.world, if last.cut <= |effects| then last.cut else |effects|);
      } else {
        PendingBlocks(f, last.action, last.world);
      }
    }
  }

  // ---- what a finished call leaves active ------------------------------------------------------------------------

  /** Every guard of an apply or a rollback passes: it goes on to change the active release. */
  predicate Begins(f: Files, action: Action, w: World) {
    && !f.active.Corrupt? && f.recovery.Missing? && w.rolesKnown
    && (match action
        case Apply => w.prepared.Resolved?
        case Rollback(revision) => !f.rollback.Corrupt? && RollbackMatches(f, revision)
        case _ => false)
  }

  /** The release it makes active. */
  function Target(f: Files, action: Action, w: World): Option<Release>
    requires Begins(f, action, w)
  {
    if action.Apply? then Some(Updated(Active(f), w.prepared)) else f.rollback.value.previous
  }

  /** If the call raises, it does so after the active release was changed and before it is put back: at the progress
      event, at or in the deployment, or before the write that follows it has put the old release back - which, once a
      rollback has converged, is never. An apply changes the active release in its second step, a rollback in its
      first. */
  predicate BreaksOffChanged(action: Action, w: World) {
    var changed := if action.Apply? then 2 else 1;
    && (w.raises.Some? ==> Taken(w.raises.value) >= changed)
    && (|| w.first.Threw?
        || (w.raises.Some? && Taken(w.raises.value) <= changed + 2)
        || (action.Rollback? && w.first.Converged?))
  }

  /** A raising call leaves the active release as it was at entry, exactly unless it made a different release active and
      broke off before putting the old one back. */
  lemma RaisingRestores(f: Files, action: Action, w: World)
    requires Handle(f, action, w).outcome.Raised?
    ensures Active(AfterAll(f, Handle(f, action, w).effects)) == Active(f)
            <==> !(Begins(f, action, w) && Target(f, action, w) != Active(f) && BreaksOffChanged(action, w))
  {
    if Begins(f, action, w) && action.Apply? {
      ApplyRestores(f, w);
    } else if Begins(f, action, w) {
      RollbackRestores(f, action, w);
    } else {
      CallEnd(f, action, w);
    }
  }

  lemma RollbackRestores(f: Files, action: Action, w: World)
    requires Begins(f, action, w) && action.Rollback? && Handle(f, action, w).outcome.Raised?
    ensures Active(AfterAll(f, Handle(f, action, w).effects)) == Active(f)
            <==> !(Target(f, action, w) != Active(f) && BreaksOffChanged(action, w))
  {
    var n := |Handle(f, action, w).effects|;
    CallEnd(f, action, w);
    RollbackAt(f, action, w, n);
  }

  /** The active release after the first `n` steps of an accepted rollback. */
  lemma RollbackAt(f: Files, action: Action, w: World, n: nat)
    requires Begins(f, action, w) && action.Rollback? && n <= |Course(f, action, w).effects|
    ensures |Course(f, action, w).effects| == (if w.first.Threw? then 3 else 4)
    ensures Active(ShortAt(f, Course(f, action, w).effects, n)) ==
              if n == 0 || (n == 4 && w.first.NotConverged?) then Active(f) else Target(f, action, w)
  {
  }

  lemma ApplyRestores(f: Files, w: World)
    requires Begins(f, Apply, w) && Handle(f, Apply, w).outcome.Raised?
    ensures Active(AfterAll(f, Handle(f, Apply, w).effects)) == Active(f)
            <==> !(Target(f, Apply, w) != Active(f) && BreaksOffChanged(Apply, w))
  {
    var n := |Handle(f, Apply, w).effects|;
    CallEnd(f, Apply, w);
    assert AfterAll(f, Handle(f, Apply, w).effects) == if n == 0 then f else ApplyAt(f, w, n);
  }

  /** A rollback whose lease is lost between the write and the deployment: it raises, nothing was deployed, and the
      active release is not what it was. */
  lemma RollbackBreaksOff(release: Release)
    ensures var f := Files(Present(release), Present(RollbackRecord(Sha256(release), None)), Missing);
            var w := World(Rejected, true, Converged, Converged, Some(InsteadOf(1)));
            var r := Handle(f, Rollback(Sha256(release)), w);
            && r == Script([WriteActive(None)], Raised(StepRaised))
            && Active(f) == Some(release) && Active(AfterAll(f, r.effects)) == None
  {
    var f := Files(Present(release), Present(RollbackRecord(Sha256(release), None)), Missing);
    var w := World(Rejected, true, Converged, Converged, Some(InsteadOf(1)));
    CallEnd(f, Rollback(Sha256(release)), w);
    assert Course(f, Rollback(Sha256(release)), w).effects[..1] == [WriteActive(None)];
  }

  /** The last deployment of a script. */
  function LastDeploy(effects: seq<Effect>): Option<Effect> {
    if |effects| == 0 then None
    else if effects[|effects| - 1].Deploy? then Some(effects[|effects| - 1])
    else LastDeploy(effects[..|effects| - 1])
  }

  /** A call that succeeds and deploys leaves active the release its last deployment ran with, and that deployment
      converged. */
  lemma SuccessMatchesRuntime(f: Files, action: Action, w: World)
    requires !action.Refresh? && Handle(f, action, w).outcome == Ok
    ensures var effects := Handle(f, action, w).effects;
            LastDeploy(effects) == Some(Deploy(Active(AfterAll(f, effects)), Converged))
  {
    var effects := Handle(f, action, w).effects;
    CallEnd(f, action, w);
    LastDeployAt(effects, match action case Apply => 3 case Rollback(_) => 2 case _ => 1);
  }

  lemma {:induction false} LastDeployAt(effects: seq<Effect>, k: nat)
    requires k < |effects| && effects[k].Deploy? && forall i :: k < i < |effects| ==> !effects[i].Deploy?
    ensures LastDeploy(effects) == Some(effects[k])
  {
    if k < |effects| - 1 { LastDeployAt(effects[..|effects| - 1], k); }
  }

  /** What a finished call leaves behind: success of a recover or rollback, and an automatic rollback that converged,
      leave neither record; a failed automatic rollback leaves a recovery to exactly the release that was active. */
  lemma RecordsAfterCall(f: Files, action: Action, w: World)
    requires !action.Refresh?
    ensures var r := Handle(f, action, w);
            var g := AfterAll(f, r.effects);
            && (r.outcome == Raised(PreviousRestored) || (r.outcome == Ok && !action.Apply?) ==>
                  g.recovery.Missing? && g.rollback.Missing?)
            && (r.outcome == Raised(BothFailed) ==>
                  g.recovery.Present? && g.recovery.value.previous == Active(f) && Active(g) == Active(f))
  {
    CallEnd(f, action, w);
  }

  /** After any sequence of calls, completed or killed anywhere, a pending recovery can be resolved: once the nodes are
      known and the deployment converges, recover succeeds and leaves the active release alone. */
  lemma {:induction false} RecoveryIsPossible(calls: seq<Call>, w: World)
    requires Reached(FIRST_RUN, calls).recovery.Present? && w.rolesKnown && w.first.Converged? && w.raises.None?
    ensures var f := Reached(FIRST_RUN, calls);
            var g := AfterAll(f, Handle(f, Recover, w).effects);
            && Handle(f, Recover, w).outcome == Ok
            && Active(g) == Active(f) && g.recovery.Missing?
  {
    AlwaysSafe(calls);
    CallEnd(Reached(FIRST_RUN, calls), Recover, w);
  }

  /** Wherever an apply is cut short, the release that was active before is still reachable: it is active, or a rollback
      with the now active revision passes every guard and would restore it. */
  lemma ApplyIsUndoable(f: Files, w: World, k: nat)
    requires !f.active.Corrupt? && f.recovery.Missing? && k <= |CourseOfApply(f, w).effects|
    ensures var g := AfterAll(f, CourseOfApply(f, w).effects[..k]);
            || Active(g) == Active(f)
            || (g.active.Present? && g.recovery.Missing? && RollbackMatches(g, Sha256(g.active.value))
                && g.rollback.value.previous == Active(f))
  {
    if w.prepared.Resolved? {
      ApplyPrefix(f, w, k);
    } else {
      assert CourseOfApply(f, w).effects[..0] == [];
    }
  }

  /** A successful apply followed by a successful rollback of its revision restores the previous release, and a second
      rollback, whatever revision it names, is refused and writes nothing. */
  lemma RollbackUndoesApply(f: Files, w: World, v: World, revision: Revision, u: World)
    requires Handle(f, Apply, w).outcome == Ok
    requires v.rolesKnown && v.first.Converged? && v.raises.None?
    ensures var g := AfterAll(f, Handle(f, Apply, w).effects);
            && g.active.Present?
            && var undo := Rollback(Sha256(g.active.value));
            && Handle(g, undo, v).outcome == Ok
            && var h := AfterAll(g, Handle(g, undo, v).effects);
            && Active(h) == Active(f)
            && Handle(h, Rollback(revision), u).effects == []
            && Handle(h, Rollback(revision), u).outcome.Raised?
  {
    CallEnd(f, Apply, w);
    var g := AfterAll(f, Handle(f, Apply, w).effects);
    CallEnd(g, Rollback(Sha256(g.active.value)), v);
  }

  // ---- the operations view ---------------------------------------------------------------------------------------

  datatype PlanLoad = NoPlan | Plan | PlanUnreadable

  datatype UpdatesView = UpdatesView(available: bool, activeRevision: Option<Revision>, recoveryRequired: bool,
                                     rollbackAvailable: bool)

  /** `_updates_status`. */
  function UpdatesStatus(f: Files, plan: PlanLoad): UpdatesView {
    if !Readable(f) then UpdatesView(false, None, false, false)
    else
      var revision := if f.active.Present? then Some(Sha256(f.active.value)) else None;
      if f.recovery.Present? then UpdatesView(true, revision, true, false)
      else if plan.PlanUnreadable? then UpdatesView(false, None, false, false)
      else UpdatesView(true, revision, false,
                       f.active.Present? && f.rollback.Present? && f.rollback.value.expected == Sha256(f.active.value))
  }

  /** A rollback of this revision passes every guard of the handler. */
  ghost predicate WouldRollBack(f: Files, revision: Revision) {
    forall w: World :: w.rolesKnown && w.raises.None? ==> |Handle(f, Rollback(revision), w).effects| > 0
  }

  /** Apply and rollback are both refused because a recovery is pending. */
  ghost predicate BlockedByRecovery(f: Files) {
    && (forall w: World :: Handle(f, Apply, w).outcome == Raised(RecoveryPending))
    && (forall w: World, r: Revision :: Handle(f, Rollback(r), w).outcome == Raised(RecoveryPending))
  }

  lemma WouldRollBackExact(f: Files, revision: Revision)
    ensures WouldRollBack(f, revision) <==>
              f.recovery.Missing? && !f.active.Corrupt? && !f.rollback.Corrupt? && RollbackMatches(f, revision)
  {
    var w := World(Rejected, true, Converged, Converged, None);
    assert w.rolesKnown;
    if WouldRollBack(f, revision) {
      assert |Handle(f, Rollback(revision), w).effects| > 0;
    }
  }

  /** The view offers a rollback exactly when rolling back the active revision would pass every guard and the update
      plan, which a rollback does not use, can be read. */
  lemma ViewOffersRollback(f: Files, plan: PlanLoad)
    ensures UpdatesStatus(f, plan).rollbackAvailable <==>
              f.active.Present? && WouldRollBack(f, Sha256(f.active.value)) && !plan.PlanUnreadable?
  {
    if f.active.Present? { WouldRollBackExact(f, Sha256(f.active.value)); }
  }

  /** The view asks for recovery exactly when apply and rollback are blocked by one and the rollback record, which
      neither refusal depends on, can be read. */
  lemma ViewAsksForRecovery(f: Files, plan: PlanLoad)
    ensures UpdatesStatus(f, plan).recoveryRequired <==> BlockedByRecovery(f) && !f.rollback.Corrupt?
  {
    var w := World(Rejected, true, Converged, Converged, None);
    if BlockedByRecovery(f) {
      assert Handle(f, Apply, w).outcome == Raised(RecoveryPending);
    }
  }

  /** A stale plan hides a rollback that would be accepted; a corrupt rollback record hides a pending recovery. */
  lemma ViewCanDisagree()
    ensures var release := Release("t", map["a" := "i"], map["a" := "v"]);
            var f := Files(Present(release), Present(RollbackRecord(Sha256(release), None)), Missing);
            WouldRollBack(f, Sha256(release)) && !UpdatesStatus(f, PlanUnreadable).rollbackAvailable
    ensures var release := Release("t", map["a" := "i"], map["a" := "v"]);
            var f := Files(Missing, Corrupt, Present(RecoveryRecord(None, release)));
            BlockedByRecovery(f) && !UpdatesStatus(f, NoPlan).recoveryRequired
  {
    var release := Release("t", map["a" := "i"], map["a" := "v"]);
    var f := Files(Present(release), Present(RollbackRecord(Sha256(release), None)), Missing);
    WouldRollBackExact(f, Sha256(release));
  }
}
