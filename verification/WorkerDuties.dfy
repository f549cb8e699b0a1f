/** What the worker owes a job it has claimed: which outcome is due at which turn, told from the rows, and how the pass
    then ends. */
module WorkerDuties {
  import opened Contracts
  import opened JobTables
  import opened JobRuns
  import opened StoreEffects
  import opened Worker

  predicate LiveAt(db: Db, l: Lease, now: int) {
    l.job < |db.jobs| && Holds(db.jobs[l.job], l.worker, l.generation, now)
  }

  predicate InState(db: Db, l: Lease, now: int, state: JobState) {
    LiveAt(db, l, now) && db.jobs[l.job].state == state
  }

  // ---- one turn ---------------------------------------------------------------------------------------------------

  /** The turn looks at the lease: the child before it goes on or reports a success, the parent at every poll - except
      of a secret rotation, and once it is stopping. */
  predicate Looks(kind: JobKind, what: Happening) {
    || what.ChildChecks?
    || (what.ChildSends? && what.message.Done?)
    || (what.ParentPolls? && !what.stopping && kind != SECRET_ROTATION)
  }

  /** This outcome is due now. */
  predicate Due(db: Db, l: Lease, kind: JobKind, what: Happening, lost: bool, now: int, outcome: Outcome) {
    match outcome
    case WasCancelled => Looks(kind, what) && !(what.ParentPolls? && lost) && InState(db, l, now, CANCEL_REQUESTED)
    case LeaseWasLost => Looks(kind, what) && ((what.ParentPolls? && lost) || !LiveAt(db, l, now))
    case ShuttingDown => what.ParentPolls? && what.stopping && kind != SECRET_ROTATION
    case Succeeded(result) => what == ChildSends(Done(result)) && InState(db, l, now, RUNNING)
    case Failure(error) =>
      || what == ChildSends(SafeError(error))
      || (error == ErrorBody("INTERNAL_ERROR", "Operation failed")
          && (what.ChildExits? || (what.ChildSends? && (what.message.Crashed? || what.message.Garbled?))))
      || (error == ErrorBody("OPERATION_FAILED", "Operation exceeded its execution deadline")
          && what.ParentPolls? && what.expired
          && (kind == SECRET_ROTATION || (!what.stopping && !lost && InState(db, l, now, RUNNING))))
  }

  /** The tables and the heartbeat's flags after a turn that ends nothing. */
  function Beaten(db: Db, l: Lease, what: Happening, now: int, lost: bool, broke: bool, seconds: int): (Db, bool, bool)
  {
    if what.HeartbeatBreaks? then (db, true, broke || !lost)
    else if what.HeartbeatRenews? && !lost then
      if seconds > 0 && LiveAt(db, l, now) then
        var row := db.jobs[l.job].(leaseExpiry := Some(now + seconds * 1_000_000), updatedAt := now);
        (db.(jobs := db.jobs[l.job := row]), false, broke)
      else (db, true, broke)
    else (db, lost, broke)
  }

  /** The wait ends with exactly the outcome that is due, and goes on exactly when none is. */
  ghost predicate Answers(stop: Option<Outcome>, db: Db, l: Lease, kind: JobKind, what: Happening, lost: bool, now: int)
  {
    forall outcome :: stop == Some(outcome) <==> Due(db, l, kind, what, lost, now, outcome)
  }

  lemma PollDue(db: Db, l: Lease, kind: JobKind, stopping: bool, expired: bool, now: int, lost: bool)
    ensures Answers(PollOf(db, l, kind, stopping, expired, lost, now), db, l, kind, ParentPolls(stopping, expired),
                    lost, now)
  {
  }

  lemma MessageDue(db: Db, l: Lease, kind: JobKind, message: Message, now: int, lost: bool)
    ensures Answers(Some(HearOf(db, l, message, now)), db, l, kind, ChildSends(message), lost, now)
  {
  }

  lemma BeatLeaves(db: Db, l: Lease, kind: JobKind, what: Happening, now: int, lost: bool, broke: bool, seconds: int)
    ensures var g := GlanceOf(db, l, kind, what, now, lost, broke, seconds);
            && (g.db, g.lost, g.broke) == Beaten(db, l, what, now, lost, broke, seconds)
            && (what.HeartbeatRenews? || what.HeartbeatBreaks? ==> g.stop.None?)
  {
    RenewalExact(db, now, l.job, l.worker, l.generation, seconds);
    assert db.events + [] == db.events && db.audit + [] == db.audit;
  }

  lemma NothingElseDue(db: Db, l: Lease, kind: JobKind, what: Happening, lost: bool, now: int)
    requires !what.ParentPolls? && !what.ChildSends?
    ensures Answers(if what.ChildChecks? then StopOf(db, l, now)
                    else if what.ChildExits? then Some(Failure(INTERNAL)) else None,
                    db, l, kind, what, lost, now)
  {
  }

  /** The parent, the child and the heartbeat do at each turn what is due, and no more. */
  lemma TurnEndsWhenDue(db: Db, l: Lease, kind: JobKind, what: Happening, now: int, lost: bool, broke: bool,
                        seconds: int)
    ensures var g := GlanceOf(db, l, kind, what, now, lost, broke, seconds);
            && Answers(g.stop, db, l, kind, what, lost, now)
            && (g.db, g.lost, g.broke) == Beaten(db, l, what, now, lost, broke, seconds)
  {
    BeatLeaves(db, l, kind, what, now, lost, broke, seconds);
    match what
    case ParentPolls(stopping, expired) => PollDue(db, l, kind, stopping, expired, now, lost);
    case ChildSends(message) => MessageDue(db, l, kind, message, now, lost);
    case _ => NothingElseDue(db, l, kind, what, lost, now);
  }

  // ---- the whole wait ---------------------------------------------------------------------------------------------

  /** Where the wait stands: the tables, the heartbeat's flags and the last clock reading. */
  datatype Standing = Standing(db: Db, lost: bool, broke: bool, clock: int)

  ghost predicate AnyDue(st: Standing, l: Lease, kind: JobKind, turn: Turn) {
    exists outcome :: Due(Run(st.db, turn.beat.others), l, kind, turn.what, st.lost, turn.beat.now, outcome)
  }

  function Next(st: Standing, l: Lease, turn: Turn, seconds: int): Standing {
    var (db, lost, broke) := Beaten(Run(st.db, turn.beat.others), l, turn.what, turn.beat.now, st.lost, st.broke,
                                    seconds);
    Standing(db, lost, broke, turn.beat.now)
  }

  /** After these turns; None when something was due at one of them. */
  ghost function After(st: Standing, l: Lease, kind: JobKind, turns: seq<Turn>, seconds: int): Option<Standing>
    decreases |turns|
  {
    if |turns| == 0 then Some(st)
    else if AnyDue(st, l, kind, turns[0]) then None
    else After(Next(st, l, turns[0], seconds), l, kind, turns[1..], seconds)
  }

  function WatchedFrom(st: Standing, l: Lease, kind: JobKind, turns: seq<Turn>, seconds: int): Watch {
    Watched(st.db, l, kind, turns, st.clock, st.lost, st.broke, seconds)
  }

  lemma {:induction false} FirstTurn(st: Standing, l: Lease, kind: JobKind, turns: seq<Turn>, seconds: int)
    requires |turns| > 0
    ensures var next := Next(st, l, turns[0], seconds);
            && (!AnyDue(st, l, kind, turns[0]) ==>
                  WatchedFrom(st, l, kind, turns, seconds) == WatchedFrom(next, l, kind, turns[1..], seconds))
            && (forall outcome ::
                  Due(Run(st.db, turns[0].beat.others), l, kind, turns[0].what, st.lost, turns[0].beat.now, outcome) ==>
                  WatchedFrom(st, l, kind, turns, seconds)
                  == Watch(outcome, turns[0].beat.now, next.lost, next.broke, next.db))
  {
    var beat := turns[0].beat;
    var meanwhile := Run(st.db, beat.others);
    TurnEndsWhenDue(meanwhile, l, kind, turns[0].what, beat.now, st.lost, st.broke, seconds);
    var g := GlanceOf(meanwhile, l, kind, turns[0].what, beat.now, st.lost, st.broke, seconds);
    if g.stop.Some? { assert Due(meanwhile, l, kind, turns[0].what, st.lost, beat.now, g.stop.value); }
  }

  /** The wait ends at the first turn at which something is due, with that outcome, on the tables as they are then. */
  lemma {:induction false} WaitEndsWhenDue(st: Standing, l: Lease, kind: JobKind, turns: seq<Turn>, seconds: int,
                                           k: nat, at: Standing, outcome: Outcome)
    requires k < |turns| && After(st, l, kind, turns[..k], seconds) == Some(at)
    requires Due(Run(at.db, turns[k].beat.others), l, kind, turns[k].what, at.lost, turns[k].beat.now, outcome)
    ensures var next := Next(at, l, turns[k], seconds);
            WatchedFrom(st, l, kind, turns, seconds)
            == Watch(outcome, turns[k].beat.now, next.lost, next.broke, next.db)
    decreases k
  {
    FirstTurn(st, l, kind, turns, seconds);
    if k > 0 {
      assert turns[..k][0] == turns[0] && turns[..k][1..] == turns[1..][..k - 1];
      WaitEndsWhenDue(Next(st, l, turns[0], seconds), l, kind, turns[1..], seconds, k - 1, at, outcome);
    }
  }

  /** If nothing is due at any turn, the job is reported as an internal failure. */
  lemma {:induction false} WaitWithoutAnswer(st: Standing, l: Lease, kind: JobKind, turns: seq<Turn>, seconds: int)
    requires After(st, l, kind, turns, seconds).Some?
    ensures var at := After(st, l, kind, turns, seconds).value;
            WatchedFrom(st, l, kind, turns, seconds)
            == Watch(Failure(ErrorBody("INTERNAL_ERROR", "Operation failed")), at.clock, at.lost, at.broke, at.db)
    decreases |turns|
  {
    if |turns| > 0 {
      FirstTurn(st, l, kind, turns, seconds);
      WaitWithoutAnswer(Next(st, l, turns[0], seconds), l, kind, turns[1..], seconds);
    }
  }

  predicate Renews(st: Standing, l: Lease, turn: Turn, seconds: int) {
    turn.what.HeartbeatRenews? && !st.lost && seconds > 0 && LiveAt(Run(st.db, turn.beat.others), l, turn.beat.now)
  }

  /** The clock reading of the last renewal accepted before the wait is over. */
  ghost function LastRenewal(st: Standing, l: Lease, kind: JobKind, turns: seq<Turn>, seconds: int, last: int): int
    decreases |turns|
  {
    if |turns| == 0 then last
    else
      var latest := if Renews(st, l, turns[0], seconds) then turns[0].beat.now else last;
      if AnyDue(st, l, kind, turns[0]) then latest
      else LastRenewal(Next(st, l, turns[0], seconds), l, kind, turns[1..], seconds, latest)
  }

  lemma {:induction false} FirstSign(st: Standing, l: Lease, kind: JobKind, turns: seq<Turn>, seconds: int, last: int)
    requires |turns| > 0
    ensures var next := Next(st, l, turns[0], seconds);
            var latest := if Renews(st, l, turns[0], seconds) then turns[0].beat.now else last;
            LastSign(st.db, l, kind, turns, st.lost, st.broke, seconds, last)
            == if AnyDue(st, l, kind, turns[0]) then latest
               else LastSign(next.db, l, kind, turns[1..], next.lost, next.broke, seconds, latest)
  {
    var turn := turns[0];
    var meanwhile := Run(st.db, turn.beat.others);
    TurnEndsWhenDue(meanwhile, l, kind, turn.what, turn.beat.now, st.lost, st.broke, seconds);
    var g := GlanceOf(meanwhile, l, kind, turn.what, turn.beat.now, st.lost, st.broke, seconds);
    if g.stop.Some? { assert Due(meanwhile, l, kind, turn.what, st.lost, turn.beat.now, g.stop.value); }
  }

  /** The worker's sign of life moves with exactly the renewals that are accepted. */
  lemma {:induction false} SignsAreRenewals(st: Standing, l: Lease, kind: JobKind, turns: seq<Turn>, seconds: int,
                                            last: int)
    ensures LastSign(st.db, l, kind, turns, st.lost, st.broke, seconds, last)
         == LastRenewal(st, l, kind, turns, seconds, last)
    decreases |turns|
  {
    if |turns| > 0 {
      FirstSign(st, l, kind, turns, seconds, last);
      SignsAreRenewals(Next(st, l, turns[0], seconds), l, kind, turns[1..], seconds,
                       if Renews(st, l, turns[0], seconds) then turns[0].beat.now else last);
    }
  }

  // ---- one report -------------------------------------------------------------------------------------------------

  /** The job finished, its lease dropped, with one event and one audit record. */
  function Finished(db: Db, l: Lease, now: int, target: JobState, result: Option<JobResult>, error: Option<ErrorBody>,
                    text: EventText): Db
    requires l.job < |db.jobs|
  {
    var row := db.jobs[l.job];
    var done := row.(state := target, updatedAt := now, result := result, error := error, leaseOwner := None,
                     leaseExpiry := None);
    Wrote(db, db.jobs[l.job := done], [EventRow(l.job, now, text)],
          [AuditRow(now, if l.worker == "" then row.principal else l.worker, JobTransition(l.job, row.state, target))])
  }

  /** A terminal report is accepted exactly in the expected state under the live lease, and finishes the job. */
  lemma ReportExact(db: Db, l: Lease, now: int, expected: JobState, target: JobState, result: Option<JobResult>,
                    error: Option<ErrorBody>, text: EventText)
    requires Leased(expected) && MayFollow(expected, target) && Over(target) && 1 <= |text.message| <= 4000
    ensures var op := ReportOp(l, expected, target, result, error, text);
            if InState(db, l, now, expected) then
              Decide(db, now, op).Commit? && Do(db, now, op) == Finished(db, l, now, target, result, error, text)
            else Decide(db, now, op).Refuse? && Do(db, now, op) == db
  {
    TransitionExact(db, now, ReportOp(l, expected, target, result, error, text));
  }

  // ---- how the pass ends ------------------------------------------------------------------------------------------

  /** The report of a cancellation: accepted exactly while the job is still being cancelled under the live lease. */
  predicate EndsCancelled(ending: Ending, db: Db, l: Lease, b: Beat) {
    var later := Run(db, b.others);
    ending == if InState(later, l, b.now, CANCEL_REQUESTED) then
                Ending(CancelledJob, b.now,
                       Finished(later, l, b.now, CANCELLED, None, None, EventText(WARNING, "Job cancelled")))
              else Ending(ReportRefused, b.now, later)
  }

  /** The report of a failure: accepted exactly if the lease is live at both readings and the state is the same at both.
      A cancellation between the two readings is thus the one refusal under a live lease. */
  predicate EndsFailed(ending: Ending, db: Db, l: Lease, s: Schedule, error: ErrorBody) {
    var read := Run(db, s.settle.others);
    if !LiveAt(read, l, s.settle.now) then ending == Ending(FailRefused, s.settle.now, read)
    else
      var later := Run(read, s.finish.others);
      ending == if InState(later, l, s.finish.now, read.jobs[l.job].state) then
                  Ending(FailedJob(error), s.finish.now,
                         Finished(later, l, s.finish.now, FAILED, None, Some(error), EventText(ERROR, "Job failed")))
                else Ending(FailRefused, s.finish.now, later)
  }

  /** The report of a success: stored exactly if the job is running under the live lease at the last check and at the
      report; a cancellation seen at either is carried out instead. */
  predicate EndsSucceeded(ending: Ending, w: Watch, l: Lease, s: Schedule, result: JobResult) {
    var read := Run(w.db, s.check.others);
    if w.lost then ending == Ending(if w.broke then HeartbeatBroke else LeaseGone, w.clock, read)
    else if InState(read, l, s.check.now, CANCEL_REQUESTED) then EndsCancelled(ending, read, l, s.finish)
    else if !InState(read, l, s.check.now, RUNNING) then ending == Ending(LeaseGone, s.check.now, read)
    else
      var later := Run(read, s.report.others);
      if InState(later, l, s.report.now, RUNNING) then
        ending == Ending(Stored(result), s.report.now,
                         if result.partial then
                           Finished(later, l, s.report.now, PARTIAL_FAILURE, Some(result), None,
                                    EventText(WARNING, "Job completed with partial failure"))
                         else Finished(later, l, s.report.now, SUCCEEDED, Some(result), None,
                                       EventText(INFO, "Job succeeded")))
      else
        var settled := Run(later, s.settle.others);
        if InState(settled, l, s.settle.now, CANCEL_REQUESTED) then EndsCancelled(ending, settled, l, s.finish)
        else ending == Ending(ReportRefused, s.settle.now, settled)
  }

  /** What the outcome of the wait makes of the job. */
  predicate EndsAs(ending: Ending, w: Watch, l: Lease, s: Schedule) {
    match w.outcome
    case Succeeded(result) => EndsSucceeded(ending, w, l, s, result)
    case WasCancelled => EndsCancelled(ending, w.db, l, s.finish)
    case LeaseWasLost => ending == Ending(if w.broke then HeartbeatBroke else LeaseGone, w.clock, w.db)
    case ShuttingDown => ending == Ending(ShutDown, w.clock, w.db)
    case Failure(error) => EndsFailed(ending, w.db, l, s, error)
  }

  lemma CancelledEnds(db: Db, l: Lease, b: Beat)
    ensures EndsCancelled(Cancelled(db, l, b), db, l, b)
  {
    ReportExact(Run(db, b.others), l, b.now, CANCEL_REQUESTED, CANCELLED, None, None, CANCELLED_TEXT);
  }

  lemma FailedEnds(db: Db, l: Lease, s: Schedule, error: ErrorBody)
    ensures EndsFailed(Failed(db, l, s, error), db, l, s, error)
  {
    var read := Run(db, s.settle.others);
    if LiveAt(read, l, s.settle.now) {
      ReportExact(Run(read, s.finish.others), l, s.finish.now, read.jobs[l.job].state, FAILED, None, Some(error),
                  FAILED_TEXT);
    }
  }

  lemma FinalizedEnds(db: Db, l: Lease, s: Schedule)
    ensures var settled, ending := Run(db, s.settle.others), Finalized(db, l, s);
            if InState(settled, l, s.settle.now, CANCEL_REQUESTED) then EndsCancelled(ending, settled, l, s.finish)
            else ending == Ending(ReportRefused, s.settle.now, settled)
  {
    CancelledEnds(Run(db, s.settle.others), l, s.finish);
  }

  lemma SucceededEnds(w: Watch, l: Lease, s: Schedule, result: JobResult)
    ensures EndsSucceeded(Completed(w, l, s, result), w, l, s, result)
  {
    var read := Run(w.db, s.check.others);
    var later := Run(read, s.report.others);
    CancelledEnds(read, l, s.finish);
    ReportExact(later, l, s.report.now, RUNNING, if result.partial then PARTIAL_FAILURE else SUCCEEDED, Some(result),
                None, if result.partial then PARTIAL_TEXT else SUCCEEDED_TEXT);
    FinalizedEnds(later, l, s);
  }

  lemma ConcludedEnds(w: Watch, l: Lease, s: Schedule)
    ensures EndsAs(Concluded(w, l, s), w, l, s)
  {
    match w.outcome
    case Succeeded(result) => SucceededEnds(w, l, s, result);
    case WasCancelled => CancelledEnds(w.db, l, s.finish);
    case Failure(error) => FailedEnds(w.db, l, s, error);
    case _ =>
  }

  // ---- the whole pass ---------------------------------------------------------------------------------------------

  /** The start event is logged, and the wait begins. */
  function Begun(claimed: Db, l: Lease, s: Schedule): Standing {
    var before := Run(claimed, s.start.others);
    Standing(Wrote(before, before.jobs, [EventRow(l.job, s.start.now, EventText(INFO, "Job started"))], []), false,
             false, s.start.now)
  }

  lemma StartsUnderLease(claimed: Db, l: Lease, s: Schedule, seconds: int)
    ensures Starts(claimed, l, s) <==> LiveAt(Run(claimed, s.start.others), l, s.start.now)
    ensures Starts(claimed, l, s) ==>
              Watching(claimed, l, s, seconds)
              == WatchedFrom(Begun(claimed, l, s), l, Run(claimed, s.start.others).jobs[l.job].request.Kind(), s.turns,
                             seconds)
    ensures !Starts(claimed, l, s) ==>
              Executed(claimed, l, s, seconds) == Ending(LeaseGone, s.start.now, Run(claimed, s.start.others))
  {
    AppendEventExact(Run(claimed, s.start.others), s.start.now, l.job, STARTED, Some(l.worker), Some(l.generation));
  }

  /** A claimed job is started exactly under its live lease. The pass then ends as the first thing due says: what is due
      at a turn is reported, and what the report does to the job is told by its row at that moment. */
  lemma {:induction false} PassEndsAsDue(claimed: Db, l: Lease, s: Schedule, seconds: int, k: nat, at: Standing,
                                         outcome: Outcome)
    requires LiveAt(Run(claimed, s.start.others), l, s.start.now) && k < |s.turns|
    requires var kind := Run(claimed, s.start.others).jobs[l.job].request.Kind();
             && After(Begun(claimed, l, s), l, kind, s.turns[..k], seconds) == Some(at)
             && Due(Run(at.db, s.turns[k].beat.others), l, kind, s.turns[k].what, at.lost, s.turns[k].beat.now, outcome)
    ensures var next := Next(at, l, s.turns[k], seconds);
            EndsAs(Executed(claimed, l, s, seconds),
                   Watch(outcome, s.turns[k].beat.now, next.lost, next.broke, next.db), l, s)
  {
    var kind := Run(claimed, s.start.others).jobs[l.job].request.Kind();
    StartsUnderLease(claimed, l, s, seconds);
    WaitEndsWhenDue(Begun(claimed, l, s), l, kind, s.turns, seconds, k, at, outcome);
    ConcludedEnds(Watching(claimed, l, s, seconds), l, s);
  }

  /** A job whose turns run out with nothing due is reported failed. */
  lemma {:induction false} PassWithoutAnswer(claimed: Db, l: Lease, s: Schedule, seconds: int)
    requires LiveAt(Run(claimed, s.start.others), l, s.start.now)
    requires var kind := Run(claimed, s.start.others).jobs[l.job].request.Kind();
             After(Begun(claimed, l, s), l, kind, s.turns, seconds).Some?
    ensures var kind := Run(claimed, s.start.others).jobs[l.job].request.Kind();
            EndsFailed(Executed(claimed, l, s, seconds),
                       After(Begun(claimed, l, s), l, kind, s.turns, seconds).value.db, l, s,
                       ErrorBody("INTERNAL_ERROR", "Operation failed"))
  {
    var kind := Run(claimed, s.start.others).jobs[l.job].request.Kind();
    StartsUnderLease(claimed, l, s, seconds);
    WaitWithoutAnswer(Begun(claimed, l, s), l, kind, s.turns, seconds);
    ConcludedEnds(Watching(claimed, l, s, seconds), l, s);
  }

  /** A cancellation requested while the lease is live, and looked for by the worker before anything else ends the wait,
      is carried out: the job ends CANCELLED, unless the lease has expired by the time of the report. */
  lemma {:induction false} CancellationIsCarriedOut(claimed: Db, l: Lease, s: Schedule, seconds: int, k: nat,
                                                    at: Standing)
    requires Chronological(s, l.worker)
    requires LiveAt(Run(claimed, s.start.others), l, s.start.now) && k < |s.turns|
    requires var kind := Run(claimed, s.start.others).jobs[l.job].request.Kind();
             && After(Begun(claimed, l, s), l, kind, s.turns[..k], seconds) == Some(at)
             && Looks(kind, s.turns[k].what) && !(s.turns[k].what.ParentPolls? && at.lost)
             && InState(Run(at.db, s.turns[k].beat.others), l, s.turns[k].beat.now, CANCEL_REQUESTED)
    ensures var later := Run(Run(at.db, s.turns[k].beat.others), s.finish.others);
            var ending := Executed(claimed, l, s, seconds);
            if LiveAt(later, l, s.finish.now) then
              && ending.exit == CancelledJob && l.job < |ending.db.jobs| && ending.db.jobs[l.job].state == CANCELLED
            else ending.exit == ReportRefused && ending.db == later
  {
    var seen := Run(at.db, s.turns[k].beat.others);
    PassEndsAsDue(claimed, l, s, seconds, k, at, WasCancelled);
    InOrderHere(s, l.worker);
    TurnsAt(s.turns, s.start.now, l.worker, k);
    assert Next(at, l, s.turns[k], seconds).db == seen;
    OthersPersist(seen, s.finish.others, l, s.turns[k].beat.now);
  }

  lemma {:induction false} TurnsAt(turns: seq<Turn>, t: int, worker: string, k: nat)
    requires TurnsEnsue(turns, t, worker) && k < |turns|
    ensures t <= turns[k].beat.now <= EndOf(turns, t)
  {
    TurnsEnd(turns[1..], turns[0].beat.now, worker);
    if k > 0 { TurnsAt(turns[1..], turns[0].beat.now, worker, k - 1); }
  }
}
