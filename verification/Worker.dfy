/** One pass of the worker, with an isolated handler, against a store that other clients keep using. */
module Worker {
  import opened Contracts
  import opened JobTables
  import opened JobOrder
  import opened JobRuns
  import opened ClaimDrain
  import opened StoreEffects
  import opened ControllerStore

  datatype Lease = Lease(job: nat, worker: string, generation: nat)

  predicate HeldBy(row: Row, l: Lease) {
    row.generation == l.generation && row.leaseOwner == Some(l.worker) && Leased(row.state)
  }

  predicate Gone(row: Row, l: Lease) {
    row.generation > l.generation || (row.generation == l.generation && Terminal(row.state))
  }

  /** The job was claimed under `l` and is either still held, or finished, or claimed again. */
  predicate Known(row: Row, l: Lease) {
    Gone(row, l) || HeldBy(row, l)
  }

  /** Known, and if still held then being cancelled. */
  predicate Cancelling(row: Row, l: Lease) {
    Gone(row, l) || (HeldBy(row, l) && row.state == CANCEL_REQUESTED)
  }

  /** Known, and if still held then expired at `t`. */
  predicate Lost(row: Row, l: Lease, t: int) {
    Gone(row, l) || (HeldBy(row, l) && (row.leaseExpiry.None? || row.leaseExpiry.value <= t))
  }

  ghost predicate Persists(before: Row, after: Row, l: Lease, t: int) {
    && (Known(before, l) ==> Known(after, l))
    && (Cancelling(before, l) ==> Cancelling(after, l))
    && (Lost(before, l, t) ==> Lost(after, l, t))
  }

  function Elsewhere(worker: string, since: int): Scope {
    Scope(false, false, Some(since), Some(worker))
  }

  lemma EditPersists(start: Row, db: Db, now: int, e: Edit, l: Lease, since: int)
    requires l.job < |db.jobs| && Persists(start, db.jobs[l.job], l, since)
    requires InRange(db, e) && Sound(db, now, e) && Proper(Elsewhere(l.worker, since), db, now, e)
    ensures Persists(start, Apply(db, now, e).jobs[l.job], l, since)
  {
    var row, after := db.jobs[l.job], Apply(db, now, e).jobs[l.job];
    assert Terminal(row.state) ==> after == row;
    assert Gone(row, l) ==> Gone(after, l);
    assert HeldBy(row, l) ==> Known(after, l) && (Lost(row, l, since) ==> Lost(after, l, since));
  }

  /** The store after other clients acted from `since` on, none of them reporting in this worker's name: being held,
      being cancelled and being lost are each stable. */
  lemma {:induction false} OthersPersist(db: Db, steps: seq<Step>, l: Lease, since: int)
    requires l.job < |db.jobs|
    requires forall k :: 0 <= k < |steps| ==> steps[k].now >= since && Foreign(steps[k].op, l.worker)
    ensures l.job < |Run(db, steps).jobs|
    ensures Persists(db.jobs[l.job], Run(db, steps).jobs[l.job], l, since)
  {
    var start := db.jobs[l.job];
    var scope := Elsewhere(l.worker, since);
    var P := (d: Db) => l.job < |d.jobs| && Persists(start, d.jobs[l.job], l, since);
    forall d: Db, t, e | P(d) && InRange(d, e) && Sound(d, t, e) && Proper(scope, d, t, e) ensures P(Apply(d, t, e)) {
      EditPersists(start, d, t, e, l, since);
    }
    RunKeeps(P, scope, db, steps);
  }

  // ---- schedules -----------------------------------------------------------------------------------------

  /** Before a call of ours others act; then our clock is read. */
  datatype Beat = Beat(others: seq<Step>, now: int)

  datatype Message = Done(result: JobResult) | SafeError(error: ErrorBody) | Crashed(kind: string) | Garbled

  datatype Happening =
    | ChildSends(message: Message)
    | ChildChecks
    | ChildExits
    | HeartbeatRenews
    | HeartbeatBreaks
    | ParentPolls(stopping: bool, expired: bool)

  datatype Turn = Turn(beat: Beat, what: Happening)

  datatype Schedule = Schedule(claim: Beat, start: Beat, turns: seq<Turn>, check: Beat, report: Beat, settle: Beat,
                               finish: Beat)

  /** Nobody reads a clock earlier than `t`, and nobody else reports in this worker's name. */
  predicate Ensues(b: Beat, t: int, worker: string) {
    && b.now >= t
    && forall k :: 0 <= k < |b.others| ==> b.others[k].now >= t && Foreign(b.others[k].op, worker)
  }

  predicate TurnsEnsue(turns: seq<Turn>, t: int, worker: string) {
    |turns| == 0 || (Ensues(turns[0].beat, t, worker) && TurnsEnsue(turns[1..], turns[0].beat.now, worker))
  }

  function EndOf(turns: seq<Turn>, t: int): int {
    if |turns| == 0 then t else turns[|turns| - 1].beat.now
  }

  predicate Chronological(s: Schedule, worker: string) {
    && Ensues(s.start, s.claim.now, worker)
    && TurnsEnsue(s.turns, s.start.now, worker)
    && Ensues(s.check, EndOf(s.turns, s.start.now), worker)
    && Ensues(s.report, s.check.now, worker)
    && Ensues(s.settle, s.report.now, worker)
    && Ensues(s.finish, s.settle.now, worker)
  }

  lemma {:induction false} TurnsEnd(turns: seq<Turn>, t: int, worker: string)
    requires TurnsEnsue(turns, t, worker)
    ensures EndOf(turns, t) >= t
  {
    if |turns| > 0 { TurnsEnd(turns[1..], turns[0].beat.now, worker); }
  }

  datatype Outcome =
    | Succeeded(result: JobResult) | WasCancelled | LeaseWasLost | ShuttingDown | Failure(error: ErrorBody)

  datatype Exit =
    | Idle
    | Stored(result: JobResult) | CancelledJob | FailedJob(error: ErrorBody)
    | LeaseGone | HeartbeatBroke | ShutDown | ReportRefused | FailRefused

  const INTERNAL: ErrorBody := ErrorBody("INTERNAL_ERROR", "Operation failed")
  const DEADLINE: ErrorBody := ErrorBody("OPERATION_FAILED", "Operation exceeded its execution deadline")
  const STARTED: EventText := EventText(INFO, "Job started")
  const SUCCEEDED_TEXT: EventText := EventText(INFO, "Job succeeded")
  const PARTIAL_TEXT: EventText := EventText(WARNING, "Job completed with partial failure")
  const CANCELLED_TEXT: EventText := EventText(WARNING, "Job cancelled")
  const FAILED_TEXT: EventText := EventText(ERROR, "Job failed")

  /** The first thing the child says or does that ends the wait for it. */
  function FirstEnd(turns: seq<Turn>): Option<Happening> {
    if |turns| == 0 then None
    else if turns[0].what.ChildSends? || turns[0].what.ChildExits? then Some(turns[0].what)
    else FirstEnd(turns[1..])
  }

  predicate Happened(turns: seq<Turn>, what: Happening) {
    exists k :: 0 <= k < |turns| && turns[k].what == what
  }

  /** Why the job may be reported failed: the child's own error, a child that ended without an answer, or the
      deadline. */
  predicate Excused(turns: seq<Turn>, error: ErrorBody) {
    || FirstEnd(turns) == Some(ChildSends(SafeError(error)))
    || (error == INTERNAL && (match FirstEnd(turns)
                              case Some(ChildSends(Done(_))) => false
                              case Some(ChildSends(SafeError(_))) => false
                              case _ => true))
    || (error == DEADLINE && (Happened(turns, ParentPolls(false, true)) || Happened(turns, ParentPolls(true, true))))
  }

  predicate StopSeen(turns: seq<Turn>) {
    Happened(turns, ParentPolls(true, false)) || Happened(turns, ParentPolls(true, true))
  }

  /** An outcome the turns account for. */
  predicate Told(turns: seq<Turn>, kind: JobKind, outcome: Outcome) {
    match outcome
    case Succeeded(result) => FirstEnd(turns) == Some(ChildSends(Done(result)))
    case Failure(error) => Excused(turns, error)
    case ShuttingDown => StopSeen(turns) && kind != SECRET_ROTATION
    case _ => true
  }

  // ---- what the parent makes of the turns, on the tables ------------------------------------------------------------

  /** `assert_lease`. */
  function StateOf(db: Db, l: Lease, now: int): Option<JobState> {
    if l.job < |db.jobs| && LiveLease(db.jobs[l.job], l.worker, l.generation, now) then Some(db.jobs[l.job].state)
    else None
  }

  /** `check_cancelled`: why the job must not go on, if it must not. */
  function StopOf(db: Db, l: Lease, now: int): Option<Outcome> {
    match StateOf(db, l, now)
    case None => Some(LeaseWasLost)
    case Some(state) => if state == CANCEL_REQUESTED then Some(WasCancelled) else None
  }

  /** The child's message, decoded; a success counts only if the lease is current and no cancellation is requested. */
  function HearOf(db: Db, l: Lease, message: Message, now: int): Outcome {
    match message
    case Done(result) => (match StopOf(db, l, now) case Some(stop) => stop case None => Succeeded(result))
    case SafeError(error) => Failure(error)
    case _ => Failure(INTERNAL)
  }

  /** One look of the parent. */
  function PollOf(db: Db, l: Lease, kind: JobKind, stopping: bool, expired: bool, lost: bool, now: int): Option<Outcome>
  {
    var deadline := if expired then Some(Failure(DEADLINE)) else None;
    if kind == SECRET_ROTATION then deadline
    else if stopping then Some(ShuttingDown)
    else if lost then Some(LeaseWasLost)
    else match StopOf(db, l, now) case Some(stop) => Some(stop) case None => deadline
  }

  /** After a turn: the outcome, if it ends the wait, the heartbeat's flags, and the tables. */
  datatype Glance = Glance(stop: Option<Outcome>, lost: bool, broke: bool, db: Db)

  function GlanceOf(db: Db, l: Lease, kind: JobKind, what: Happening, now: int, lost: bool, broke: bool,
                    seconds: int): Glance
  {
    match what
    case ChildSends(message) => Glance(Some(HearOf(db, l, message, now)), lost, broke, db)
    case ChildChecks => Glance(StopOf(db, l, now), lost, broke, db)
    case ChildExits => Glance(Some(Failure(INTERNAL)), lost, broke, db)
    case HeartbeatRenews =>
      var renew := RenewLease(l.job, l.worker, l.generation, seconds);
      if lost then Glance(None, lost, broke, db)
      else Glance(None, Decide(db, now, renew).Refuse?, broke, Do(db, now, renew))
    case HeartbeatBreaks => Glance(None, true, broke || !lost, db)
    case ParentPolls(stopping, expired) => Glance(PollOf(db, l, kind, stopping, expired, lost, now), lost, broke, db)
  }

  /** How the wait ended: the outcome, the last clock reading, the heartbeat's flags, and the tables. */
  datatype Watch = Watch(outcome: Outcome, clock: int, lost: bool, broke: bool, db: Db)

  function Watched(db: Db, l: Lease, kind: JobKind, turns: seq<Turn>, clock: int, lost: bool, broke: bool,
                   seconds: int): Watch
    decreases |turns|
  {
    if |turns| == 0 then Watch(Failure(INTERNAL), clock, lost, broke, db)
    else
      var beat := turns[0].beat;
      var g := GlanceOf(Run(db, beat.others), l, kind, turns[0].what, beat.now, lost, broke, seconds);
      if g.stop.Some? then Watch(g.stop.value, beat.now, g.lost, g.broke, g.db)
      else Watched(g.db, l, kind, turns[1..], beat.now, g.lost, g.broke, seconds)
  }

  /** The worker's last sign of life after this turn: a renewal that is accepted counts as one. */
  function Sign(what: Happening, now: int, lost: bool, nowLost: bool, last: int): int {
    if what.HeartbeatRenews? && !lost && !nowLost then now else last
  }

  /** The same after all turns up to the one that ends the wait. */
  function LastSign(db: Db, l: Lease, kind: JobKind, turns: seq<Turn>, lost: bool, broke: bool, seconds: int,
                    last: int): int
    decreases |turns|
  {
    if |turns| == 0 then last
    else
      var beat := turns[0].beat;
      var g := GlanceOf(Run(db, beat.others), l, kind, turns[0].what, beat.now, lost, broke, seconds);
      var sign := Sign(turns[0].what, beat.now, lost, g.lost, last);
      if g.stop.Some? then sign else LastSign(g.db, l, kind, turns[1..], g.lost, g.broke, seconds, sign)
  }

  /** The lease `claim_next` grants: on the job that has waited longest, under its next generation. */
  function Granted(db: Db, b: Beat, worker: string): Option<Lease> {
    var before := Run(db, b.others);
    var waiting := Waiting(before, b.now);
    if waiting == [] then None else Some(Lease(waiting[0], worker, before.jobs[waiting[0]].generation + 1))
  }

  function StartOp(l: Lease): Op {
    AppendEvent(l.job, STARTED, Some(l.worker), Some(l.generation))
  }

  /** The start event is accepted. */
  predicate Starts(db: Db, l: Lease, s: Schedule) {
    StateOf(Run(db, s.start.others), l, s.start.now).Some?
  }

  /** The wait for the handler of a job that was claimed, leaving the tables `db`. */
  function Watching(db: Db, l: Lease, s: Schedule, seconds: int): Watch
    requires Starts(db, l, s)
  {
    var before := Run(db, s.start.others);
    Watched(Do(before, s.start.now, StartOp(l)), l, before.jobs[l.job].request.Kind(), s.turns, s.start.now, false,
            false, seconds)
  }

  /** The last sign of life of a pass: its begin, or the last renewal accepted while it waited. */
  function SignOfLife(db: Db, l: Lease, s: Schedule, seconds: int): int {
    if !Starts(db, l, s) then s.claim.now
    else
      var before := Run(db, s.start.others);
      LastSign(Do(before, s.start.now, StartOp(l)), l, before.jobs[l.job].request.Kind(), s.turns, false, false,
               seconds, s.claim.now)
  }

  // ---- what is reported after the wait, on the tables --------------------------------------------------------------

  /** How the pass ends: the way of returning, the last clock reading before it, and the tables. */
  datatype Ending = Ending(exit: Exit, at: int, db: Db)

  function ReportOp(l: Lease, expected: JobState, target: JobState, result: Option<JobResult>, error: Option<ErrorBody>,
                    text: EventText): Op
  {
    Op.Transition(l.job, expected, target, result, error, Some(text), Some(l.worker), Some(l.generation))
  }

  function SuccessOp(l: Lease, result: JobResult): Op {
    ReportOp(l, RUNNING, if result.partial then PARTIAL_FAILURE else SUCCEEDED, Some(result), None,
             if result.partial then PARTIAL_TEXT else SUCCEEDED_TEXT)
  }

  /** One report, after others acted: accepted or not. */
  function Reporting(db: Db, b: Beat, op: Op, accepted: Exit, refused: Exit): Ending {
    var meanwhile := Run(db, b.others);
    Ending(if Decide(meanwhile, b.now, op).Commit? then accepted else refused, b.now, Do(meanwhile, b.now, op))
  }

  function Cancelled(db: Db, l: Lease, b: Beat): Ending {
    Reporting(db, b, ReportOp(l, CANCEL_REQUESTED, CANCELLED, None, None, CANCELLED_TEXT), CancelledJob, ReportRefused)
  }

  /** `_finalize_won_cancellation`. */
  function Finalized(db: Db, l: Lease, s: Schedule): Ending {
    var meanwhile := Run(db, s.settle.others);
    if StateOf(meanwhile, l, s.settle.now) == Some(CANCEL_REQUESTED) then Cancelled(meanwhile, l, s.finish)
    else Ending(ReportRefused, s.settle.now, meanwhile)
  }

  function SuccessReported(db: Db, l: Lease, s: Schedule, result: JobResult): Ending {
    var first := Reporting(db, s.report, SuccessOp(l, result), Stored(result), ReportRefused);
    if first.exit.Stored? then first else Finalized(first.db, l, s)
  }

  /** `_fail`. */
  function Failed(db: Db, l: Lease, s: Schedule, error: ErrorBody): Ending {
    var meanwhile := Run(db, s.settle.others);
    match StateOf(meanwhile, l, s.settle.now)
    case None => Ending(FailRefused, s.settle.now, meanwhile)
    case Some(state) =>
      Reporting(meanwhile, s.finish, ReportOp(l, state, FAILED, None, Some(error), FAILED_TEXT), FailedJob(error),
                FailRefused)
  }

  function GivenUp(broke: bool): Exit {
    if broke then HeartbeatBroke else LeaseGone
  }

  /** After a success came out of the wait: the last check, then the report. */
  function Completed(w: Watch, l: Lease, s: Schedule, result: JobResult): Ending {
    var meanwhile := Run(w.db, s.check.others);
    if w.lost then Ending(GivenUp(w.broke), w.clock, meanwhile)
    else
      match StateOf(meanwhile, l, s.check.now)
      case None => Ending(LeaseGone, s.check.now, meanwhile)
      case Some(state) =>
        if state == CANCEL_REQUESTED then Cancelled(meanwhile, l, s.finish)
        else SuccessReported(meanwhile, l, s, result)
  }

  /** What follows the wait. */
  function Concluded(w: Watch, l: Lease, s: Schedule): Ending {
    match w.outcome
    case Succeeded(result) => Completed(w, l, s, result)
    case WasCancelled => Cancelled(w.db, l, s.finish)
    case LeaseWasLost => Ending(GivenUp(w.broke), w.clock, w.db)
    case ShuttingDown => Ending(ShutDown, w.clock, w.db)
    case Failure(error) => Failed(w.db, l, s, error)
  }

  /** Everything that follows a claim which left the tables `db`. */
  function Executed(db: Db, l: Lease, s: Schedule, seconds: int): Ending {
    if !Starts(db, l, s) then
      var before := Run(db, s.start.others);
      Ending(LeaseGone, s.start.now, Do(before, s.start.now, StartOp(l)))
    else Concluded(Watching(db, l, s, seconds), l, s)
  }

  /** What a single happening accounts for. */
  predicate ToldBy(what: Happening, kind: JobKind, outcome: Outcome) {
    match outcome
    case Succeeded(result) => what == ChildSends(Done(result))
    case Failure(error) =>
      || what == ChildSends(SafeError(error))
      || (error == INTERNAL && (what.ChildExits? ||
                                (what.ChildSends? && !what.message.Done? && !what.message.SafeError?)))
      || (error == DEADLINE && what.ParentPolls? && what.expired)
    case ShuttingDown => what.ParentPolls? && what.stopping && kind != SECRET_ROTATION
    case _ => true
  }

  // ---- what the outcome says about the job -------------------------------------------------------------------------

  /** The heartbeat's flag and the outcome report a lost lease or a cancellation only if the table shows it, unless the
      heartbeat broke. */
  ghost predicate Truthful(db: Db, l: Lease, stop: Option<Outcome>, lost: bool, broke: bool, now: int) {
    && l.job < |db.jobs| && Known(db.jobs[l.job], l)
    && (lost && !broke ==> Lost(db.jobs[l.job], l, now))
    && (stop == Some(LeaseWasLost) && !broke ==> Lost(db.jobs[l.job], l, now))
    && (stop == Some(WasCancelled) ==> Cancelling(db.jobs[l.job], l))
  }

  lemma RenewSound(db: Db, l: Lease, now: int, seconds: int)
    requires l.job < |db.jobs| && Known(db.jobs[l.job], l) && seconds > 0
    ensures var renew := RenewLease(l.job, l.worker, l.generation, seconds);
            var after := Do(db, now, renew);
            && l.job < |after.jobs| && Known(after.jobs[l.job], l)
            && (Decide(db, now, renew).Refuse? ==> Lost(after.jobs[l.job], l, now))
            && (Decide(db, now, renew).Commit? ==>
                  HeldBy(after.jobs[l.job], l) && !Lost(after.jobs[l.job], l, now))
  {
    if LiveLease(db.jobs[l.job], l.worker, l.generation, now) { SoundOne(db, now, Edit.Renew(l.job, seconds)); }
  }

  lemma GlanceSound(db: Db, l: Lease, kind: JobKind, what: Happening, now: int, lost: bool, broke: bool, seconds: int)
    requires Truthful(db, l, None, lost, broke, now) && seconds > 0
    ensures var g := GlanceOf(db, l, kind, what, now, lost, broke, seconds);
            && Truthful(g.db, l, g.stop, g.lost, g.broke, now)
            && (g.broke && !broke ==> what.HeartbeatBreaks?)
  {
    if what.HeartbeatRenews? { RenewSound(db, l, now, seconds); }
  }

  lemma GlanceTold(db: Db, l: Lease, kind: JobKind, what: Happening, now: int, lost: bool, broke: bool, seconds: int)
    ensures var g := GlanceOf(db, l, kind, what, now, lost, broke, seconds);
            && (g.stop.Some? ==> ToldBy(what, kind, g.stop.value))
            && (g.stop.None? ==> !what.ChildSends? && !what.ChildExits?)
  {
  }

  lemma {:induction false} ToldFirst(turns: seq<Turn>, kind: JobKind, outcome: Outcome)
    requires |turns| > 0 && ToldBy(turns[0].what, kind, outcome)
    ensures Told(turns, kind, outcome)
  {
    assert Happened(turns, turns[0].what);
  }

  lemma {:induction false} ToldLater(turns: seq<Turn>, kind: JobKind, outcome: Outcome)
    requires |turns| > 0 && !turns[0].what.ChildSends? && !turns[0].what.ChildExits? && Told(turns[1..], kind, outcome)
    ensures Told(turns, kind, outcome)
  {
    forall what | Happened(turns[1..], what) ensures Happened(turns, what) { HappenedLater(turns, what); }
  }

  lemma {:induction false} HappenedLater(turns: seq<Turn>, what: Happening)
    requires |turns| > 0 && Happened(turns[1..], what)
    ensures Happened(turns, what)
  {
    var k :| 0 <= k < |turns[1..]| && turns[1..][k].what == what;
    assert turns[k + 1].what == what;
  }

  /** The outcome of the wait is accounted for by what happened, reports a lost lease or a cancellation only if true in
      the table at its clock reading, and blames the heartbeat only if it broke. */
  lemma {:induction false} WatchSound(db: Db, l: Lease, kind: JobKind, turns: seq<Turn>, clock: int, lost: bool,
                                      broke: bool, seconds: int)
    requires TurnsEnsue(turns, clock, l.worker) && seconds > 0 && Truthful(db, l, None, lost, broke, clock)
    ensures var w := Watched(db, l, kind, turns, clock, lost, broke, seconds);
            && clock <= w.clock <= EndOf(turns, clock)
            && Truthful(w.db, l, Some(w.outcome), w.lost, w.broke, w.clock)
            && Told(turns, kind, w.outcome)
            && (w.broke && !broke ==> Happened(turns, HeartbeatBreaks))
    decreases |turns|
  {
    if |turns| > 0 {
      var beat, what := turns[0].beat, turns[0].what;
      var before := Run(db, beat.others);
      var g := GlanceOf(before, l, kind, what, beat.now, lost, broke, seconds);
      OthersPersist(db, beat.others, l, clock);
      GlanceSound(before, l, kind, what, beat.now, lost, broke, seconds);
      GlanceTold(before, l, kind, what, beat.now, lost, broke, seconds);
      TurnsEnd(turns[1..], beat.now, l.worker);
      assert what == HeartbeatBreaks ==> Happened(turns, HeartbeatBreaks);
      if g.stop.Some? {
        ToldFirst(turns, kind, g.stop.value);
      } else {
        WatchSound(g.db, l, kind, turns[1..], beat.now, g.lost, g.broke, seconds);
        WatchLater(turns, kind, Watched(g.db, l, kind, turns[1..], beat.now, g.lost, g.broke, seconds));
      }
    }
  }

  lemma {:induction false} WatchLater(turns: seq<Turn>, kind: JobKind, w: Watch)
    requires |turns| > 0 && !turns[0].what.ChildSends? && !turns[0].what.ChildExits?
    requires Told(turns[1..], kind, w.outcome)
    ensures Told(turns, kind, w.outcome)
    ensures Happened(turns[1..], HeartbeatBreaks) ==> Happened(turns, HeartbeatBreaks)
  {
    ToldLater(turns, kind, w.outcome);
    if Happened(turns[1..], HeartbeatBreaks) { HappenedLater(turns, HeartbeatBreaks); }
  }

  class ControllerWorker {
    const store: ControllerStore
    const workerId: string
    const leaseSeconds: int
    var consecutiveFailures: nat
    var lastHeartbeat: int

    constructor (store: ControllerStore, workerId: string, leaseSeconds: int)
      requires leaseSeconds > 0
      ensures this.store == store && this.workerId == workerId && this.leaseSeconds == leaseSeconds
    {
      this.store, this.workerId, this.leaseSeconds := store, workerId, leaseSeconds;
      consecutiveFailures, lastHeartbeat := 0, 0;
    }

    ghost predicate Owns(l: Lease)
      reads store
    {
      store.Valid() && l.worker == workerId && l.job < |store.jobs| && Known(store.jobs[l.job], l)
    }

    method RecordSuccess(now: int)
      modifies this
      ensures consecutiveFailures == 0 && lastHeartbeat == now
    {
      consecutiveFailures, lastHeartbeat := 0, now;
    }

    /** Others act until our clock is read again. */
    method Await(l: Lease, b: Beat, since: int)
      requires Owns(l) && Ensues(b, since, workerId)
      modifies store
      ensures Owns(l)
      ensures Persists(old(store.jobs)[l.job], store.jobs[l.job], l, since)
      ensures Lost(old(store.jobs)[l.job], l, since) ==> Lost(store.jobs[l.job], l, b.now)
      ensures store.Tables() == Run(old(store.Tables()), b.others)
    {
      OthersPersist(store.Tables(), b.others, l, since);
      store.Others(b.others);
    }

    /** `check_cancelled` against the store: None when the lease is not current. */
    method Check(l: Lease, now: int) returns (state: Option<JobState>)
      requires Owns(l)
      ensures state.None? ==> Lost(store.jobs[l.job], l, now)
      ensures state.Some? ==> HeldBy(store.jobs[l.job], l) && !Lost(store.jobs[l.job], l, now)
                              && state.value == store.jobs[l.job].state && Leased(state.value)
      ensures state == StateOf(store.Tables(), l, now)
    {
      state := store.AssertLease(now, l.job, l.worker, l.generation);
    }

    /** A fenced transition: accepted exactly when the lease is current and the state is the expected one. */
    method Report(l: Lease, now: int, expected: JobState, target: JobState, result: Option<JobResult>,
                  error: Option<ErrorBody>, text: EventText) returns (ok: bool)
      requires Owns(l) && Leased(expected) && target in Transitions(expected) && Terminal(target) && ValidEvent(text)
      modifies store
      ensures Owns(l)
      ensures ok <==> (HeldBy(old(store.jobs)[l.job], l) && !Lost(old(store.jobs)[l.job], l, now)
                       && old(store.jobs)[l.job].state == expected)
      ensures ok ==> var row := store.jobs[l.job];
                     row.state == target && row.result == result && row.error == error && row.generation == l.generation
      ensures !ok ==> store.Tables() == old(store.Tables())
      ensures var op := ReportOp(l, expected, target, result, error, text);
              && store.Tables() == Do(old(store.Tables()), now, op)
              && (ok <==> Decide(old(store.Tables()), now, op).Commit?)
    {
      ghost var op := ReportOp(l, expected, target, result, error, text);
      ghost var before := store.Tables();
      var reply := store.Transition(now, l.job, expected, target, result, error, Some(text), Some(l.worker),
                                    Some(l.generation));
      ok := reply.Accepted?;
      if ok {
        SoundOne(before, now, DecideTransition(before, now, op).edits[0]);
      }
    }

    /** The parent's and the heartbeat's view while the isolated child runs. */
    method RunIsolated(l: Lease, kind: JobKind, turns: seq<Turn>, since: int)
      returns (outcome: Outcome, clock: int, leaseLost: bool, broke: bool)
      requires Owns(l) && TurnsEnsue(turns, since, workerId) && leaseSeconds > 0
      requires consecutiveFailures == 0 && lastHeartbeat <= since
      modifies this, store
      ensures consecutiveFailures == 0 && old(lastHeartbeat) <= lastHeartbeat <= clock
      ensures lastHeartbeat
           == LastSign(old(store.Tables()), l, kind, turns, false, false, leaseSeconds, old(lastHeartbeat))
      ensures Owns(l) && since <= clock <= EndOf(turns, since)
      ensures leaseLost && !broke ==> Lost(store.jobs[l.job], l, clock)
      ensures outcome.LeaseWasLost? && !broke ==> Lost(store.jobs[l.job], l, clock)
      ensures outcome.WasCancelled? ==> Cancelling(store.jobs[l.job], l)
      ensures Told(turns, kind, outcome)
      ensures broke ==> Happened(turns, HeartbeatBreaks)
      ensures Watch(outcome, clock, leaseLost, broke, store.Tables())
           == Watched(old(store.Tables()), l, kind, turns, since, false, false, leaseSeconds)
    {
      WatchSound(store.Tables(), l, kind, turns, since, false, false, leaseSeconds);
      outcome, clock, leaseLost, broke := WatchTurns(l, kind, turns, since);
    }

    /** The polling loop. */
    method WatchTurns(l: Lease, kind: JobKind, turns: seq<Turn>, since: int)
      returns (outcome: Outcome, clock: int, leaseLost: bool, broke: bool)
      requires Owns(l) && TurnsEnsue(turns, since, workerId) && leaseSeconds > 0
      requires consecutiveFailures == 0 && lastHeartbeat <= since
      modifies this, store
      ensures Owns(l) && consecutiveFailures == 0 && old(lastHeartbeat) <= lastHeartbeat <= clock
      ensures lastHeartbeat
           == LastSign(old(store.Tables()), l, kind, turns, false, false, leaseSeconds, old(lastHeartbeat))
      ensures Watch(outcome, clock, leaseLost, broke, store.Tables())
           == Watched(old(store.Tables()), l, kind, turns, since, false, false, leaseSeconds)
    {
      clock, leaseLost, broke := since, false, false;
      ghost var watched := Watched(store.Tables(), l, kind, turns, since, false, false, leaseSeconds);
      ghost var sign := LastSign(store.Tables(), l, kind, turns, false, false, leaseSeconds, lastHeartbeat);
      var rest, stop: Option<Outcome> := turns, None;
      while |rest| > 0 && stop.None?
        invariant Owns(l) && consecutiveFailures == 0 && old(lastHeartbeat) <= lastHeartbeat <= clock
        invariant stop.None? ==> TurnsEnsue(rest, clock, workerId)
        invariant watched == if stop.Some? then Watch(stop.value, clock, leaseLost, broke, store.Tables())
                             else Watched(store.Tables(), l, kind, rest, clock, leaseLost, broke, leaseSeconds)
        invariant sign == if stop.Some? then lastHeartbeat
                          else LastSign(store.Tables(), l, kind, rest, leaseLost, broke, leaseSeconds, lastHeartbeat)
        decreases |rest|
      {
        var turn := rest[0];
        stop, leaseLost, broke := TakeTurn(l, kind, turn, clock, leaseLost, broke);
        clock, rest := turn.beat.now, rest[1..];
      }
      outcome := if stop.Some? then stop.value else Failure(INTERNAL);
    }

    /** Others act, our clock is read, and one thing happens. */
    method TakeTurn(l: Lease, kind: JobKind, turn: Turn, since: int, leaseLost: bool, broke: bool)
      returns (stop: Option<Outcome>, nowLost: bool, nowBroke: bool)
      requires Owns(l) && Ensues(turn.beat, since, workerId) && leaseSeconds > 0
      requires consecutiveFailures == 0 && lastHeartbeat <= since
      modifies this, store
      ensures Owns(l) && consecutiveFailures == 0 && old(lastHeartbeat) <= lastHeartbeat <= turn.beat.now
      ensures lastHeartbeat == Sign(turn.what, turn.beat.now, leaseLost, nowLost, old(lastHeartbeat))
      ensures Glance(stop, nowLost, nowBroke, store.Tables())
           == GlanceOf(Run(old(store.Tables()), turn.beat.others), l, kind, turn.what, turn.beat.now, leaseLost, broke,
                       leaseSeconds)
    {
      Await(l, turn.beat, since);
      stop, nowLost, nowBroke := Happen(l, kind, turn.what, turn.beat.now, leaseLost, broke);
    }

    method Happen(l: Lease, kind: JobKind, what: Happening, now: int, leaseLost: bool, broke: bool)
      returns (stop: Option<Outcome>, nowLost: bool, nowBroke: bool)
      requires Owns(l) && leaseSeconds > 0 && consecutiveFailures == 0 && lastHeartbeat <= now
      modifies this, store
      ensures Owns(l) && consecutiveFailures == 0 && old(lastHeartbeat) <= lastHeartbeat <= now
      ensures lastHeartbeat == Sign(what, now, leaseLost, nowLost, old(lastHeartbeat))
      ensures Glance(stop, nowLost, nowBroke, store.Tables())
           == GlanceOf(old(store.Tables()), l, kind, what, now, leaseLost, broke, leaseSeconds)
    {
      stop, nowLost, nowBroke := None, leaseLost, broke;
      match what
      case ChildSends(message) =>
        var outcome := Hear(l, message, now);
        stop := Some(outcome);
      case ChildChecks => stop := Stops(l, now);
      case ChildExits => stop := Some(Failure(INTERNAL));
      case HeartbeatRenews =>
        if !leaseLost { nowLost := Pulse(l, now); }
      case HeartbeatBreaks => nowLost, nowBroke := true, broke || !leaseLost;
      case ParentPolls(stopping, expired) => stop := Poll(l, kind, stopping, expired, leaseLost, now);
    }

    /** One heartbeat, and the sign of life when it is accepted. */
    method Pulse(l: Lease, now: int) returns (lost: bool)
      requires Owns(l) && leaseSeconds > 0 && consecutiveFailures == 0 && lastHeartbeat <= now
      modifies this, store
      ensures Owns(l) && consecutiveFailures == 0
      ensures lastHeartbeat == if lost then old(lastHeartbeat) else now
      ensures var renew := RenewLease(l.job, l.worker, l.generation, leaseSeconds);
              && (lost <==> Decide(old(store.Tables()), now, renew).Refuse?)
              && store.Tables() == Do(old(store.Tables()), now, renew)
    {
      lost := Renew(l, now);
      if !lost { RecordSuccess(now); }
    }

    method Hear(l: Lease, message: Message, now: int) returns (outcome: Outcome)
      requires Owns(l)
      ensures outcome == HearOf(store.Tables(), l, message, now)
    {
      match message
      case Done(result) =>
        var stop := Stops(l, now);
        outcome := if stop.Some? then stop.value else Succeeded(result);
      case SafeError(error) => outcome := Failure(error);
      case _ => outcome := Failure(INTERNAL);
    }

    method Stops(l: Lease, now: int) returns (stop: Option<Outcome>)
      requires Owns(l)
      ensures stop == StopOf(store.Tables(), l, now)
    {
      var state := Check(l, now);
      stop := if state.None? then Some(LeaseWasLost)
              else if state.value == CANCEL_REQUESTED then Some(WasCancelled) else None;
    }

    method Poll(l: Lease, kind: JobKind, stopping: bool, expired: bool, leaseLost: bool, now: int)
      returns (stop: Option<Outcome>)
      requires Owns(l)
      ensures stop == PollOf(store.Tables(), l, kind, stopping, expired, leaseLost, now)
    {
      if stopping && kind != SECRET_ROTATION { return Some(ShuttingDown); }
      if kind != SECRET_ROTATION {
        if leaseLost { return Some(LeaseWasLost); }
        stop := Stops(l, now);
        if stop.Some? { return; }
      }
      stop := if expired then Some(Failure(DEADLINE)) else None;
    }

    /** One heartbeat; true when the store says the lease is not current. */
    method Renew(l: Lease, now: int) returns (lost: bool)
      requires Owns(l) && leaseSeconds > 0
      modifies store
      ensures Owns(l)
      ensures lost ==> Lost(store.jobs[l.job], l, now)
      ensures !lost ==> HeldBy(store.jobs[l.job], l) && !Lost(store.jobs[l.job], l, now)
      ensures !lost ==> store.jobs[l.job].leaseExpiry == Some(now + leaseSeconds * 1_000_000)
      ensures var renew := RenewLease(l.job, l.worker, l.generation, leaseSeconds);
              && (lost <==> Decide(old(store.Tables()), now, renew).Refuse?)
              && store.Tables() == Do(old(store.Tables()), now, renew)
    {
      RenewSound(store.Tables(), l, now, leaseSeconds);
      RenewalExact(store.Tables(), now, l.job, l.worker, l.generation, leaseSeconds);
      var reply := store.RenewLease(now, l.job, l.worker, l.generation, leaseSeconds);
      lost := reply.Refused?;
    }

    /** The cancellation report after the handler stopped for it. */
    method FinishCancel(l: Lease, b: Beat, since: int) returns (exit: Exit)
      requires Owns(l) && Ensues(b, since, workerId) && Cancelling(store.jobs[l.job], l)
      modifies store
      ensures Owns(l)
      ensures exit == CancelledJob ==> store.jobs[l.job].state == CANCELLED
      ensures exit != CancelledJob ==> exit == ReportRefused && Lost(store.jobs[l.job], l, b.now)
      ensures Ending(exit, b.now, store.Tables()) == Cancelled(old(store.Tables()), l, b)
    {
      Await(l, b, since);
      var ok := Report(l, b.now, CANCEL_REQUESTED, CANCELLED, None, None, CANCELLED_TEXT);
      exit := if ok then CancelledJob else ReportRefused;
    }

    /** `_finalize_won_cancellation`: the success report was refused. If the lease is still current the only
        possible cause is a cancellation, and it is finalised. */
    method FinalizeWonCancellation(l: Lease, s: Schedule, since: int) returns (exit: Exit, at: int)
      requires Owns(l) && Ensues(s.settle, since, workerId) && Ensues(s.finish, s.settle.now, workerId)
      requires Cancelling(store.jobs[l.job], l) || Lost(store.jobs[l.job], l, since)
      modifies store
      ensures Owns(l)
      ensures exit == CancelledJob ==> store.jobs[l.job].state == CANCELLED
      ensures exit != CancelledJob ==> exit == ReportRefused && Lost(store.jobs[l.job], l, at)
      ensures at == s.settle.now || at == s.finish.now
      ensures Ending(exit, at, store.Tables()) == Finalized(old(store.Tables()), l, s)
    {
      Await(l, s.settle, since);
      at := s.settle.now;
      var state := Check(l, at);
      if state == Some(CANCEL_REQUESTED) {
        exit := FinishCancel(l, s.finish, at);
        at := s.finish.now;
      } else {
        exit := ReportRefused;
      }
    }

    /** `_fail`: refused only when the lease is gone or a cancellation arrived after the state was read. */
    method Fail(l: Lease, s: Schedule, since: int, error: ErrorBody) returns (exit: Exit, at: int)
      requires Owns(l) && Ensues(s.settle, since, workerId) && Ensues(s.finish, s.settle.now, workerId)
      modifies store
      ensures Owns(l)
      ensures exit == FailedJob(error) ==> store.jobs[l.job].state == FAILED && store.jobs[l.job].error == Some(error)
      ensures exit != FailedJob(error) ==> exit == FailRefused
      ensures exit == FailRefused ==>
                || Lost(store.jobs[l.job], l, at)
                || (store.jobs[l.job].state == CANCEL_REQUESTED
                    && StateOf(Run(old(store.Tables()), s.settle.others), l, s.settle.now) == Some(RUNNING))
      ensures at == s.settle.now || at == s.finish.now
      ensures Ending(exit, at, store.Tables()) == Failed(old(store.Tables()), l, s, error)
    {
      Await(l, s.settle, since);
      at := s.settle.now;
      var state := Check(l, at);
      if state.None? { return FailRefused, at; }
      Await(l, s.finish, at);
      at := s.finish.now;
      var ok := Report(l, at, state.value, FAILED, None, Some(error), FAILED_TEXT);
      exit := if ok then FailedJob(error) else FailRefused;
    }

    /** `claim_next`, and the lease it grants; none is granted exactly when nobody waits. */
    method ClaimOne(b: Beat) returns (claimed: Option<Lease>)
      requires store.Valid() && leaseSeconds > 0
      modifies store
      ensures store.Valid()
      ensures claimed == Granted(old(store.Tables()), b, workerId)
      ensures store.Tables() == Do(Run(old(store.Tables()), b.others), b.now, ClaimNext(workerId, leaseSeconds))
      ensures claimed.Some? ==> Owns(claimed.value) && HeldBy(store.jobs[claimed.value.job], claimed.value)
                                && store.jobs[claimed.value.job].state == RUNNING
      ensures claimed.None? ==> Waiting(store.Tables(), b.now) == []
    {
      store.Others(b.others);
      claimed := ClaimHead(b.now);
    }

    method ClaimHead(now: int) returns (claimed: Option<Lease>)
      requires store.Valid() && leaseSeconds > 0
      modifies store
      ensures store.Valid()
      ensures store.Tables() == Do(old(store.Tables()), now, ClaimNext(workerId, leaseSeconds))
      ensures Claims(old(store.Tables()), store.Tables(), now, workerId, claimed)
    {
      ClaimsHead(store.Tables(), now, workerId, leaseSeconds);
      var reply := store.ClaimNext(now, workerId, leaseSeconds);
      claimed := LeaseFrom(reply.marks, store.jobs, workerId);
    }

    method LogStart(l: Lease, b: Beat, since: int) returns (logged: bool)
      requires Owns(l) && Ensues(b, since, workerId)
      modifies store
      ensures Owns(l)
      ensures !logged ==> Lost(store.jobs[l.job], l, b.now)
      ensures logged <==> StateOf(Run(old(store.Tables()), b.others), l, b.now).Some?
      ensures store.Tables() == Do(Run(old(store.Tables()), b.others), b.now, StartOp(l))
    {
      Await(l, b, since);
      ghost var before := store.Tables();
      var reply := store.AppendEvent(b.now, l.job, STARTED, Some(l.worker), Some(l.generation));
      StartLogged(before, b.now, l);
      logged := reply.Accepted?;
    }

    /** The success report, and what follows when it is refused. */
    method ReportSuccess(l: Lease, s: Schedule, result: JobResult) returns (exit: Exit, at: int)
      requires Owns(l) && InOrder(s, workerId) && FirstEnd(s.turns) == Some(ChildSends(Done(result)))
      modifies store
      ensures Owns(l) && Settles(l, s, exit, at, store.jobs[l.job]) && s.report.now <= at <= s.finish.now
      ensures exit == Stored(result) || exit == CancelledJob || exit == ReportRefused
      ensures WonBefore(old(store.Tables()), l, s.report) ==> exit == CancelledJob || Lost(store.jobs[l.job], l, at)
      ensures Ending(exit, at, store.Tables()) == SuccessReported(old(store.Tables()), l, s, result)
    {
      Await(l, s.report, s.check.now);
      at := s.report.now;
      var ok := Report(l, at, RUNNING, if result.partial then PARTIAL_FAILURE else SUCCEEDED, Some(result), None,
                       if result.partial then PARTIAL_TEXT else SUCCEEDED_TEXT);
      if ok { return Stored(result), at; }
      exit, at := FinalizeWonCancellation(l, s, at);
    }

    /** After the isolated run: the last check, then the report that fits the outcome. */
    method Conclude(l: Lease, s: Schedule, kind: JobKind, outcome: Outcome, clock: int, leaseLost: bool, broke: bool)
      returns (exit: Exit, at: int)
      requires Told(s.turns, kind, outcome) && (broke ==> Happened(s.turns, HeartbeatBreaks))
      requires Owns(l) && InOrder(s, workerId) && clock <= EndOf(s.turns, s.start.now)
      requires leaseLost && !broke ==> Lost(store.jobs[l.job], l, clock)
      requires outcome.LeaseWasLost? && !broke ==> Lost(store.jobs[l.job], l, clock)
      requires outcome.WasCancelled? ==> Cancelling(store.jobs[l.job], l)
      modifies store
      ensures Owns(l) && Settles(l, s, exit, at, store.jobs[l.job]) && clock <= at <= s.finish.now
      ensures Ending(exit, at, store.Tables())
           == Concluded(Watch(outcome, clock, leaseLost, broke, old(store.Tables())), l, s)
    {
      at := clock;
      match outcome
      case Succeeded(result) =>
        assert Ensues(s.check, clock, workerId);
        Await(l, s.check, clock);
        if leaseLost { return if broke then HeartbeatBroke else LeaseGone, at; }
        at := s.check.now;
        var state := Check(l, at);
        if state.None? { return LeaseGone, at; }
        if state.value == CANCEL_REQUESTED {
          exit := FinishCancel(l, s.finish, at);
          at := s.finish.now;
        } else {
          exit, at := ReportSuccess(l, s, result);
        }
      case WasCancelled =>
        exit := FinishCancel(l, s.finish, s.check.now);
        at := s.finish.now;
      case LeaseWasLost => exit := if broke then HeartbeatBroke else LeaseGone;
      case ShuttingDown => exit := ShutDown;
      case Failure(error) => exit, at := Fail(l, s, s.report.now, error);
    }

    /** `run_once`, and the last reading of its clock. It claims the job that has waited longest, and none exactly when
        nobody waits. On return the claimed job is finished, or this worker no longer held a live lease on it at that
        reading, or the worker is shutting down, or its heartbeat failed for a reason other than the lease, or a
        cancellation slipped between `_fail`'s two steps and the job is still CANCEL_REQUESTED. Which of these it is
        follows from what the turns made of the tables. */
    method RunOnce(s: Schedule) returns (exit: Exit, lease: Option<Lease>, at: int)
      requires store.Valid() && leaseSeconds > 0 && Chronological(s, workerId)
      modifies this, store
      ensures store.Valid() && consecutiveFailures == 0 && s.claim.now <= lastHeartbeat <= at <= s.finish.now
      ensures lease == Granted(old(store.Tables()), s.claim, workerId)
      ensures exit.Idle? <==> lease.None?
      ensures lease.Some? ==> Owns(lease.value) && Settles(lease.value, s, exit, at, store.jobs[lease.value.job])
      ensures lastHeartbeat == if lease.None? then s.claim.now
                               else SignOfLife(AfterClaim(old(store.Tables()), s, workerId, leaseSeconds), lease.value,
                                               s, leaseSeconds)
      ensures lease.None? ==> store.Tables() == AfterClaim(old(store.Tables()), s, workerId, leaseSeconds)
      ensures lease.Some? ==>
                Ending(exit, at, store.Tables())
                == Executed(AfterClaim(old(store.Tables()), s, workerId, leaseSeconds), lease.value, s, leaseSeconds)
      ensures lease.Some? ==> var row, l := store.jobs[lease.value.job], lease.value;
                || Terminal(row.state)
                || !LiveLease(row, workerId, l.generation, at)
                || exit.ShutDown? || exit.HeartbeatBroke?
                || (exit.FailRefused? && row.state == CANCEL_REQUESTED)
    {
      InOrderHere(s, workerId);
      at := s.claim.now;
      RecordSuccess(at);
      lease := ClaimOne(s.claim);
      if lease.None? { return Idle, None, at; }
      exit, at := Execute(lease.value, s);
      SettledOrNotLive(lease.value, s, exit, at, store.jobs[lease.value.job]);
    }

    /** Everything `run_once` does with a job it has claimed. */
    method Execute(l: Lease, s: Schedule) returns (exit: Exit, at: int)
      requires Owns(l) && leaseSeconds > 0 && consecutiveFailures == 0 && lastHeartbeat == s.claim.now
      requires Ensues(s.start, s.claim.now, workerId) && TurnsEnsue(s.turns, s.start.now, workerId)
      requires InOrder(s, workerId) && s.start.now <= s.finish.now
      modifies this, store
      ensures Owns(l) && consecutiveFailures == 0 && s.claim.now <= lastHeartbeat <= at
      ensures Settles(l, s, exit, at, store.jobs[l.job]) && s.start.now <= at <= s.finish.now
      ensures Ending(exit, at, store.Tables()) == Executed(old(store.Tables()), l, s, leaseSeconds)
      ensures lastHeartbeat == SignOfLife(old(store.Tables()), l, s, leaseSeconds)
    {
      ghost var before := Run(store.Tables(), s.start.others);
      var logged := LogStart(l, s.start, s.claim.now);
      if !logged { return LeaseGone, s.start.now; }
      StartLogged(before, s.start.now, l);
      var kind := store.jobs[l.job].request.Kind();
      var outcome, clock, leaseLost, broke := RunIsolated(l, kind, s.turns, s.start.now);
      exit, at := Conclude(l, s, kind, outcome, clock, leaseLost, broke);
    }
  }

  function AfterClaim(db: Db, s: Schedule, worker: string, seconds: int): Db {
    Do(Run(db, s.claim.others), s.claim.now, ClaimNext(worker, seconds))
  }

  /** When the others are done, the job is being cancelled, or the lease is past. */
  predicate WonBefore(db: Db, l: Lease, b: Beat) {
    var meanwhile := Run(db, b.others);
    l.job < |meanwhile.jobs| && Cancelling(meanwhile.jobs[l.job], l)
  }

  /** The start event touches no job, and is accepted exactly under the lease. */
  lemma StartLogged(db: Db, now: int, l: Lease)
    requires l.job < |db.jobs|
    ensures var op := AppendEvent(l.job, STARTED, Some(l.worker), Some(l.generation));
            && Do(db, now, op).jobs == db.jobs
            && (Decide(db, now, op).Commit? <==> LiveLease(db.jobs[l.job], l.worker, l.generation, now))
  {
    if LiveLease(db.jobs[l.job], l.worker, l.generation, now) { SoundOne(db, now, Emit(l.job, STARTED)); }
  }

  lemma SettledOrNotLive(l: Lease, s: Schedule, exit: Exit, at: int, row: Row)
    requires Settles(l, s, exit, at, row)
    ensures || Terminal(row.state)
            || !LiveLease(row, l.worker, l.generation, at)
            || exit.ShutDown? || exit.HeartbeatBroke?
            || (exit.FailRefused? && row.state == CANCEL_REQUESTED)
  {
  }

  /** What each way of returning says about the job's row, `at` being the last clock reading before the return. */
  ghost predicate Settles(l: Lease, s: Schedule, exit: Exit, at: int, row: Row) {
    match exit
    case Idle => false
    case Stored(result) => FirstEnd(s.turns) == Some(ChildSends(Done(result)))
                           && row.generation == l.generation && row.result == Some(result)
                           && row.state == if result.partial then PARTIAL_FAILURE else SUCCEEDED
    case CancelledJob => row.state == CANCELLED
    case FailedJob(error) => row.state == FAILED && row.error == Some(error) && Excused(s.turns, error)
    case LeaseGone => Lost(row, l, at)
    case ReportRefused => Lost(row, l, at)
    case FailRefused => Lost(row, l, at) || row.state == CANCEL_REQUESTED
    case HeartbeatBroke => Happened(s.turns, HeartbeatBreaks)
    case ShutDown => StopSeen(s.turns)
  }

  /** The closing beats of a chronological schedule, each usable right after the turns. */
  predicate InOrder(s: Schedule, worker: string) {
    && EndOf(s.turns, s.start.now) <= s.check.now <= s.report.now <= s.settle.now <= s.finish.now
    && Ensues(s.check, EndOf(s.turns, s.start.now), worker)
    && Ensues(s.report, s.check.now, worker)
    && Ensues(s.settle, s.report.now, worker)
    && Ensues(s.finish, s.settle.now, worker)
    && Ensues(s.finish, s.check.now, worker)
  }

  lemma InOrderHere(s: Schedule, worker: string)
    requires Chronological(s, worker)
    ensures InOrder(s, worker) && s.start.now <= s.finish.now
  {
    TurnsEnd(s.turns, s.start.now, worker);
  }

  /** The lease a claimed job's row shows. */
  function LeaseFrom(marks: seq<Mark>, jobs: seq<Row>, worker: string): Option<Lease> {
    if marks != [] && marks[0].job < |jobs| then Some(Lease(marks[0].job, worker, jobs[marks[0].job].generation))
    else None
  }

  /** `claimed` is the lease on the head of the waiting list, under its next generation, and the job runs under it. */
  ghost predicate Claims(before: Db, after: Db, now: int, worker: string, claimed: Option<Lease>) {
    var waiting := Waiting(before, now);
    if waiting == [] then claimed.None? && Waiting(after, now) == []
    else
      && claimed == Some(Lease(waiting[0], worker, before.jobs[waiting[0]].generation + 1))
      && waiting[0] < |after.jobs|
      && HeldBy(after.jobs[waiting[0]], claimed.value) && after.jobs[waiting[0]].state == RUNNING
  }

  lemma ClaimsHead(db: Db, now: int, worker: string, seconds: int)
    requires seconds > 0
    ensures var after := Do(db, now, ClaimNext(worker, seconds));
            var reply := ReplyOf(Decide(db, now, ClaimNext(worker, seconds)));
            reply.Accepted? && Claims(db, after, now, worker, LeaseFrom(reply.marks, after.jobs, worker))
  {
    ClaimReply(db, now, worker, seconds);
    ClaimGrants(db, now, worker, seconds);
    ClaimNextTakesHead(db, now, worker, seconds);
  }

  /** A claim answers with the head of the waiting list, if there is one. */
  lemma ClaimReply(db: Db, now: int, worker: string, seconds: int)
    requires seconds > 0
    ensures var waiting := Waiting(db, now);
            ReplyOf(Decide(db, now, ClaimNext(worker, seconds)))
            == Accepted(if waiting == [] then [] else [Mark(waiting[0], false)])
  {
  }

  /** It leaves that job RUNNING under the caller's new lease, for the seconds asked. */
  lemma ClaimGrants(db: Db, now: int, worker: string, seconds: int)
    requires seconds > 0
    ensures var after, waiting := Do(db, now, ClaimNext(worker, seconds)), Waiting(db, now);
            |after.jobs| == |db.jobs|
            && (waiting != [] ==>
                  (var row := after.jobs[waiting[0]];
                   && row.state == RUNNING && row.leaseOwner == Some(worker)
                   && row.generation == db.jobs[waiting[0]].generation + 1
                   && row.leaseExpiry == Some(now + seconds * SECOND)
                   && row.request == db.jobs[waiting[0]].request))
  {
    var waiting := Waiting(db, now);
    ClaimNextRows(db, now, worker, seconds);
    if waiting != [] { HeadIsKept(db, now, waiting[0]); }
  }

  /** The recoveries of the same call leave the head of the waiting list alone. */
  lemma HeadIsKept(db: Db, now: int, id: nat)
    requires id in Waiting(db, now)
    ensures id < |db.jobs| && RecoveredRows(db.jobs, Select(db.jobs, Abandoned(now)), now)[id] == db.jobs[id]
  {
    SelectExact(db.jobs, Abandoned(now));
    SelectExact(db.jobs, Claimable(now));
  }

  // ---- giving a job up under a live lease --------------------------------------------------------------------------

  lemma {:induction false} BrokeIsLost(db: Db, l: Lease, kind: JobKind, turns: seq<Turn>, clock: int, lost: bool,
                                       broke: bool, seconds: int)
    requires broke ==> lost
    ensures var w := Watched(db, l, kind, turns, clock, lost, broke, seconds); w.broke ==> w.lost
    decreases |turns|
  {
    if |turns| > 0 {
      var beat := turns[0].beat;
      var g := GlanceOf(Run(db, beat.others), l, kind, turns[0].what, beat.now, lost, broke, seconds);
      BrokeIsLost(g.db, l, kind, turns[1..], beat.now, g.lost, g.broke, seconds);
    }
  }

  /** The worker blames its heartbeat exactly when the heartbeat failed for a reason other than the lease before any
      refused renewal, and then the parent saw the lease as lost or the handler succeeded all the same. */
  lemma {:induction false} HeartbeatBrokeExact(claimed: Db, l: Lease, s: Schedule, seconds: int)
    ensures Executed(claimed, l, s, seconds).exit.HeartbeatBroke? <==>
            Starts(claimed, l, s)
            && (var w := Watching(claimed, l, s, seconds);
                w.broke && (w.outcome.LeaseWasLost? || w.outcome.Succeeded?))
  {
    if Starts(claimed, l, s) {
      var before := Run(claimed, s.start.others);
      var kind := before.jobs[l.job].request.Kind();
      BrokeIsLost(Do(before, s.start.now, StartOp(l)), l, kind, s.turns, s.start.now, false, false, seconds);
    }
  }

  /** The heartbeat breaks and the parent looks, nobody else acting. */
  function Breaking(now: int): seq<Turn> {
    [Turn(Beat([], now), HeartbeatBreaks), Turn(Beat([], now), ParentPolls(false, false))]
  }

  lemma {:induction false} BreakingWatched(db: Db, l: Lease, kind: JobKind, now: int, seconds: int)
    requires kind != SECRET_ROTATION
    ensures Watched(db, l, kind, Breaking(now), now, false, false, seconds)
         == Watch(LeaseWasLost, now, true, true, db)
  {
    var turns := Breaking(now);
    assert turns[1..] == [turns[1]];
    assert Watched(db, l, kind, turns[1..], now, true, true, seconds) == Watch(LeaseWasLost, now, true, true, db);
  }

  lemma OneJobWaits(jobs: seq<Row>, now: int)
    requires |jobs| == 1 && jobs[0].state == QUEUED
    ensures Select(jobs, Claimable(now)) == [0]
  {
    var none: seq<nat> := [];
    assert SelectPrefix(jobs, Claimable(now), 0) == none;
    assert PickOne(jobs, Claimable(now), none, 0) == [0];
  }

  /** What the claim of the only job and the breaking heartbeat come to: a live lease, given up. */
  lemma {:induction false} BreakingGivesUp(db: Db, request: JobRequest, s: Schedule)
    requires db.jobs == [NewRow("p", request, 0)] && request.Kind() != SECRET_ROTATION
    requires s.claim == s.start == Beat([], 0) && s.turns == Breaking(0)
    ensures var l, claimed := Lease(0, "w", 1), AfterClaim(db, s, "w", 60);
            && Granted(db, s.claim, "w") == Some(l)
            && Starts(claimed, l, s)
            && Watching(claimed, l, s, 60).outcome == LeaseWasLost && Watching(claimed, l, s, 60).broke
            && Watching(claimed, l, s, 60).clock == 0
            && StateOf(Watching(claimed, l, s, 60).db, l, 0) == Some(RUNNING)
  {
    var l, claimed := Lease(0, "w", 1), AfterClaim(db, s, "w", 60);
    OneJobWaits(db.jobs, 0);
    ClaimGrants(db, 0, "w", 60);
    StartLogged(claimed, 0, l);
    BreakingWatched(Do(claimed, 0, StartOp(l)), l, claimed.jobs[0].request.Kind(), 0, 60);
  }

  lemma {:induction false} GivesUp(db: Db, request: JobRequest, s: Schedule)
    requires db.jobs == [NewRow("p", request, 0)] && request.Kind() != SECRET_ROTATION
    requires s.claim == s.start == Beat([], 0) && s.turns == Breaking(0)
    ensures var ending := Executed(AfterClaim(db, s, "w", 60), Lease(0, "w", 1), s, 60);
            ending.exit.HeartbeatBroke? && StateOf(ending.db, Lease(0, "w", 1), ending.at) == Some(RUNNING)
  {
    BreakingGivesUp(db, request, s);
  }

  /** Everything at once, nobody else acting. */
  function AtOnce(turns: seq<Turn>): Schedule {
    var beat := Beat([], 0);
    Schedule(beat, beat, turns, beat, beat, beat, beat)
  }

  lemma AtOnceIsChronological(worker: string)
    ensures Chronological(AtOnce(Breaking(0)), worker)
  {
    assert Breaking(0)[1..][1..] == [];
  }

  /** A run of `run_once` that returns while its lease is live and the job RUNNING: the heartbeat fails once. */
  method AbandonLiveLease(body: string) returns (store: ControllerStore, exit: Exit, lease: Lease, at: int)
    ensures exit.HeartbeatBroke? && StateOf(store.Tables(), lease, at) == Some(RUNNING)
  {
    var request, s := JobRequest("key", Plain(VERIFY, body)), AtOnce(Breaking(0));
    store := new ControllerStore();
    var _ := SubmitFirst(store, request);
    ghost var before := store.Tables();
    var worker := new ControllerWorker(store, "w", 60);
    BreakingGivesUp(before, request, s);
    AtOnceIsChronological("w");
    var claimed: Option<Lease>;
    exit, claimed, at := worker.RunOnce(s);
    GivesUp(before, request, s);
    lease := claimed.value;
  }

  method SubmitFirst(store: ControllerStore, request: JobRequest) returns (reply: Reply)
    requires store.Valid() && store.Tables() == EMPTY && request.operation.Plain?
    modifies store
    ensures store.Valid() && store.jobs == [NewRow("p", request, 0)]
  {
    SoundOne(EMPTY, 0, Insert("p", request, None));
    assert DecideSubmit(EMPTY, 0, request, "p", None, None) == Commit([Insert("p", request, None)], [Mark(0, true)]);
    reply := store.SubmitJob(0, request, "p", None, None);
  }
}
