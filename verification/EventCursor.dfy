/** Following a job's events while the store keeps moving. */
module EventCursor {
  import opened Contracts
  import opened JobTables
  import opened JobLifecycle
  import opened ControllerStore

  /** An event with the table-wide sequence number it was given. */
  datatype Numbered = Numbered(sequence: nat, text: EventText)

  /** The events of one job, in sequence order. */
  function JobLog(events: seq<EventRow>, id: nat): seq<Numbered> {
    if |events| == 0 then []
    else
      var last := events[|events| - 1];
      JobLog(events[..|events| - 1], id) + (if last.job == id then [Numbered(|events|, last.text)] else [])
  }

  /** WHERE sequence > after. */
  function After(log: seq<Numbered>, after: nat): seq<Numbered> {
    if |log| == 0 then []
    else (if log[0].sequence > after then [log[0]] else []) + After(log[1..], after)
  }

  function Page(log: seq<Numbered>, limit: nat): seq<Numbered> {
    if |log| <= limit then log else log[..limit]
  }

  /** `events_after` for an existing job and a limit within its bounds. */
  function EventsAfter(events: seq<EventRow>, id: nat, after: nat, limit: nat): seq<Numbered> {
    Page(After(JobLog(events, id), after), limit)
  }

  ghost predicate Increasing(log: seq<Numbered>) {
    && (forall i :: 0 <= i < |log| ==> log[i].sequence > 0)
    && (forall i, j :: 0 <= i < j < |log| ==> log[i].sequence < log[j].sequence)
  }

  lemma {:induction false} LogIncreasing(events: seq<EventRow>, id: nat)
    ensures Increasing(JobLog(events, id))
    ensures forall i :: 0 <= i < |JobLog(events, id)| ==> JobLog(events, id)[i].sequence <= |events|
  {
    if |events| > 0 { LogIncreasing(events[..|events| - 1], id); }
  }

  /** The job's log holds exactly its own events, each under its place in the table. */
  lemma {:induction false} JobLogExact(events: seq<EventRow>, id: nat, n: nat, text: EventText)
    ensures Numbered(n, text) in JobLog(events, id)
            <==> 1 <= n <= |events| && events[n - 1].job == id && events[n - 1].text == text
  {
    if |events| > 0 {
      JobLogExact(events[..|events| - 1], id, n, text);
    }
  }

  lemma {:induction false} LogGrows(before: seq<EventRow>, after: seq<EventRow>, id: nat)
    requires before <= after
    ensures JobLog(before, id) <= JobLog(after, id)
  {
    if |before| < |after| {
      LogGrows(before, after[..|after| - 1], id);
    } else {
      assert before == after;
    }
  }

  /** The cursor value after the first `d` entries have been seen. */
  function CursorAt(log: seq<Numbered>, d: nat): nat
    requires d <= |log|
  {
    if d == 0 then 0 else log[d - 1].sequence
  }

  lemma {:induction false} AfterAll(log: seq<Numbered>, after: nat)
    requires forall i :: 0 <= i < |log| ==> log[i].sequence > after
    ensures After(log, after) == log
  {
    if |log| > 0 { AfterAll(log[1..], after); }
  }

  /** Asking for what comes after the last delivered event returns the rest of the log: nothing again, nothing
      skipped. */
  lemma {:induction false} AfterCursor(log: seq<Numbered>, d: nat)
    requires Increasing(log) && d <= |log|
    ensures After(log, CursorAt(log, d)) == log[d..]
  {
    if d == 0 {
      AfterAll(log, 0);
    } else {
      DropSeen(log, d, log[d - 1].sequence);
    }
  }

  lemma {:induction false} DropSeen(log: seq<Numbered>, d: nat, after: nat)
    requires Increasing(log) && d <= |log|
    requires forall i :: 0 <= i < d ==> log[i].sequence <= after
    requires forall i :: d <= i < |log| ==> log[i].sequence > after
    ensures After(log, after) == log[d..]
  {
    if d == 0 {
      AfterAll(log, after);
    } else {
      DropSeen(log[1..], d - 1, after);
      assert log[d..] == log[1..][d - 1..];
    }
  }

  /** How a turn of the polling loop ends: the deadline is not reached, or it is, or the user interrupts after at most
      so many of its events were handed over. */
  datatype TurnEnd = Continues | Expired | Interrupted(handed: nat)

  /** What happens around one turn: other clients act before the events call, between it and the job call, and before a
      possible cancellation. */
  datatype Turn = Turn(early: seq<Step>, middle: seq<Step>, late: seq<Step>, end: TurnEnd, now: int)

  datatype Wait = Finished(state: JobState) | TimedOut | Stopped | Rejected | StillWaiting

  const PAGE_LIMIT: nat := 200

  // ---- the loop on the tables --------------------------------------------------------------------------------------

  /** The log as far as it was delivered: what was seen, and the smaller of a page, the rest of the log and the time
      there is. */
  function Handed(log: seq<Numbered>, seen: seq<Numbered>, end: TurnEnd): seq<Numbered> {
    var most := if end.Interrupted? && end.handed < PAGE_LIMIT then end.handed else PAGE_LIMIT;
    if |log| <= |seen| + most then log else log[..|seen| + most]
  }

  datatype Progress = Progress(wait: Wait, delivered: seq<Numbered>, db: Db)

  function Cancelled(db: Db, id: nat, turn: Turn, principal: string): Db {
    Run(Run(db, turn.late), [Step(turn.now, RequestCancel(id, principal))])
  }

  /** One turn. */
  function AfterTurn(db: Db, id: nat, principal: string, turn: Turn, seen: seq<Numbered>): Progress {
    var called := Run(db, turn.early);
    if id >= |called.jobs| then Progress(Rejected, seen, called)
    else
      var delivered, looked := Handed(JobLog(called.events, id), seen, turn.end), Run(called, turn.middle);
      if turn.end.Interrupted? then Progress(Stopped, delivered, Cancelled(looked, id, turn, principal))
      else if id < |looked.jobs| && Terminal(looked.jobs[id].state) then
        Progress(Finished(looked.jobs[id].state), delivered, looked)
      else if turn.end.Expired? then Progress(TimedOut, delivered, Cancelled(looked, id, turn, principal))
      else Progress(StillWaiting, delivered, looked)
  }

  /** As many turns as there are, until one ends the wait. */
  function AfterTurns(db: Db, id: nat, principal: string, turns: seq<Turn>, seen: seq<Numbered>): Progress
    decreases |turns|
  {
    if |turns| == 0 then Progress(StillWaiting, seen, db)
    else
      var one := AfterTurn(db, id, principal, turns[0], seen);
      if one.wait.StillWaiting? then AfterTurns(one.db, id, principal, turns[1..], one.delivered) else one
  }

  function Max(a: nat, b: nat): nat {
    if a > b then a else b
  }

  /** A page after the cursor continues what was seen. */
  lemma PageContinues(log: seq<Numbered>, d: nat, n: nat)
    requires Increasing(log) && d <= |log|
    ensures var page := Page(After(log, CursorAt(log, d)), PAGE_LIMIT);
            && |page| == (if |log| - d <= PAGE_LIMIT then |log| - d else PAGE_LIMIT)
            && (n < |page| ==> page[n] == log[d + n]
                               && CursorAt(log, d + n + 1) == Max(CursorAt(log, d + n), page[n].sequence))
  {
    AfterCursor(log, d);
  }

  /** The inner loop: hand over one page, or as much of it as there is time for, and move the cursor. */
  method Deliver(ghost log: seq<Numbered>, page: seq<Numbered>, seen: seq<Numbered>, cursor: nat, most: nat)
    returns (delivered: seq<Numbered>, after: nat)
    requires Increasing(log) && seen <= log && cursor == CursorAt(log, |seen|)
    requires page == Page(After(log, cursor), PAGE_LIMIT)
    ensures seen <= delivered <= log && after == CursorAt(log, |delivered|)
    ensures |delivered| == |seen| + if |page| <= most then |page| else most
    ensures |page| < PAGE_LIMIT && |page| <= most ==> delivered == log
  {
    var n := 0;
    delivered, after := seen, cursor;
    PageContinues(log, |seen|, n);
    while n < |page| && n < most
      invariant 0 <= n <= |page| && n <= most
      invariant |delivered| == |seen| + n && delivered == log[..|seen| + n] && after == CursorAt(log, |seen| + n)
    {
      PageContinues(log, |seen|, n);
      delivered := delivered + [page[n]];
      after := Max(after, page[n].sequence);
      n := n + 1;
    }
  }

  /** `wait_for_controller_job`, for as many turns as it is given: whatever the other clients do, what it has delivered
      is a prefix of the job's log, each event once and in order, and it reports only a terminal state it has seen. On
      a timeout or an interrupt it has asked for cancellation. Turn by turn it hands over as much as there is, up to a
      page, and it is still waiting only after every turn was taken without an end. */
  method WaitForJob(store: ControllerStore, id: nat, principal: string, turns: seq<Turn>)
    returns (wait: Wait, delivered: seq<Numbered>)
    requires store.Valid()
    modifies store
    ensures store.Valid() && old(store.history) <= store.history
    ensures delivered <= JobLog(store.events, id)
    ensures wait.Finished? ==> Terminal(wait.state) && id < |store.jobs| && store.jobs[id].state == wait.state
    ensures wait.TimedOut? || wait.Stopped? ==>
              |store.history| > 0 && store.history[|store.history| - 1].op == RequestCancel(id, principal)
    ensures wait.Rejected? ==> delivered == [] && id >= |store.jobs|
    ensures Progress(wait, delivered, store.Tables()) == AfterTurns(old(store.Tables()), id, principal, turns, [])
  {
    wait, delivered := TakeTurns(store, id, principal, turns);
  }

  /** The polling loop. */
  method TakeTurns(store: ControllerStore, id: nat, principal: string, turns: seq<Turn>)
    returns (wait: Wait, delivered: seq<Numbered>)
    requires store.Valid()
    modifies store
    ensures store.Valid() && old(store.history) <= store.history
    ensures delivered <= JobLog(store.events, id) && Reports(store, id, principal, wait, delivered)
    ensures Progress(wait, delivered, store.Tables()) == AfterTurns(old(store.Tables()), id, principal, turns, [])
  {
    delivered, wait := [], StillWaiting;
    var after, rest := 0, turns;
    ghost var all := AfterTurns(store.Tables(), id, principal, turns, []);
    while |rest| > 0 && wait.StillWaiting?
      invariant all == if wait.StillWaiting? then AfterTurns(store.Tables(), id, principal, rest, delivered)
                       else Progress(wait, delivered, store.Tables())
      invariant store.Valid() && old(store.history) <= store.history
      invariant delivered <= JobLog(store.events, id) && after == CursorAt(JobLog(store.events, id), |delivered|)
      invariant Reports(store, id, principal, wait, delivered)
      decreases |rest|
    {
      wait, delivered, after := TakeTurn(store, id, principal, rest[0], delivered, after);
      rest := rest[1..];
    }
  }

  /** What each answer of the loop says about the store. */
  ghost predicate Reports(store: ControllerStore, id: nat, principal: string, wait: Wait, delivered: seq<Numbered>)
    reads store
  {
    match wait
    case Finished(state) => Terminal(state) && id < |store.jobs| && store.jobs[id].state == state
    case Rejected => delivered == [] && id >= |store.jobs|
    case StillWaiting => delivered == [] || id < |store.jobs|
    case _ => |store.history| > 0 && store.history[|store.history| - 1].op == RequestCancel(id, principal)
  }

  /** One turn of the loop. */
  method TakeTurn(store: ControllerStore, id: nat, principal: string, turn: Turn, seen: seq<Numbered>, cursor: nat)
    returns (wait: Wait, delivered: seq<Numbered>, after: nat)
    requires store.Valid() && seen <= JobLog(store.events, id) && cursor == CursorAt(JobLog(store.events, id), |seen|)
    requires seen == [] || id < |store.jobs|
    modifies store
    ensures store.Valid() && old(store.history) <= store.history
    ensures delivered <= JobLog(store.events, id) && after == CursorAt(JobLog(store.events, id), |delivered|)
    ensures seen <= delivered && Reports(store, id, principal, wait, delivered)
    ensures Progress(wait, delivered, store.Tables()) == AfterTurn(old(store.Tables()), id, principal, turn, seen)
  {
    delivered, after := seen, cursor;
    Act(store, id, delivered, turn.early);
    if id >= |store.jobs| { return Rejected, delivered, after; }
    delivered, after := DeliverPage(store, id, delivered, after, turn.end);
    Act(store, id, delivered, turn.middle);
    if turn.end.Interrupted? {
      Cancel(store, id, delivered, turn, principal);
      return Stopped, delivered, after;
    }
    if Terminal(store.jobs[id].state) { return Finished(store.jobs[id].state), delivered, after; }
    if turn.end.Expired? {
      Cancel(store, id, delivered, turn, principal);
      return TimedOut, delivered, after;
    }
    wait := StillWaiting;
  }

  method DeliverPage(store: ControllerStore, id: nat, seen: seq<Numbered>, cursor: nat, end: TurnEnd)
    returns (delivered: seq<Numbered>, after: nat)
    requires seen <= JobLog(store.events, id) && cursor == CursorAt(JobLog(store.events, id), |seen|)
    ensures seen <= delivered <= JobLog(store.events, id)
    ensures after == CursorAt(JobLog(store.events, id), |delivered|)
    ensures delivered == Handed(JobLog(store.events, id), seen, end)
  {
    LogIncreasing(store.events, id);
    PageContinues(JobLog(store.events, id), |seen|, 0);
    var page := EventsAfter(store.events, id, cursor, PAGE_LIMIT);
    delivered, after := Deliver(JobLog(store.events, id), page, seen, cursor,
                                if end.Interrupted? then end.handed else PAGE_LIMIT);
  }

  method Cancel(store: ControllerStore, id: nat, delivered: seq<Numbered>, turn: Turn, principal: string)
    requires store.Valid() && delivered <= JobLog(store.events, id)
    modifies store
    ensures store.Valid() && delivered <= JobLog(store.events, id)
    ensures CursorAt(JobLog(store.events, id), |delivered|) == CursorAt(old(JobLog(store.events, id)), |delivered|)
    ensures store.Tables() == Cancelled(old(store.Tables()), id, turn, principal)
    ensures store.history == old(store.history) + turn.late + [Step(turn.now, RequestCancel(id, principal))]
  {
    Act(store, id, delivered, turn.late);
    Act(store, id, delivered, [Step(turn.now, RequestCancel(id, principal))]);
  }

  /** Calls on the store while `delivered` has been seen: the log it came from only grows. */
  method Act(store: ControllerStore, id: nat, delivered: seq<Numbered>, steps: seq<Step>)
    requires store.Valid() && delivered <= JobLog(store.events, id)
    modifies store
    ensures store.Valid() && store.Tables() == Run(old(store.Tables()), steps)
    ensures store.history == old(store.history) + steps
    ensures |store.jobs| >= |old(store.jobs)| && delivered <= JobLog(store.events, id)
    ensures CursorAt(JobLog(store.events, id), |delivered|) == CursorAt(old(JobLog(store.events, id)), |delivered|)
  {
    RunEvolves(store.Tables(), steps);
    LogGrows(store.events, Run(store.Tables(), steps).events, id);
    store.Others(steps);
  }

  // ---- what every turn owes the user -----------------------------------------------------------------------------

  predicate Ended(state: JobState) {
    state == SUCCEEDED || state == PARTIAL_FAILURE || state == FAILED || state == CANCELLED
  }

  /** A turn ends the wait exactly when it must: the job is unknown, the user interrupts, the job is seen finished, or
      the deadline has passed - in this order. It hands over at most two hundred events, and no fewer than there are,
      unless interrupted; and after an interrupt or the deadline it asks for cancellation last of all. */
  lemma TurnExact(db: Db, id: nat, principal: string, turn: Turn, seen: seq<Numbered>)
    ensures var called := Run(db, turn.early);
            var looked := Run(called, turn.middle);
            var asked := Do(Run(looked, turn.late), turn.now, RequestCancel(id, principal));
            var turned := AfterTurn(db, id, principal, turn, seen);
            if id >= |called.jobs| then turned == Progress(Rejected, seen, called)
            else
              && HandsOver(JobLog(called.events, id), seen, turned.delivered,
                           if turn.end.Interrupted? && turn.end.handed < 200 then turn.end.handed else 200)
              && (turn.end.Interrupted? ==> turned.wait == Stopped && turned.db == asked)
              && (!turn.end.Interrupted? ==>
                    && id < |looked.jobs|
                    && if Ended(looked.jobs[id].state) then
                         turned.wait == Finished(looked.jobs[id].state) && turned.db == looked
                       else if turn.end.Expired? then turned.wait == TimedOut && turned.db == asked
                       else turned.wait == StillWaiting && turned.db == looked)
  {
    RunEvolves(Run(db, turn.early), turn.middle);
    var late := Run(Run(Run(db, turn.early), turn.middle), turn.late);
    assert Run(late, [Step(turn.now, RequestCancel(id, principal))])
        == Do(late, turn.now, RequestCancel(id, principal)) by {
      assert [Step(turn.now, RequestCancel(id, principal))][..0] == [];
    }
  }

  /** The log as far as so many more entries reach. */
  predicate HandsOver(log: seq<Numbered>, seen: seq<Numbered>, delivered: seq<Numbered>, most: nat) {
    delivered <= log && |delivered| == if |log| <= |seen| + most then |log| else |seen| + most
  }

  /** The wait is over at the first turn that ends it, however many would follow, and not before. */
  lemma {:induction false} FirstEndCounts(db: Db, id: nat, principal: string, turns: seq<Turn>, seen: seq<Numbered>,
                                          k: nat)
    requires k < |turns| && AfterTurns(db, id, principal, turns[..k], seen).wait.StillWaiting?
    ensures var before := AfterTurns(db, id, principal, turns[..k], seen);
            var turned := AfterTurn(before.db, id, principal, turns[k], before.delivered);
            && (!turned.wait.StillWaiting? ==> AfterTurns(db, id, principal, turns, seen) == turned)
            && (turned.wait.StillWaiting? ==> AfterTurns(db, id, principal, turns[..k + 1], seen) == turned)
    decreases k
  {
    if k == 0 {
      assert turns[..1][0] == turns[0] && turns[..1][1..] == [] && turns[..0] == [];
    } else {
      var one := AfterTurn(db, id, principal, turns[0], seen);
      assert turns[..k][0] == turns[0] && turns[..k][1..] == turns[1..][..k - 1];
      assert turns[..k + 1][0] == turns[0] && turns[..k + 1][1..] == turns[1..][..k];
      FirstEndCounts(one.db, id, principal, turns[1..], one.delivered, k - 1);
    }
  }
}
