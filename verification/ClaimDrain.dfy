/** No job is orphaned: repeated `claim_next` at one instant reaches every job that nobody holds. */
module ClaimDrain {
  import opened Contracts
  import opened JobTables
  import opened JobOrder
  import opened JobRuns
  import opened JobLifecycle

  function Waiting(db: Db, now: int): (ids: seq<nat>)
    ensures forall k :: 0 <= k < |ids| ==> ids[k] < |db.jobs|
  {
    Select(db.jobs, Claimable(now))
  }

  /** The table after one accepted `claim_next`. */
  lemma ClaimNextRows(db: Db, now: int, worker: string, seconds: int)
    requires seconds > 0
    ensures var after := Do(db, now, ClaimNext(worker, seconds));
            var recovered := RecoveredRows(db.jobs, Select(db.jobs, Abandoned(now)), now);
            var waiting := Waiting(db, now);
            after.jobs ==
              if |waiting| == 0 then recovered
              else recovered[waiting[0] := Edited(recovered[waiting[0]], Claim(waiting[0], worker, seconds), now)]
  {
    var waiting := Waiting(db, now);
    AbandonedSound(db, now, worker);
    var recoveries := Recoveries(Select(db.jobs, Abandoned(now)), worker);
    if |waiting| > 0 {
      var edits := recoveries + [Claim(waiting[0], worker, seconds)];
      assert edits[..|edits| - 1] == recoveries;
    }
  }

  /** Row by row: nothing is left abandoned, and what is still waiting is what was waiting, less the claimed head. */
  lemma ClaimNextPicks(db: Db, now: int, worker: string, seconds: int)
    requires seconds > 0
    ensures var after := Do(db, now, ClaimNext(worker, seconds));
            var waiting := Waiting(db, now);
            && |after.jobs| == |db.jobs|
            && forall k :: 0 <= k < |db.jobs| ==>
                 && after.jobs[k].createdAt == db.jobs[k].createdAt
                 && !Picks(Abandoned(now), after.jobs[k])
                 && (Picks(Claimable(now), after.jobs[k]) <==>
                       Picks(Claimable(now), db.jobs[k]) && !(|waiting| > 0 && k == waiting[0]))
  {
    ClaimNextRows(db, now, worker, seconds);
    SelectExact(db.jobs, Abandoned(now));
  }

  /** One call finalises every abandoned cancellation and takes exactly the head of the waiting list. */
  lemma ClaimNextTakesHead(db: Db, now: int, worker: string, seconds: int)
    requires seconds > 0
    ensures var after := Do(db, now, ClaimNext(worker, seconds));
            && Select(after.jobs, Abandoned(now)) == []
            && Waiting(after, now) == (if |Waiting(db, now)| == 0 then [] else Waiting(db, now)[1..])
  {
    var after := Do(db, now, ClaimNext(worker, seconds));
    ClaimNextPicks(db, now, worker, seconds);
    SelectExact(after.jobs, Abandoned(now));
    NoMembers(Select(after.jobs, Abandoned(now)));
    HeadRemoved(db.jobs, after.jobs, now);
  }

  lemma HeadRemoved(before: seq<Row>, after: seq<Row>, now: int)
    requires |after| == |before|
    requires forall k :: 0 <= k < |before| ==> after[k].createdAt == before[k].createdAt
    requires var waiting := Select(before, Claimable(now));
             forall k :: 0 <= k < |before| ==>
               (Picks(Claimable(now), after[k]) <==>
                  Picks(Claimable(now), before[k]) && !(|waiting| > 0 && k == waiting[0]))
    ensures var waiting := Select(before, Claimable(now));
            Select(after, Claimable(now)) == (if |waiting| == 0 then [] else waiting[1..])
  {
    var waiting := Select(before, Claimable(now));
    var rest := if |waiting| == 0 then [] else waiting[1..];
    SelectExact(before, Claimable(now));
    SelectExact(after, Claimable(now));
    forall k ensures k in Select(after, Claimable(now)) <==> k in rest {
      RestOfWaiting(before, waiting, k);
    }
    OrderedUnique(after, Select(after, Claimable(now)), rest);
  }

  lemma RestOfWaiting(jobs: seq<Row>, ids: seq<nat>, k: nat)
    requires InBounds(jobs, ids) && Ordered(jobs, ids)
    ensures k in (if |ids| == 0 then [] else ids[1..]) <==> k in ids && k != ids[0]
  {
    if |ids| > 0 {
      assert ids == [ids[0]] + ids[1..];
      assert ids[0] !in ids[1..];
    }
  }

  function Claimed(db: Db, now: int, worker: string, seconds: int): Option<nat> {
    match Decide(db, now, ClaimNext(worker, seconds))
    case Refuse(_) => None
    case Commit(_, marks) => if |marks| == 0 then None else Some(marks[0].job)
  }

  /** Several workers calling in turn at one instant; the answers in order. */
  function Drain(db: Db, now: int, workers: seq<string>, seconds: int): (Db, seq<Option<nat>>)
    decreases |workers|
  {
    if |workers| == 0 then (db, [])
    else
      var rest := Drain(Do(db, now, ClaimNext(workers[0], seconds)), now, workers[1..], seconds);
      (rest.0, [Claimed(db, now, workers[0], seconds)] + rest.1)
  }

  /** Repeating `claim_next` at one instant answers with every claimable job exactly once, oldest first, and with
      nothing after that; abandoned cancellations are gone after the first call. */
  lemma {:induction false} DrainClaimsAll(db: Db, now: int, workers: seq<string>, seconds: int)
    requires seconds > 0
    ensures var (after, answers) := Drain(db, now, workers, seconds);
            var waiting := Waiting(db, now);
            && |answers| == |workers|
            && (forall k :: 0 <= k < |workers| ==> answers[k] == if k < |waiting| then Some(waiting[k]) else None)
            && (|workers| > 0 ==> Select(after.jobs, Abandoned(now)) == [])
            && (|workers| >= |waiting| ==> Waiting(after, now) == [])
    decreases |workers|
  {
    if |workers| > 0 {
      var next := Do(db, now, ClaimNext(workers[0], seconds));
      ClaimNextTakesHead(db, now, workers[0], seconds);
      ClaimedHead(db, now, workers[0], seconds);
      DrainClaimsAll(next, now, workers[1..], seconds);
      DrainStaysRecovered(next, now, workers[1..], seconds);
      var rest := Drain(next, now, workers[1..], seconds);
      assert Drain(db, now, workers, seconds) == (rest.0, [Claimed(db, now, workers[0], seconds)] + rest.1);
    }
  }

  lemma ClaimedHead(db: Db, now: int, worker: string, seconds: int)
    requires seconds > 0
    ensures Claimed(db, now, worker, seconds) == if |Waiting(db, now)| > 0 then Some(Waiting(db, now)[0]) else None
  {
  }

  lemma {:induction false} DrainStaysRecovered(db: Db, now: int, workers: seq<string>, seconds: int)
    requires seconds > 0 && Select(db.jobs, Abandoned(now)) == []
    ensures Select(Drain(db, now, workers, seconds).0.jobs, Abandoned(now)) == []
    decreases |workers|
  {
    if |workers| > 0 {
      ClaimNextTakesHead(db, now, workers[0], seconds);
      DrainStaysRecovered(Do(db, now, ClaimNext(workers[0], seconds)), now, workers[1..], seconds);
    }
  }

  ghost predicate Held(row: Row, now: int) {
    row.leaseOwner.Some? && LiveLease(row, row.leaseOwner.value, row.generation, now)
  }

  /** In every reachable store and at every instant a job that is not finished is held under a live lease, or is
      abandoned mid-cancellation, or is on the waiting list. */
  lemma {:induction false} NoJobIsOrphaned(steps: seq<Step>, now: int, id: nat)
    requires RunInScope(SHAPED, EMPTY, steps) && id < |Run(EMPTY, steps).jobs|
    requires Active(Run(EMPTY, steps).jobs[id])
    ensures var db := Run(EMPTY, steps);
            Held(db.jobs[id], now) || id in Select(db.jobs, Abandoned(now)) || id in Waiting(db, now)
  {
    ReachableRows(steps);
    var db := Run(EMPTY, steps);
    assert RowOk(db.jobs[id]);
    SelectExact(db.jobs, Abandoned(now));
    SelectExact(db.jobs, Claimable(now));
  }

  function ClaimSteps(now: int, workers: seq<string>, seconds: int): seq<Step> {
    seq(|workers|, i requires 0 <= i < |workers| => Step(now, ClaimNext(workers[i], seconds)))
  }

  lemma {:induction false} DrainIsRun(db: Db, now: int, workers: seq<string>, seconds: int)
    ensures Drain(db, now, workers, seconds).0 == Run(db, ClaimSteps(now, workers, seconds))
    decreases |workers|
  {
    if |workers| > 0 {
      var steps := ClaimSteps(now, workers, seconds);
      var one := [Step(now, ClaimNext(workers[0], seconds))];
      DrainIsRun(Do(db, now, ClaimNext(workers[0], seconds)), now, workers[1..], seconds);
      assert steps == one + ClaimSteps(now, workers[1..], seconds);
      RunConcat(db, one, ClaimSteps(now, workers[1..], seconds));
      assert one[..0] == [];
      assert Run(db, one) == Do(db, now, ClaimNext(workers[0], seconds));
    }
  }

  /** So once enough workers have called, every unfinished job of a reachable store is held under a live lease. */
  lemma {:induction false} DrainLeavesNobodyWaiting(steps: seq<Step>, now: int, workers: seq<string>, seconds: int,
                                                    id: nat)
    requires RunInScope(SHAPED, EMPTY, steps) && seconds > 0
    requires |workers| > |Waiting(Run(EMPTY, steps), now)|
    requires id < |Drain(Run(EMPTY, steps), now, workers, seconds).0.jobs|
    requires Active(Drain(Run(EMPTY, steps), now, workers, seconds).0.jobs[id])
    ensures Held(Drain(Run(EMPTY, steps), now, workers, seconds).0.jobs[id], now)
  {
    var db := Run(EMPTY, steps);
    var claims := ClaimSteps(now, workers, seconds);
    DrainClaimsAll(db, now, workers, seconds);
    DrainIsRun(db, now, workers, seconds);
    RunConcat(EMPTY, steps, claims);
    forall k | 0 <= k < |steps + claims|
      ensures InScope(SHAPED, Run(EMPTY, (steps + claims)[..k]), (steps + claims)[k])
    {
      if k < |steps| { assert (steps + claims)[..k] == steps[..k]; }
    }
    NoJobIsOrphaned(steps + claims, now, id);
  }
}
