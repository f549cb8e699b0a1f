/** The audit log alone determines the state and lease generation of every job. */
module AuditHistory {
  import opened Contracts
  import opened JobTables
  import opened JobRuns

  datatype Fact = Fact(state: JobState, generation: nat)

  /** Read the log in sequence order, checking each record against what the earlier ones say. A log that
      contradicts itself reads as None. */
  function Replay(audit: seq<AuditRow>): Option<seq<Fact>> {
    if |audit| == 0 then Some([])
    else
      var before := Replay(audit[..|audit| - 1]);
      if before.None? then None else Read(before.value, audit[|audit| - 1].entry)
  }

  function Read(facts: seq<Fact>, entry: AuditEntry): Option<seq<Fact>> {
    match entry
    case JobCreate(id, _, _) => if id == |facts| then Some(facts + [Fact(QUEUED, 0)]) else None
    case JobClaim(id, _, generation) =>
      if id < |facts| && facts[id].state in {QUEUED, RUNNING} && generation == facts[id].generation + 1
      then Some(facts[id := Fact(RUNNING, generation)]) else None
    case JobTransition(id, from, to) => Move(facts, id, from, to)
    case JobCancelRequest(id, from, to) => if to == CancelTarget(from) then Move(facts, id, from, to) else None
    case JobCancelRecover(id) => Move(facts, id, CANCEL_REQUESTED, CANCELLED)
    case _ => Some(facts)
  }

  function Move(facts: seq<Fact>, id: nat, from: JobState, to: JobState): Option<seq<Fact>> {
    if id < |facts| && facts[id].state == from && to in Transitions(from)
    then Some(facts[id := facts[id].(state := to)]) else None
  }

  function Facts(jobs: seq<Row>): seq<Fact> {
    seq(|jobs|, i requires 0 <= i < |jobs| => Fact(jobs[i].state, jobs[i].generation))
  }

  ghost predicate AuditTells(db: Db) {
    Replay(db.audit) == Some(Facts(db.jobs))
  }

  lemma ReplaySnoc(audit: seq<AuditRow>, row: AuditRow)
    requires Replay(audit).Some?
    ensures Replay(audit + [row]) == Read(Replay(audit).value, row.entry)
  {
    assert (audit + [row])[..|audit|] == audit;
  }

  lemma EditKeepsAudit(db: Db, now: int, e: Edit)
    requires AuditTells(db) && InRange(db, e) && Sound(db, now, e)
    ensures AuditTells(Apply(db, now, e))
  {
    var records := NewAudit(db, now, e);
    var after := Apply(db, now, e);
    if records == [] {
      assert after.audit == db.audit;
      assert Facts(after.jobs) == Facts(db.jobs);
    } else {
      assert records == [records[0]];
      ReplaySnoc(db.audit, records[0]);
      RecordTells(db, now, e);
    }
  }

  lemma RecordTells(db: Db, now: int, e: Edit)
    requires InRange(db, e) && Sound(db, now, e) && NewAudit(db, now, e) != []
    ensures Read(Facts(db.jobs), NewAudit(db, now, e)[0].entry) == Some(Facts(Apply(db, now, e).jobs))
  {
    var after := Apply(db, now, e);
    var read := Read(Facts(db.jobs), NewAudit(db, now, e)[0].entry);
    assert read.Some?;
    assert |read.value| == |Facts(after.jobs)|;
    assert read.value == Facts(after.jobs);
  }

  /** After any run, genuine or not, folding the audit log reproduces every job's current state and generation:
      no change of state goes unrecorded and no record is out of place. */
  lemma {:induction false} AuditIsComplete(steps: seq<Step>)
    ensures var db := Run(EMPTY, steps); Replay(db.audit) == Some(Facts(db.jobs))
  {
    var P := (d: Db) => AuditTells(d);
    forall d: Db, t, e | P(d) && InRange(d, e) && Sound(d, t, e) ensures P(Apply(d, t, e)) {
      EditKeepsAudit(d, t, e);
    }
    assert Facts(EMPTY.jobs) == [];
    RunKeeps(P, ANY, EMPTY, steps);
  }

  // ---- what a readable log says about one job ---------------------------------------------------------------

  /** The generations of job `id`'s claim records, in order. */
  function ClaimGenerations(audit: seq<AuditRow>, id: nat): seq<nat> {
    if |audit| == 0 then []
    else
      var n := |audit| - 1;
      var e := audit[n].entry;
      ClaimGenerations(audit[..n], id) + (if e.JobClaim? && e.job == id then [e.generation] else [])
  }

  predicate Ends(e: AuditEntry, id: nat) {
    || (e.JobTransition? && e.job == id && Terminal(e.to))
    || (e.JobCancelRequest? && e.job == id && Terminal(e.to))
    || (e.JobCancelRecover? && e.job == id)
  }

  /** How many records say that job `id` reached a terminal state. */
  function EndRecords(audit: seq<AuditRow>, id: nat): nat {
    if |audit| == 0 then 0
    else
      var n := |audit| - 1;
      EndRecords(audit[..n], id) + (if Ends(audit[n].entry, id) then 1 else 0)
  }

  function UpTo(n: nat): seq<nat> {
    seq(n, i => i + 1)
  }

  function FactOf(facts: seq<Fact>, id: nat): Fact {
    if id < |facts| then facts[id] else Fact(QUEUED, 0)
  }

  function Ended(facts: seq<Fact>, id: nat): nat {
    if Terminal(FactOf(facts, id).state) then 1 else 0
  }

  lemma ReadOne(facts: seq<Fact>, e: AuditEntry, id: nat)
    requires Read(facts, e).Some?
    ensures var f, g := FactOf(facts, id), FactOf(Read(facts, e).value, id);
            && (if e.JobClaim? && e.job == id then g.generation == f.generation + 1 && e.generation == g.generation
                else g.generation == f.generation)
            && Ended(Read(facts, e).value, id) == Ended(facts, id) + (if Ends(e, id) then 1 else 0)
  {
  }

  /** A log that reads at all numbers each job's claims 1, 2, 3, ... and ends each job at most once. */
  lemma {:induction false} ReadableLog(audit: seq<AuditRow>, id: nat)
    requires Replay(audit).Some?
    ensures ClaimGenerations(audit, id) == UpTo(FactOf(Replay(audit).value, id).generation)
    ensures EndRecords(audit, id) == Ended(Replay(audit).value, id)
  {
    if |audit| > 0 {
      var n := |audit| - 1;
      ReadableLog(audit[..n], id);
      var before := Replay(audit[..n]).value;
      ReadOne(before, audit[n].entry, id);
      var g := FactOf(before, id).generation;
      assert UpTo(g + 1) == UpTo(g) + [g + 1];
    }
  }

  /** In any reachable store the claim records of a job carry generations 1, 2, 3, ... up to its current one,
      and it has exactly one terminal record if it is finished and none otherwise. */
  lemma {:induction false} OneEndPerJob(steps: seq<Step>, id: nat)
    requires id < |Run(EMPTY, steps).jobs|
    ensures var db := Run(EMPTY, steps);
            && ClaimGenerations(db.audit, id) == UpTo(db.jobs[id].generation)
            && EndRecords(db.audit, id) == (if Terminal(db.jobs[id].state) then 1 else 0)
  {
    AuditIsComplete(steps);
    ReadableLog(Run(EMPTY, steps).audit, id);
  }
}
