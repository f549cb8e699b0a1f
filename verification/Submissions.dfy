/** Idempotent submission, one at a time and in batches. */
module Submissions {
  import opened Contracts
  import opened JobTables
  import opened JobRuns
  import opened JobLifecycle

  ghost predicate KeysUnique(db: Db) {
    forall i, j :: 0 <= i < j < |db.jobs| ==>
      !(db.jobs[i].principal == db.jobs[j].principal && db.jobs[i].key == db.jobs[j].key)
  }

  lemma EditKeepsKeys(db: Db, now: int, e: Edit)
    requires KeysUnique(db) && InRange(db, e) && Sound(db, now, e)
    ensures KeysUnique(Apply(db, now, e))
  {
    if e.Insert? {
      FindKeyExact(db.jobs, e.principal, e.request.key);
    }
  }

  /** No run ever holds two jobs under one principal and key. */
  lemma {:induction false} OneJobPerKey(steps: seq<Step>)
    ensures KeysUnique(Run(EMPTY, steps))
  {
    var P := (d: Db) => KeysUnique(d);
    forall d: Db, t, e | P(d) && InRange(d, e) && Sound(d, t, e) ensures P(Apply(d, t, e)) {
      EditKeepsKeys(d, t, e);
    }
    RunKeeps(P, ANY, EMPTY, steps);
  }

  /** A key once found is found at the same row for ever, holding the same payload hash. */
  lemma KeyStaysFound(before: Db, after: Db, principal: string, key: string)
    requires Evolves(before, after) && FindKey(before.jobs, principal, key).Some?
    ensures FindKey(after.jobs, principal, key) == FindKey(before.jobs, principal, key)
    ensures var id := FindKey(before.jobs, principal, key).value;
            after.jobs[id].payloadHash == before.jobs[id].payloadHash
  {
    FindKeyExact(before.jobs, principal, key);
    FindKeyExact(after.jobs, principal, key);
    var id := FindKey(before.jobs, principal, key).value;
    assert forall i :: 0 <= i <= id ==> RowReach(before.jobs[i], after.jobs[i]);
  }

  /** Row `id` answers this request. */
  predicate Answers(db: Db, id: nat, request: JobRequest, principal: string) {
    FindKey(db.jobs, principal, request.key) == Some(id) && id < |db.jobs| && db.jobs[id].payloadHash == Sha256(request)
  }

  lemma SubmitAnswers(db: Db, now: int, request: JobRequest, principal: string,
                      limit: Option<int>, kinds: Option<set<JobKind>>)
    requires DecideSubmit(db, now, request, principal, limit, kinds).Commit?
    ensures var d := DecideSubmit(db, now, request, principal, limit, kinds);
            && |d.marks| == 1
            && Answers(Do(db, now, Submit(request, principal, limit, kinds)), d.marks[0].job, request, principal)
            && (d.marks[0].created <==> FindKey(db.jobs, principal, request.key).None?)
            && (!d.marks[0].created ==> Do(db, now, Submit(request, principal, limit, kinds)) == db)
  {
    if FindKey(db.jobs, principal, request.key).None? {
      var spent := DecideSubmit(db, now, request, principal, limit, kinds).edits[0].spent;
      assert DecideSubmit(db, now, request, principal, limit, kinds)
        == Commit([Insert(principal, request, spent)], [Mark(|db.jobs|, true)]);
      SoundOne(db, now, Insert(principal, request, spent));
      NewestAnswers(db, now, request, principal, spent);
    }
  }

  lemma NewestAnswers(db: Db, now: int, request: JobRequest, principal: string, spent: Option<nat>)
    requires InRange(db, Insert(principal, request, spent)) && FindKey(db.jobs, principal, request.key).None?
    ensures Answers(Apply(db, now, Insert(principal, request, spent)), |db.jobs|, request, principal)
  {
    var after := Apply(db, now, Insert(principal, request, spent));
    assert after.jobs == db.jobs + [NewRow(principal, request, now)];
    assert after.jobs[..|db.jobs|] == db.jobs;
  }

  /** An accepted submission is answered by the same job for ever. Resubmitting the equal request, at any time, with
      any admissible limits, returns it and changes no table, although the stored request may be a blanked or sealed
      form; a different payload under the key is refused. */
  lemma {:induction false} ResubmissionIsStable(db: Db, now: int, request: JobRequest, principal: string,
                                                limit: Option<int>, kinds: Option<set<JobKind>>, steps: seq<Step>,
                                                later: int, other: JobRequest, newLimit: Option<int>,
                                                newKinds: Option<set<JobKind>>)
    requires DecideSubmit(db, now, request, principal, limit, kinds).Commit?
    requires newLimit.Some? ==> newLimit.value >= 1
    requires newKinds.Some? ==> other.Kind() in newKinds.value
    requires other.key == request.key
    ensures var id := DecideSubmit(db, now, request, principal, limit, kinds).marks[0].job;
            var store := Run(Do(db, now, Submit(request, principal, limit, kinds)), steps);
            var again := Submit(other, principal, newLimit, newKinds);
            && Do(store, later, again) == store
            && Decide(store, later, again) ==
                 if other == request then Commit([], [Mark(id, false)]) else Refuse(IdempotencyConflict)
  {
    SubmitAnswers(db, now, request, principal, limit, kinds);
    var first := Do(db, now, Submit(request, principal, limit, kinds));
    RunEvolves(first, steps);
    KeyStaysFound(first, Run(first, steps), principal, request.key);
  }

  // ---- batches -------------------------------------------------------------------------------------------

  /** The scan's mark for one request: the row its key already names, or the number of the next new row. */
  ghost predicate MarkOk(db: Db, pending: seq<JobRequest>, mark: Mark, request: JobRequest, principal: string) {
    var found := FindKey(db.jobs, principal, request.key);
    if found.Some? then mark == Mark(found.value, false) && db.jobs[found.value].payloadHash == Sha256(request)
    else |db.jobs| <= mark.job < |db.jobs| + |pending| && pending[mark.job - |db.jobs|] == request && mark.created
  }

  lemma {:induction false} ScanMarks(db: Db, requests: seq<JobRequest>, principal: string)
    requires ScanBatch(db, requests, principal).Scanned?
    ensures MarksOk(db, ScanBatch(db, requests, principal), requests, principal)
  {
    if |requests| > 0 {
      var n := |requests| - 1;
      ScanMarks(db, requests[..n], principal);
      OneMoreMark(db, ScanBatch(db, requests[..n], principal), requests[..n], requests[n], principal);
      assert requests[..n] + [requests[n]] == requests;
    }
  }

  ghost predicate MarksOk(db: Db, s: Scan, requests: seq<JobRequest>, principal: string) {
    s.Scanned? && |s.marks| == |requests|
    && forall i :: 0 <= i < |requests| ==> MarkOk(db, s.pending, s.marks[i], requests[i], principal)
  }

  lemma OneMoreMark(db: Db, earlier: Scan, requests: seq<JobRequest>, request: JobRequest, principal: string)
    requires MarksOk(db, earlier, requests, principal) && ScanOne(db, earlier, request, principal).Scanned?
    ensures MarksOk(db, ScanOne(db, earlier, request, principal), requests + [request], principal)
  {
    var s := ScanOne(db, earlier, request, principal);
    assert earlier.pending <= s.pending && s.marks[..|requests|] == earlier.marks;
    forall i | 0 <= i < |requests| ensures MarkOk(db, s.pending, s.marks[i], (requests + [request])[i], principal) {
      assert MarkOk(db, earlier.pending, earlier.marks[i], requests[i], principal);
    }
  }

  /** The mark answers the request in `after`: it names the row carrying the request's payload, and is flagged created
      exactly when the key was new, in which case the row is the fresh queued one. */
  ghost predicate Answered(db: Db, after: Db, now: int, mark: Mark, request: JobRequest, principal: string) {
    && Answers(after, mark.job, request, principal)
    && (mark.created <==> FindKey(db.jobs, principal, request.key).None?)
    && (mark.created <==> mark.job >= |db.jobs|)
    && (mark.created ==> after.jobs[mark.job] == NewRow(principal, request, now))
  }

  lemma AnsweredNew(db: Db, after: Db, now: int, pending: seq<JobRequest>, k: nat, principal: string)
    requires after.jobs == db.jobs + seq(|pending|, i requires 0 <= i < |pending| => NewRow(principal, pending[i], now))
    requires k < |pending| && FindKey(db.jobs, principal, pending[k].key).None?
    requires forall i, j :: 0 <= i < j < |pending| ==> pending[i].key != pending[j].key
    ensures Answered(db, after, now, Mark(|db.jobs| + k, true), pending[k], principal)
  {
    FindKeyExact(db.jobs, principal, pending[k].key);
    var id := |db.jobs| + k;
    assert after.jobs[id] == NewRow(principal, pending[k], now);
    forall i | 0 <= i < id ensures !(after.jobs[i].principal == principal && after.jobs[i].key == pending[k].key) {
      if i >= |db.jobs| { assert after.jobs[i] == NewRow(principal, pending[i - |db.jobs|], now); }
    }
    FindKeyExact(after.jobs, principal, pending[k].key);
    assert FindKey(after.jobs, principal, pending[k].key) == Some(id);
  }

  lemma AnsweredOld(db: Db, after: Db, now: int, id: nat, request: JobRequest, principal: string)
    requires db.jobs <= after.jobs && Answers(db, id, request, principal)
    ensures Answered(db, after, now, Mark(id, false), request, principal)
  {
    FindKeyExact(db.jobs, principal, request.key);
    FindKeyExact(after.jobs, principal, request.key);
  }

  lemma MarkAnswers(db: Db, after: Db, now: int, pending: seq<JobRequest>, mark: Mark, request: JobRequest,
                    principal: string)
    requires after.jobs == db.jobs + seq(|pending|, i requires 0 <= i < |pending| => NewRow(principal, pending[i], now))
    requires forall i, j :: 0 <= i < j < |pending| ==> pending[i].key != pending[j].key
    requires MarkOk(db, pending, mark, request, principal)
    ensures Answered(db, after, now, mark, request, principal)
  {
    if mark.created {
      AnsweredNew(db, after, now, pending, mark.job - |db.jobs|, principal);
    } else {
      AnsweredOld(db, after, now, mark.job, request, principal);
    }
  }

  /** A committed batch answers every request, in request order; it created exactly the rows whose keys were new, and
      left every earlier row alone. */
  lemma BatchAnswers(db: Db, now: int, requests: seq<JobRequest>, principal: string, cap: int)
    requires DecideBatch(db, requests, principal, cap).Commit?
    ensures var marks := DecideBatch(db, requests, principal, cap).marks;
            var after := Do(db, now, SubmitBatch(requests, principal, cap));
            && |marks| == |requests|
            && db.jobs <= after.jobs
            && forall i :: 0 <= i < |requests| ==> Answered(db, after, now, marks[i], requests[i], principal)
  {
    var pending := ScanBatch(db, requests, principal).pending;
    InsertsEffect(db, now, pending, principal);
    ScanMarks(db, requests, principal);
    ScanFresh(db, requests, principal);
    var marks := DecideBatch(db, requests, principal, cap).marks;
    var after := Do(db, now, SubmitBatch(requests, principal, cap));
    forall i | 0 <= i < |requests| ensures Answered(db, after, now, marks[i], requests[i], principal) {
      MarkAnswers(db, after, now, pending, marks[i], requests[i], principal);
    }
  }

  function Replayed(marks: seq<Mark>): seq<Mark> {
    seq(|marks|, i requires 0 <= i < |marks| => Mark(marks[i].job, false))
  }

  /** Resubmitting a committed batch later changes nothing. It returns the same jobs exactly when its kind is not over
      the cap at that moment; unlike a single resubmission it is otherwise refused, although it adds no job. */
  lemma {:induction false} BatchReplay(db: Db, now: int, requests: seq<JobRequest>, principal: string, cap: int,
                    steps: seq<Step>, later: int)
    requires DecideBatch(db, requests, principal, cap).Commit?
    ensures var marks := DecideBatch(db, requests, principal, cap).marks;
            var batch := SubmitBatch(requests, principal, cap);
            var store := Run(Do(db, now, batch), steps);
            && Do(store, later, batch) == store
            && Decide(store, later, batch) ==
                 if ActiveCount(store.jobs, {requests[0].Kind()}) <= cap
                 then Commit([], Replayed(marks))
                 else Refuse(QueueLimit)
  {
    var batch := SubmitBatch(requests, principal, cap);
    var first := Do(db, now, batch);
    var store := Run(first, steps);
    var marks := DecideBatch(db, requests, principal, cap).marks;
    BatchAnswers(db, now, requests, principal, cap);
    RunEvolves(first, steps);
    forall i | 0 <= i < |requests| ensures Answers(store, marks[i].job, requests[i], principal) {
      KeyStaysFound(first, store, principal, requests[i].key);
    }
    ScanReplay(store, requests, principal, marks);
    assert Inserts([], principal) == [];
  }

  lemma BatchOfOne(a: JobRequest, principal: string)
    requires !a.operation.Destroy? && !a.operation.SealedInvite?
    ensures DecideBatch(EMPTY, [a], principal, 1) == Commit([Insert(principal, a, None)], [Mark(0, true)])
    ensures Do(EMPTY, 0, SubmitBatch([a], principal, 1)).jobs == [NewRow(principal, a, 0)]
  {
    assert [a][..0] == [];
    assert ScanBatch(EMPTY, [], principal) == Scanned([], []);
    assert ScanBatch(EMPTY, [a], principal) == Scanned([Mark(0, true)], [a]);
    assert Inserts([a], principal) == [Insert(principal, a, None)];
    SoundOne(EMPTY, 0, Insert(principal, a, None));
  }

  lemma SecondJob(db: Db, a: JobRequest, b: JobRequest, principal: string)
    requires db.jobs == [NewRow(principal, a, 0)] && a.key != b.key
    requires !b.operation.Destroy? && !b.operation.SealedInvite?
    ensures Do(db, 0, Submit(b, principal, None, None)).jobs == [NewRow(principal, a, 0), NewRow(principal, b, 0)]
  {
    FindKeyExact(db.jobs, principal, b.key);
    SoundOne(db, 0, Insert(principal, b, None));
    assert DecideSubmit(db, 0, b, principal, None, None) == Commit([Insert(principal, b, None)], [Mark(1, true)]);
  }

  /** Such a refusal: one verification job submitted as a batch of one, another submitted without a limit, and the
      batch repeated. */
  lemma {:induction false} ReplayCanBeRefused(a: JobRequest, b: JobRequest)
    requires a.Kind() == b.Kind() == VERIFY && a.key != b.key
    ensures var batch, single := SubmitBatch([a], "p", 1), Submit(b, "p", None, None);
            && Decide(EMPTY, 0, batch) == Commit([Insert("p", a, None)], [Mark(0, true)])
            && Decide(Run(EMPTY, [Step(0, batch), Step(0, single)]), 0, batch) == Refuse(QueueLimit)
  {
    var batch, single := SubmitBatch([a], "p", 1), Submit(b, "p", None, None);
    var one := Do(EMPTY, 0, batch);
    BatchOfOne(a, "p");
    SecondJob(one, a, b, "p");
    BatchReplay(EMPTY, 0, [a], "p", 1, [Step(0, single)], 0);
    RunOne(one, Step(0, single));
    RunConcat(EMPTY, [Step(0, batch)], [Step(0, single)]);
    RunOne(EMPTY, Step(0, batch));
    assert [Step(0, batch)] + [Step(0, single)] == [Step(0, batch), Step(0, single)];
    var jobs := Do(one, 0, single).jobs;
    assert jobs[..1] == [jobs[0]] && jobs[..1][..0] == [];
  }

  lemma RunOne(db: Db, step: Step)
    ensures Run(db, [step]) == Do(db, step.now, step.op)
  {
    assert [step][..0] == [];
  }

  lemma {:induction false} ScanReplay(db: Db, requests: seq<JobRequest>, principal: string, marks: seq<Mark>)
    requires |marks| == |requests|
    requires forall i :: 0 <= i < |requests| ==> Answers(db, marks[i].job, requests[i], principal)
    ensures ScanBatch(db, requests, principal) ==
              Scanned(Replayed(marks), [])
  {
    if |requests| > 0 {
      ScanReplay(db, requests[..|requests| - 1], principal, marks[..|requests| - 1]);
    }
  }
}
