/** Conservation of destructive approvals: each is spent at most once and each destructive job spent exactly one. */
module Approvals {
  import opened Contracts
  import opened JobTables
  import opened JobRuns

  predicate Destructive(db: Db, id: nat) {
    id < |db.jobs| && db.jobs[id].payloadHash.of.operation.Destroy?
  }

  predicate Spent(db: Db, a: nat) {
    a < |db.approvals| && db.approvals[a].consumedAt.Some?
  }

  /** Job `id` was admitted by spending approval `a`: same plan, actor, token, action, scopes, config revision,
      and the approval had not expired when it was spent. */
  predicate BackedBy(db: Db, id: nat, a: nat) {
    && Destructive(db, id) && Spent(db, a)
    && var row, op, approval := db.jobs[id], db.jobs[id].payloadHash.of.operation, db.approvals[a];
    && approval.tokenHash == Sha256(op.approvalToken)
    && approval.planId == op.planId
    && approval.actor == row.principal
    && approval.consumedAt == Some(row.createdAt)
    && row.createdAt < approval.expiresAt
    && op.planId < |db.plans|
    && var plan := db.plans[op.planId];
    && plan.actor == row.principal
    && Sha256(plan.spec) == op.planHash
    && plan.spec.action == op.action
    && plan.spec.scopes == op.scopes
    && plan.spec.configRevision == op.configRevision
  }

  predicate TokensDistinct(approvals: seq<ApprovalRow>) {
    forall i, j :: 0 <= i < j < |approvals| ==> approvals[i].tokenHash != approvals[j].tokenHash
  }

  ghost predicate JobsBacked(db: Db) {
    forall id: nat :: Destructive(db, id) ==> exists a: nat :: BackedBy(db, id, a)
  }

  ghost predicate SpentBacks(db: Db) {
    forall a: nat :: Spent(db, a) ==> exists id: nat :: BackedBy(db, id, a)
  }

  ghost predicate OneJobEach(db: Db) {
    forall i: nat, j: nat, a: nat :: BackedBy(db, i, a) && BackedBy(db, j, a) ==> i == j
  }

  ghost predicate Conserved(db: Db) {
    TokensDistinct(db.approvals) && JobsBacked(db) && SpentBacks(db) && OneJobEach(db)
  }

  /** Nothing a guarded edit does to an existing row disturbs what backs it, or makes a new pairing among
      existing rows. */
  lemma BackingKept(db: Db, now: int, e: Edit)
    requires InRange(db, e) && Sound(db, now, e)
    ensures forall id: nat, a: nat :: BackedBy(db, id, a) ==> BackedBy(Apply(db, now, e), id, a)
  {
    var after := Apply(db, now, e);
    forall id: nat, a: nat | BackedBy(db, id, a) ensures BackedBy(after, id, a) {
      assert after.jobs[id].payloadHash == db.jobs[id].payloadHash;
      assert after.approvals[a] == db.approvals[a];
    }
  }

  lemma BackingOld(db: Db, now: int, e: Edit)
    requires JobsBacked(db) && TokensDistinct(db.approvals)
    requires InRange(db, e) && Sound(db, now, e) && !(e.Insert? && e.spent.Some?)
    ensures var after := Apply(db, now, e);
            && (forall id: nat :: Destructive(after, id) ==> Destructive(db, id))
            && (forall a: nat :: Spent(after, a) ==> Spent(db, a))
            && (forall id: nat, a: nat :: BackedBy(after, id, a) ==> BackedBy(db, id, a))
  {
    var after := Apply(db, now, e);
    forall id: nat, a: nat | BackedBy(after, id, a) ensures BackedBy(db, id, a) {
      assert Destructive(db, id) && Spent(db, a);
      var b: nat :| BackedBy(db, id, b);
      assert after.approvals[a] == db.approvals[a];
      assert a == b;
    }
  }

  /** Admitting a destructive job adds one pair, the new job with the approval it spends, and disturbs none. */
  lemma SpendingConserves(db: Db, now: int, e: Edit)
    requires Conserved(db) && InRange(db, e) && Sound(db, now, e) && e.Insert? && e.spent.Some?
    ensures Conserved(Apply(db, now, e))
    ensures forall id: nat, a: nat ::
              BackedBy(Apply(db, now, e), id, a) <==> BackedBy(db, id, a) || (id == |db.jobs| && a == e.spent.value)
  {
    SpendingPairs(db, now, e);
    var after := Apply(db, now, e);
    var n, s := |db.jobs|, e.spent.value;
    BackingKept(db, now, e);
    assert BackedBy(after, n, s);
    forall id: nat | Destructive(after, id) ensures exists a: nat :: BackedBy(after, id, a) {
      if id < n {
        assert Destructive(db, id);
        var a: nat :| BackedBy(db, id, a);
        assert BackedBy(after, id, a);
      }
    }
    forall a: nat | Spent(after, a) ensures exists id: nat :: BackedBy(after, id, a) {
      if a != s {
        assert Spent(db, a);
        var id: nat :| BackedBy(db, id, a);
        assert BackedBy(after, id, a);
      }
    }
    forall i: nat, j: nat, a: nat | BackedBy(after, i, a) && BackedBy(after, j, a) ensures i == j {
      PairIsOld(db, now, e, i, a);
      PairIsOld(db, now, e, j, a);
    }
  }

  lemma SpendingPairs(db: Db, now: int, e: Edit)
    requires Conserved(db) && InRange(db, e) && Sound(db, now, e) && e.Insert? && e.spent.Some?
    ensures forall id: nat, a: nat ::
              BackedBy(Apply(db, now, e), id, a) <==> BackedBy(db, id, a) || (id == |db.jobs| && a == e.spent.value)
  {
    var after := Apply(db, now, e);
    BackingKept(db, now, e);
    assert BackedBy(after, |db.jobs|, e.spent.value);
    forall id: nat, a: nat | BackedBy(after, id, a)
      ensures BackedBy(db, id, a) || (id == |db.jobs| && a == e.spent.value)
    {
      PairIsOld(db, now, e, id, a);
    }
  }

  lemma PairIsOld(db: Db, now: int, e: Edit, id: nat, a: nat)
    requires Conserved(db) && InRange(db, e) && Sound(db, now, e) && e.Insert? && e.spent.Some?
    requires BackedBy(Apply(db, now, e), id, a)
    ensures if id == |db.jobs| then a == e.spent.value else a != e.spent.value && BackedBy(db, id, a)
  {
    var after := Apply(db, now, e);
    if id < |db.jobs| {
      assert Destructive(db, id);
      var b: nat :| BackedBy(db, id, b);
      assert db.approvals[b].tokenHash == db.approvals[a].tokenHash;
      assert a == b;
    } else {
      assert BackedBy(after, id, e.spent.value);
      assert db.approvals[a].tokenHash == db.approvals[e.spent.value].tokenHash;
    }
  }

  lemma EditConserves(db: Db, now: int, e: Edit)
    requires Conserved(db) && InRange(db, e) && Sound(db, now, e) && Proper(GENUINE, db, now, e)
    ensures Conserved(Apply(db, now, e))
  {
    if e.Insert? && e.spent.Some? {
      SpendingConserves(db, now, e);
    } else {
      BackingKept(db, now, e);
      BackingOld(db, now, e);
    }
  }

  /** In every reachable store the spent approvals and the destructive jobs are in one-to-one correspondence. */
  lemma {:induction false} ApprovalConservation(steps: seq<Step>)
    requires GenuineRun(EMPTY, steps)
    ensures var db := Run(EMPTY, steps);
            && (forall id: nat :: Destructive(db, id) ==>
                  exists a: nat :: BackedBy(db, id, a) && forall b: nat :: BackedBy(db, id, b) ==> b == a)
            && (forall a: nat :: Spent(db, a) ==>
                  exists id: nat :: BackedBy(db, id, a) && forall j: nat :: BackedBy(db, j, a) ==> j == id)
  {
    var P := (d: Db) => Conserved(d);
    forall d: Db, t, e | P(d) && InRange(d, e) && Sound(d, t, e) && Proper(GENUINE, d, t, e) ensures P(Apply(d, t, e)) {
      EditConserves(d, t, e);
    }
    RunKeeps(P, GENUINE, EMPTY, steps);
    var db := Run(EMPTY, steps);
    forall id: nat | Destructive(db, id)
      ensures exists a: nat :: BackedBy(db, id, a) && forall b: nat :: BackedBy(db, id, b) ==> b == a
    {
      var a: nat :| BackedBy(db, id, a);
      assert forall b: nat :: BackedBy(db, id, b) ==> b == a;
    }
    forall a: nat | Spent(db, a)
      ensures exists id: nat :: BackedBy(db, id, a) && forall j: nat :: BackedBy(db, j, a) ==> j == id
    {
      var id: nat :| BackedBy(db, id, a);
      assert forall j: nat :: BackedBy(db, j, a) ==> j == id;
    }
  }
}
