/** Grafana alerts become self-heal jobs: at most eight, one per firing service, the same ones on redelivery. */
module Webhooks {
  import opened Contracts
  import opened JobTables
  import opened JobRuns
  import opened Submissions
  import opened Admission
  import CS = ControllerStore
  import Timestamps

  const HOOK: string := "webhook:grafana"
  const MAX_SERVICES: nat := 8

  datatype Alert = Alert(status: string, service: string)
  datatype Payload = Payload(status: string, alerts: seq<Alert>)
  datatype Delivery = Delivery(timestamp: string, body: string)

  /** The two hashes of a delivery: the idempotency key of a service's job and the body of its operation. */
  datatype Digests = Digests(key: (string, string, string) -> string, heal: (string, string) -> string)

  ghost predicate Injective(h: Digests) {
    forall t, b, s, t', b', s' :: h.key(t, b, s) == h.key(t', b', s') ==> t == t' && b == b' && s == s'
  }

  datatype ServiceJob = ServiceJob(service: string, job: nat, replayed: bool)
  datatype Receipt = Ignored | TooMany | Failed(error: StoreError) | Queued(jobs: seq<ServiceJob>)

  /** The services with a firing alert in a firing payload. */
  function Firing(payload: Payload, valid: string -> bool): set<string> {
    if payload.status != "firing" then {} else
      set a | a in payload.alerts && a.status == "firing" && valid(a.service) :: a.service
  }

  // ---- sorted(services) --------------------------------------------------------------------------------------------

  ghost predicate Ascending(list: seq<string>) {
    forall i, j :: 0 <= i < j < |list| ==> Timestamps.Less(list[i], list[j])
  }

  lemma {:induction false} LessTransitive(a: string, b: string, c: string)
    requires Timestamps.Less(a, b) && Timestamps.Less(b, c)
    ensures Timestamps.Less(a, c)
  {
    if |a| > 0 && a[0] == b[0] == c[0] { LessTransitive(a[1..], b[1..], c[1..]); }
  }

  lemma {:induction false} LessTotal(a: string, b: string)
    ensures a == b || Timestamps.Less(a, b) || Timestamps.Less(b, a)
  {
    if |a| > 0 && |b| > 0 && a[0] == b[0] {
      LessTotal(a[1..], b[1..]);
      assert a == [a[0]] + a[1..] && b == [b[0]] + b[1..];
    }
  }

  /** `list` with `x` put in its place. */
  method Insort(list: seq<string>, x: string) returns (longer: seq<string>)
    requires Ascending(list) && x !in list
    ensures Ascending(longer) && |longer| == |list| + 1
    ensures forall y :: y in longer <==> y == x || y in list
  {
    var k := 0;
    while k < |list| && Timestamps.Less(list[k], x)
      invariant k <= |list| && forall i :: 0 <= i < k ==> Timestamps.Less(list[i], x)
    {
      k := k + 1;
    }
    longer := list[..k] + [x] + list[k..];
    forall i | k <= i < |list| ensures Timestamps.Less(x, list[i]) {
      LessTotal(list[k], x);
      assert list[k] in list;
      if i > k { LessTransitive(x, list[k], list[i]); }
    }
    forall y ensures y in longer <==> y == x || y in list {
      assert list == list[..k] + list[k..];
    }
  }

  method Sorted(services: set<string>) returns (list: seq<string>)
    ensures Ascending(list) && |list| == |services|
    ensures forall s :: s in list <==> s in services
  {
    list := [];
    var rest := services;
    while rest != {}
      invariant rest <= services && Ascending(list) && |list| + |rest| == |services|
      invariant forall s :: s in list <==> s in services - rest
      decreases |rest|
    {
      var s :| s in rest;
      list := Insort(list, s);
      rest := rest - {s};
    }
  }

  // ---- the batch ---------------------------------------------------------------------------------------------------

  function HealRequest(h: Digests, d: Delivery, service: string): JobRequest {
    JobRequest("grafana-" + h.key(d.timestamp, d.body, service), Plain(WEBHOOK_HEAL, h.heal(d.body, service)))
  }

  function HealRequests(h: Digests, d: Delivery, services: seq<string>): seq<JobRequest> {
    seq(|services|, i requires 0 <= i < |services| => HealRequest(h, d, services[i]))
  }

  function HealBatch(h: Digests, d: Delivery, services: seq<string>): Op {
    SubmitBatch(HealRequests(h, d, services), HOOK, MAX_ACTIVE_HEALS)
  }

  lemma KeysDiffer(h: Digests, d: Delivery, service: string, d': Delivery, service': string)
    requires Injective(h) && HealRequest(h, d, service).key == HealRequest(h, d', service').key
    ensures d == d' && service == service'
  {
    assert HealRequest(h, d, service).key[8..] == h.key(d.timestamp, d.body, service);
    assert HealRequest(h, d', service').key[8..] == h.key(d'.timestamp, d'.body, service');
  }

  /** One receipt per service, in order, naming the job that answers its request. */
  function ReceiptsOf(services: seq<string>, marks: seq<Mark>): seq<ServiceJob>
    requires |marks| == |services|
  {
    seq(|services|, i requires 0 <= i < |services| => ServiceJob(services[i], marks[i].job, !marks[i].created))
  }

  method Receipts(services: seq<string>, marks: seq<Mark>) returns (receipt: Receipt)
    requires |marks| == |services|
    ensures receipt == Queued(ReceiptsOf(services, marks))
  {
    var receipts: seq<ServiceJob> := [];
    for i := 0 to |services|
      invariant receipts == ReceiptsOf(services, marks)[..i]
    {
      receipts := receipts + [ServiceJob(services[i], marks[i].job, !marks[i].created)];
    }
    receipt := Queued(receipts);
  }

  method FiringServices(payload: Payload, valid: string -> bool) returns (services: set<string>)
    ensures services == Firing(payload, valid)
    ensures forall s :: s in services <==>
              payload.status == "firing" && valid(s)
              && exists a :: a in payload.alerts && a.status == "firing" && a.service == s
  {
    services := {};
    if payload.status == "firing" {
      for n := 0 to |payload.alerts|
        invariant services == Firing(payload.(alerts := payload.alerts[..n]), valid)
      {
        var alert := payload.alerts[n];
        assert payload.alerts[..n + 1] == payload.alerts[..n] + [alert];
        if alert.status != "firing" { continue; }
        if valid(alert.service) { services := services + {alert.service}; }
      }
      assert payload.alerts[..|payload.alerts|] == payload.alerts;
    }
  }

  method BuildRequests(h: Digests, d: Delivery, list: seq<string>) returns (requests: seq<JobRequest>)
    ensures requests == HealRequests(h, d, list)
  {
    requests := [];
    for i := 0 to |list|
      invariant requests == HealRequests(h, d, list)[..i]
    {
      requests := requests + [HealRequest(h, d, list[i])];
    }
  }

  /** `accept_grafana_alert`, once the request is authenticated and parsed. */
  method AcceptGrafanaAlert(store: CS.ControllerStore, h: Digests, now: int, d: Delivery, payload: Payload,
                            valid: string -> bool) returns (receipt: Receipt, ghost sorted: seq<string>)
    requires store.Valid() && Injective(h)
    modifies store
    ensures store.Valid()
    ensures Ascending(sorted) && forall s :: s in sorted <==> s in Firing(payload, valid)
    ensures receipt.Ignored? <==> Firing(payload, valid) == {}
    ensures receipt.TooMany? <==> |Firing(payload, valid)| > 8
    ensures receipt.Ignored? || receipt.TooMany? ==>
              store.Tables() == old(store.Tables()) && store.history == old(store.history)
    ensures !receipt.Ignored? && !receipt.TooMany? ==>
              (var decision := Decide(old(store.Tables()), now, HealBatch(h, d, sorted));
               && store.Did(now, HealBatch(h, d, sorted), CS.ReplyOf(decision))
               && (decision.Refuse? ==> receipt == Failed(decision.error))
               && (decision.Commit? ==> |decision.marks| == |sorted|
                                        && receipt == Queued(ReceiptsOf(sorted, decision.marks))))
  {
    var services := FiringServices(payload, valid);
    var list := Sorted(services);
    sorted := list;
    if services == {} { return Ignored, sorted; }
    if |services| > MAX_SERVICES { return TooMany, sorted; }
    var requests := BuildRequests(h, d, list);
    ghost var before := store.Tables();
    var reply := store.SubmitJobBatch(now, requests, HOOK, MAX_ACTIVE_HEALS);
    if reply.Refused? { return Failed(reply.error), sorted; }
    BatchAnswers(before, now, requests, HOOK, MAX_ACTIVE_HEALS);
    receipt := Receipts(list, reply.marks);
  }

  // ---- what the store answers ---------------------------------------------------------------------------------------

  /** The key and payload of a row are those of some delivery's request. */
  ghost predicate Healing(h: Digests, key: string, hash: Digest<JobRequest>) {
    exists d, service :: HealRequest(h, d, service).key == key && Sha256(HealRequest(h, d, service)) == hash
  }

  ghost predicate OnlyHeals(h: Digests, db: Db) {
    forall i :: 0 <= i < |db.jobs| && db.jobs[i].principal == HOOK ==>
      Healing(h, db.jobs[i].key, db.jobs[i].payloadHash)
  }

  /** The webhook principal submits nothing but deliveries. */
  ghost predicate HookOp(h: Digests, op: Op) {
    && (op.Submit? ==> op.principal != HOOK)
    && (op.SubmitBatch? && op.principal == HOOK ==>
          forall i :: 0 <= i < |op.requests| ==> Healing(h, op.requests[i].key, Sha256(op.requests[i])))
  }

  predicate Hooked(e: Edit) {
    e.Insert? && e.principal == HOOK
  }

  lemma {:induction false} EditsKeepHeals(h: Digests, db: Db, now: int, edits: seq<Edit>)
    requires OnlyHeals(h, db) && AllInRange(db, edits)
    requires forall k :: 0 <= k < |edits| && Hooked(edits[k]) ==>
               Healing(h, edits[k].request.key, Sha256(edits[k].request))
    ensures OnlyHeals(h, ApplyAll(db, now, edits))
  {
    if |edits| > 0 {
      EditsKeepHeals(h, db, now, edits[..|edits| - 1]);
    }
  }

  lemma HookEdits(h: Digests, db: Db, now: int, op: Op)
    requires HookOp(h, op) && Decide(db, now, op).Commit?
    ensures var edits := Decide(db, now, op).edits;
            forall k :: 0 <= k < |edits| && Hooked(edits[k]) ==>
              Healing(h, edits[k].request.key, Sha256(edits[k].request))
  {
    if op.SubmitBatch? {
      ScanFresh(db, op.requests, op.principal);
      var pending := ScanBatch(db, op.requests, op.principal).pending;
      forall k | 0 <= k < |pending| && op.principal == HOOK ensures Healing(h, pending[k].key, Sha256(pending[k])) {
        assert pending[k] in op.requests;
      }
    }
  }

  lemma {:induction false} RunsKeepHeals(h: Digests, steps: seq<Step>)
    requires forall k :: 0 <= k < |steps| ==> HookOp(h, steps[k].op)
    ensures OnlyHeals(h, Run(EMPTY, steps))
  {
    if |steps| > 0 {
      var n := |steps| - 1;
      RunsKeepHeals(h, steps[..n]);
      var db := Run(EMPTY, steps[..n]);
      if Decide(db, steps[n].now, steps[n].op).Commit? {
        HookEdits(h, db, steps[n].now, steps[n].op);
        EditsKeepHeals(h, db, steps[n].now, Decide(db, steps[n].now, steps[n].op).edits);
      }
    }
  }

  /** How many of the requests name no job yet. */
  function Missing(db: Db, requests: seq<JobRequest>): nat {
    if |requests| == 0 then 0
    else Missing(db, requests[..|requests| - 1])
         + (if FindKey(db.jobs, HOOK, requests[|requests| - 1].key).None? then 1 else 0)
  }

  lemma {:induction false} HealScan(h: Digests, db: Db, d: Delivery, services: seq<string>)
    requires Injective(h) && OnlyHeals(h, db)
    ensures var scan := ScanBatch(db, HealRequests(h, d, services), HOOK);
            scan.Scanned? && |scan.pending| == Missing(db, HealRequests(h, d, services))
  {
    if |services| > 0 {
      var n := |services| - 1;
      var requests := HealRequests(h, d, services);
      HealScan(h, db, d, services[..n]);
      assert requests[..n] == HealRequests(h, d, services[..n]);
      var found := FindKey(db.jobs, HOOK, requests[n].key);
      if found.Some? {
        FindKeyExact(db.jobs, HOOK, requests[n].key);
        var row := db.jobs[found.value];
        var d', service' :| HealRequest(h, d', service').key == row.key
                            && Sha256(HealRequest(h, d', service')) == row.payloadHash;
        KeysDiffer(h, d, services[n], d', service');
      }
    }
  }

  lemma HealShape(h: Digests, d: Delivery, services: seq<string>)
    requires Injective(h) && Ascending(services) && 0 < |services| <= MAX_SERVICES
    ensures BatchShape(HealRequests(h, d, services), MAX_ACTIVE_HEALS)
  {
    var requests := HealRequests(h, d, services);
    forall i, j | 0 <= i < j < |requests| ensures requests[i].key != requests[j].key {
      if requests[i].key == requests[j].key {
        KeysDiffer(h, d, services[i], d, services[j]);
        Timestamps.Irreflexive(services[i]);
        assert false;
      }
    }
  }

  /** In every run in which the webhook principal submits only deliveries, a delivery is refused exactly when its new
      jobs do not fit beside the active ones, and then with the queue-limit error: never as malformed, as a conflict
      or as unprotected. */
  lemma {:induction false} OnlyAFullQueueRefuses(h: Digests, steps: seq<Step>, now: int, d: Delivery,
                                                 services: seq<string>)
    requires Injective(h) && Ascending(services) && 0 < |services| <= MAX_SERVICES
    requires forall k :: 0 <= k < |steps| ==> HookOp(h, steps[k].op)
    ensures var db := Run(EMPTY, steps);
            var missing := Missing(db, HealRequests(h, d, services));
            var full := ActiveCount(db.jobs, {WEBHOOK_HEAL}) + missing > MAX_ACTIVE_HEALS;
            && (Decide(db, now, HealBatch(h, d, services)).Refuse? <==> full)
            && (full ==> Decide(db, now, HealBatch(h, d, services)) == Refuse(QueueLimit))
  {
    RunsKeepHeals(h, steps);
    HealShape(h, d, services);
    HealScan(h, Run(EMPTY, steps), d, services);
  }

  /** Healing jobs never exceed their cap in a run of the app's own calls. */
  lemma {:induction false} HealsWithinCap(steps: seq<Step>)
    requires forall k :: 0 <= k < |steps| ==> FromApp(steps[k].op)
    ensures ActiveCount(Run(EMPTY, steps).jobs, {WEBHOOK_HEAL}) <= MAX_ACTIVE_HEALS
  {
    AdmissionCaps(steps);
    assert SlotsOf(WEBHOOK_HEAL) == Some(({WEBHOOK_HEAL}, MAX_ACTIVE_HEALS));
  }

  lemma HealBatchIsFromApp(h: Digests, d: Delivery, services: seq<string>)
    ensures FromApp(HealBatch(h, d, services))
    ensures |services| > 0 ==> HealRequests(h, d, services)[0].Kind() == WEBHOOK_HEAL
  {
  }

  lemma {:induction false} RunThrough(earlier: seq<Step>, step: Step, steps: seq<Step>)
    ensures Run(EMPTY, (earlier + [step]) + steps) == Run(Do(Run(EMPTY, earlier), step.now, step.op), steps)
  {
    assert (earlier + [step])[..|earlier|] == earlier;
    RunConcat(EMPTY, earlier + [step], steps);
  }

  /** In a run of the app's own calls a redelivered alert is never refused: whatever happened since it was accepted,
      it is answered with the same jobs, all marked replayed, and changes no table. */
  lemma {:induction false} RedeliveryIsStable(h: Digests, earlier: seq<Step>, now: int, d: Delivery,
                                              services: seq<string>, steps: seq<Step>, later: int)
    requires Decide(Run(EMPTY, earlier), now, HealBatch(h, d, services)).Commit?
    requires forall k :: 0 <= k < |earlier| ==> FromApp(earlier[k].op)
    requires forall k :: 0 <= k < |steps| ==> FromApp(steps[k].op)
    ensures var batch := HealBatch(h, d, services);
            var store := Run(Do(Run(EMPTY, earlier), now, batch), steps);
            && Do(store, later, batch) == store
            && Decide(store, later, batch) == Commit([], Replayed(Decide(Run(EMPTY, earlier), now, batch).marks))
  {
    var step := Step(now, HealBatch(h, d, services));
    HealBatchIsFromApp(h, d, services);
    RunThrough(earlier, step, steps);
    HealsWithinCap((earlier + [step]) + steps);
    HealReplay(h, Run(EMPTY, earlier), now, d, services, steps, later);
  }

  lemma {:induction false} HealReplay(h: Digests, db: Db, now: int, d: Delivery, services: seq<string>,
                                      steps: seq<Step>, later: int)
    requires Decide(db, now, HealBatch(h, d, services)).Commit?
    requires ActiveCount(Run(Do(db, now, HealBatch(h, d, services)), steps).jobs, {WEBHOOK_HEAL}) <= MAX_ACTIVE_HEALS
    ensures var batch := HealBatch(h, d, services);
            var store := Run(Do(db, now, batch), steps);
            && Do(store, later, batch) == store
            && Decide(store, later, batch) == Commit([], Replayed(Decide(db, now, batch).marks))
  {
    HealBatchIsFromApp(h, d, services);
    BatchReplay(db, now, HealRequests(h, d, services), HOOK, MAX_ACTIVE_HEALS, steps, later);
  }

  /** An accepted delivery answers for each service with a job of the webhook principal that heals this service for this
      very alert, and calls it replayed exactly if it was there before. */
  lemma ReceiptsAnswer(h: Digests, db: Db, now: int, d: Delivery, services: seq<string>, i: nat)
    requires Decide(db, now, HealBatch(h, d, services)).Commit? && i < |services|
    ensures var marks := Decide(db, now, HealBatch(h, d, services)).marks;
            var after := Do(db, now, HealBatch(h, d, services));
            && |marks| == |services| && marks[i].job < |after.jobs|
            && var row, receipt := after.jobs[marks[i].job], ReceiptsOf(services, marks)[i];
            && row.principal == "webhook:grafana"
            && row.payloadHash == Sha256(JobRequest("grafana-" + h.key(d.timestamp, d.body, services[i]),
                                                    Plain(WEBHOOK_HEAL, h.heal(d.body, services[i]))))
            && receipt.service == services[i] && receipt.job == marks[i].job
            && (receipt.replayed <==> receipt.job < |db.jobs|)
  {
    var after, marks := Do(db, now, HealBatch(h, d, services)), Decide(db, now, HealBatch(h, d, services)).marks;
    BatchAnswers(db, now, HealRequests(h, d, services), HOOK, MAX_ACTIVE_HEALS);
    assert Answered(db, after, now, marks[i], HealRequest(h, d, services[i]), HOOK);
    FindKeyExact(after.jobs, HOOK, HealRequest(h, d, services[i]).key);
  }
}
