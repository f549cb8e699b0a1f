# Homelab controller: a verified model

This project models the durable job controller of the homelab toolkit in Dafny 4.11 and proves what it keeps over
every run. `dafny verify dfyconfig.toml` checks everything. Citations below are to the Python sources of `toolkit/`.

## What is modelled

**The job store and the worker.** `JobTables` holds the tables and says, for each store method, the refusal or the row
edits it commits; a method is one immediate transaction, hence one atomic step, and a run is any sequence of steps
with any clock readings. `ControllerStore` is the store as a class whose methods change the tables in place, loops
included; each is proved to do exactly the step `JobTables` describes, and its tables are always what its recorded
history makes of an empty database, so every theorem about runs holds of the class. `StoreEffects` and `Acceptance`
say of every call when it is accepted and what it leaves, from the columns of the rows alone. `JobRuns` carries
invariants from single guarded edits to whole runs. On top of it: `JobLifecycle` (leases, cancellation, fencing,
provenance of results), `AuditHistory`, `Approvals`, `Submissions`, `Admission`, `ClaimDrain`, `EventCursor` (the
CLI's polling loop against a moving store), `Worker` (`run_once` with an isolated handler; between any two of its own
store calls other clients and its own heartbeat may take any number of steps) and `WorkerDuties` (which outcome is due
at which turn, and how the pass then ends). `Webhooks` composes alert handling with the store, the caps and batch
replay.

**Beside the store.** `ReleaseMachine` is the update, rollback and recovery operation on its three durable records,
where any step - a write, a fenced progress event, a deployment - may raise before or after taking effect, and the
process may be killed between any two; `ReleaseLaws` says what its calls may do to the records. `FirstRun` is
first-run initialization, killed between any two file-system changes or failing while it publishes a file, with the
phases of any directory in `InstallationPhases`. `BootstrapCredentials` and `CredentialChain` are the capability and
session chain, from the token an issue answers with to the session's consumption. `Timestamps` proves that stored ISO
timestamps sort as the instants they denote, which lets the model compare integers where the SQL compares text.
`Redaction` is the windowed secret-fragment masking, `Sanitizer` the recursive payload sanitizer, and `RefreshCache`
the three single-flight view caches.

**Assumptions.** SHA-256, HMAC and sealing are injective constructors or functions; row numbers stand for uuids; times
are integers in microseconds. Only the worker's own schedule (`Chronological`) assumes a clock that does not go back;
`OneLiveCredential` speaks of any moment no earlier reading exceeds. Runs called worker-shaped (`SHAPED`) make
`transition` calls only in the shapes the worker makes them (`toolkit/controller/worker.py:339-361`, `387-394`,
`549-557`); the state graph allows two more edges that no caller uses. Approval tokens are newly drawn (`GENUINE`).
Deployments, plan checks, handler outcomes, staging failures and regular expressions are parameters.

## Where the code differs from what one might expect

- A batch whose jobs all exist already is still refused while its kind is over the cap (`Submissions.BatchReplay`,
  with `Submissions.ReplayCanBeRefused` as an instance); a single resubmission never is. Within the app's own calls
  the situation cannot arise (`Webhooks.RedeliveryIsStable`).
- A raising update leaves the active release as it was, except when it breaks off after making a different release
  active and before putting the old one back: because the progress event or a write raises there, or the deployment
  throws (`ReleaseMachine.RaisingRestores`, an if-and-only-if over the guards; `ReleaseMachine.RollbackBreaksOff` is
  an instance in which nothing was deployed).
- The operations view hides an acceptable rollback when the update plan cannot be read, and hides a pending recovery
  when the rollback record is corrupt (`ReleaseMachine.ViewCanDisagree`); otherwise view and handler agree exactly.
- First-run initialization reports that it failed before committing although the installation is ready, exactly when
  everything is published and then either the manifest's link is made but its directory cannot be synced, or the
  session grant is refused at the very end (`FirstRun.FailureReport`; `FirstRun.FalseReportExists` is an instance, and
  `FirstRun.FalseReportCauses` says when the grant is refused).
- A worker whose heartbeat fails for a reason other than its lease gives the job up while the lease is live
  (`Worker.HeartbeatBrokeExact`, an if-and-only-if; `Worker.AbandonLiveLease` is an instance); the job is reclaimed
  when the lease expires.
- Two bootstrap credentials can be live at once at a moment, exactly when some issue was made by a clock already
  beyond it: what was live then had expired by that reading and was not revoked (`BootstrapCredentials.OneLiveExact`,
  an if-and-only-if over any run; `ClockGoingBack` is an instance). At moments no reading exceeds it cannot happen.
- A result just stored is not what its key answers with, exactly when the cache was full, the key new to it and every
  other entry newer (`RefreshCache.NewResultIsServed`). A failed preflight is stamped zero, so a cache full of results
  for other keys forgets it at once (`RefreshCache.ViewCache.FailureIsRemembered`, an if-and-only-if;
  `RefreshCache.FailureForgotten` is an instance with thirty-two entries).
- Fragment redaction with `minimum` zero hides nothing, although the characters lying in a common fragment are then
  those that occur in the secret (`Redaction.ZeroMinimum`). The one call site never passes less than three.

## Model

| member | source | states |
|---|---|---|
| JobOrder.SelectExact | toolkit/controller/store.py:985-1029 | the claim queries return exactly the matching rows, each once, by creation time and row number |
| JobOrder.OrderedUnique | toolkit/controller/store.py:985-1029 | order and membership determine the query result |
| JobRuns.DecisionSound | toolkit/controller/store.py:716-1292 | every row edit any store method commits is guarded in the state it is applied to, however many edits the call makes |
| JobRuns.RecoveriesSound | toolkit/controller/store.py:985-1015 | the recovery loop cancels exactly the abandoned rows and each is still abandoned at its turn |
| JobRuns.RunKeeps | toolkit/controller/store.py:274-285 | a property kept by every guarded edit holds after any run of atomic steps |
| JobLifecycle.ReachableRows | toolkit/controller/store.py:85-95 | in every reachable store a lease exists exactly in RUNNING and CANCEL_REQUESTED, the cancel flag, generation, result and error agree with the state, and a non-cancellable kind is CANCELLED only at generation 0 |
| JobLifecycle.RunEvolves | toolkit/controller/store.py:85-95 | over any run rows stay, identity is fixed, generations never fall, finished rows are frozen, one owner per generation, both logs only grow |
| JobLifecycle.CancellationIsSticky | toolkit/controller/store.py:1198-1253 | a job once CANCEL_REQUESTED is later only that, CANCELLED or FAILED, without a result; a set flag stays set |
| JobLifecycle.StaleHolderIsFenced | toolkit/controller/store.py:1063-1113 | after a later claim no renew, transition or event carrying an earlier generation is accepted or changes anything, for any continuation and clock |
| JobLifecycle.ResultProvenance | toolkit/controller/worker.py:334-351 | a stored result was written by one accepted success report carrying the generation the row still shows |
| AuditHistory.AuditIsComplete | toolkit/controller/store.py:1345-1371 | folding the audit log of any run, checking each record, reproduces every job's current state and generation |
| AuditHistory.ReadableLog | toolkit/controller/store.py:1345-1371 | a log that reads without contradiction numbers a job's claims 1, 2, 3 and ends it at most once |
| AuditHistory.OneEndPerJob | toolkit/controller/store.py:939-1196 | claims of a job carry 1 to its generation without gap; exactly one terminal record if finished, none otherwise |
| Approvals.ApprovalConservation | toolkit/controller/store.py:887-930 | in every reachable store spent approvals and destructive jobs pair off one to one, agreeing on plan, actor, token, action, scopes and revision, unexpired when spent |
| Approvals.SpendingConserves | toolkit/controller/store.py:755-763 | admitting a destructive job adds exactly one pair, the new job with the approval it spends, and keeps every other |
| Submissions.OneJobPerKey | toolkit/controller/store.py:730-740 | no run holds two jobs under one principal and key |
| Submissions.SubmitAnswers | toolkit/controller/store.py:716-793 | an accepted submission is answered by the row carrying its payload hash, created exactly when the key was new; a replay changes nothing |
| Submissions.ResubmissionIsStable | toolkit/controller/store.py:716-793 | an equal resubmission returns the same job for ever and changes nothing, though the stored form differs; another payload is refused |
| Submissions.BatchAnswers | toolkit/controller/store.py:795-885 | a committed batch answers every request in order, creates exactly the rows whose keys were new and leaves earlier rows alone |
| Submissions.BatchReplay | toolkit/controller/store.py:795-885 | replaying a batch changes nothing and returns the same jobs if and only if its kind is not over the cap |
| Submissions.ReplayCanBeRefused | toolkit/controller/store.py:842-851 | two verification jobs for which a repeated batch is refused |
| Admission.AdmissionCaps | toolkit/controller/app.py:928-992 | in every run of app submissions each group of kinds stays within its slots, over all principals |
| Admission.SubmitCounts | toolkit/controller/store.py:741-752 | a limited submission never pushes the kinds it is limited over past the limit |
| Admission.BatchCounts | toolkit/controller/store.py:842-851 | a committed batch leaves its kind within the cap |
| ClaimDrain.ClaimNextTakesHead | toolkit/controller/store.py:979-1061 | one `claim_next` finalises every abandoned cancellation and takes exactly the head of the waiting list |
| ClaimDrain.DrainClaimsAll | toolkit/controller/store.py:979-1061 | repeated at one instant it answers with every claimable job once, oldest first, then with none |
| ClaimDrain.NoJobIsOrphaned | toolkit/controller/store.py:979-1061 | in every reachable store an unfinished job is under a live lease, abandoned mid-cancellation, or claimable |
| ClaimDrain.DrainLeavesNobodyWaiting | toolkit/controller/store.py:979-1061 | after enough calls every unfinished job is under a live lease |
| ControllerStore.ControllerStore.constructor | toolkit/controller/store.py:113-121 | a new store is empty, with an empty history |
| ControllerStore.ControllerStore.CreatePlan | toolkit/controller/store.py:642-667 | adds the plan and its audit record in one step |
| ControllerStore.ControllerStore.IssueApproval | toolkit/controller/store.py:676-710 | refuses a bad lifetime, missing plan or foreign actor, otherwise adds the approval and its audit record |
| ControllerStore.ControllerStore.SubmitJob | toolkit/controller/store.py:716-793 | is the atomic submission step of the run theorems, answer included |
| ControllerStore.ControllerStore.ScanRequests | toolkit/controller/store.py:815-841 | the lookup loop finds the refusal, or every replay and the pending requests in order |
| ControllerStore.ControllerStore.InsertPending | toolkit/controller/store.py:852-884 | the insertion loop adds the pending rows in order and records each under its key |
| ControllerStore.ControllerStore.SubmitJobBatch | toolkit/controller/store.py:795-885 | is the atomic all-or-nothing batch step, answering in request order |
| ControllerStore.ControllerStore.ClaimJob | toolkit/controller/store.py:939-977 | is the atomic claim step |
| ControllerStore.ControllerStore.FinalizeAbandoned | toolkit/controller/store.py:985-1015 | the recovery loop edits exactly the abandoned rows, with their events and audit records |
| ControllerStore.ControllerStore.ClaimNext | toolkit/controller/store.py:979-1061 | is the atomic recover-then-claim step |
| ControllerStore.ControllerStore.RenewLease | toolkit/controller/store.py:1063-1085 | is the atomic renewal step, refused without a live lease |
| ControllerStore.ControllerStore.AssertLease | toolkit/controller/store.py:1087-1113 | returns the job's state exactly when the lease is live |
| ControllerStore.ControllerStore.Transition | toolkit/controller/store.py:1115-1196 | is the atomic fenced transition, with event and audit record |
| ControllerStore.ControllerStore.RequestCancel | toolkit/controller/store.py:1198-1253 | is the atomic cancellation step |
| ControllerStore.ControllerStore.AppendEvent | toolkit/controller/store.py:1255-1294 | is the atomic event step, fenced when a lease is named |
| ControllerStore.ControllerStore.AppendAudit | toolkit/controller/store.py:1324-1343 | is the atomic audit step |
| StoreEffects.RenewalExact | toolkit/controller/store.py:1063-1085 | a renewal is accepted iff the lease is live; it moves the expiry to the seconds asked from now, so the lease is live at exactly the moments before, and changes nothing else |
| StoreEffects.LeaseHolds | toolkit/controller/store.py:939-1113 | over any run before its expiry, without calls under the lease itself, a live lease keeps owner, generation and expiry and stays live |
| StoreEffects.RenewalLasts | toolkit/controller/store.py:1063-1085 | a renewed lease is live for the seconds asked, whatever others do meanwhile |
| StoreEffects.ClaimListsExact | toolkit/controller/store.py:985-1029 | the two lists of `claim_next` by what the rows show, oldest first |
| StoreEffects.ClaimJobExact | toolkit/controller/store.py:939-977 | a claim is accepted iff the job is queued or runs under an expired lease; the whole new row and the audit record |
| StoreEffects.ClaimNextExact | toolkit/controller/store.py:979-1061 | every row, event and audit record after `claim_next`: the abandoned finalised, the head taken, all else alone |
| StoreEffects.TransitionExact | toolkit/controller/store.py:1115-1196 | a transition is accepted iff it follows the state graph from the expected state under the live lease; outcome, lease, event and audit record it writes |
| StoreEffects.CancelExact | toolkit/controller/store.py:1198-1253 | a cancellation is accepted iff the job is queued, or running and of a kind that may be cancelled; a queued job ends at once, a running one keeps its lease |
| StoreEffects.AppendEventExact | toolkit/controller/store.py:1255-1294 | an event is accepted iff its text has a valid length, the job exists and a named lease is live; only the event log grows |
| StoreEffects.PlanAndApprovalExact | toolkit/controller/store.py:642-710 | an approval is issued iff it lasts at most fifteen minutes and the plan is the caller's own; what plan and approval leave |
| Acceptance.SubmissionExact | toolkit/controller/store.py:716-793 | a new, not destructive, unsealed submission is accepted iff there is no limit or the set of unfinished rows of the counted kinds is smaller than it; the queued row and audit record it leaves, invitations sealed |
| Acceptance.SubmissionOtherwise | toolkit/controller/store.py:716-793 | the remaining answers: inadmissible limits, replay or conflict by payload under a known key, sealed invitations |
| Acceptance.DestructionExact | toolkit/controller/store.py:887-930 | a destructive submission is accepted iff a slot is free, its plan agrees and an unspent, unexpired approval carries its token, which alone is spent |
| Acceptance.TokensStayDistinct | toolkit/controller/store.py:676-710 | in every reachable store no two approvals share a token |
| Acceptance.BatchExact | toolkit/controller/store.py:795-851 | a batch is accepted iff its shape is right, every key is new or repeats its payload, and unfinished jobs of the kind plus new keys stay within the cap, both counted as sets |
| Acceptance.BatchRows | toolkit/controller/store.py:852-885 | a committed batch leaves one queued row and one audit record for each new key and nothing else |
| Acceptance.FreeSlotAdmits | toolkit/controller/app.py:928-992 | the endpoint passes on all but heals and sealed invitations, and a new request is then admitted iff no unfinished job occupies the slot its kind shares |
| Acceptance.DestructionAdmitted | toolkit/controller/app.py:928-992 | the app admits a new destructive request iff its plan agrees and an unspent, unexpired approval carries its token |
| Acceptance.SlotsAreKept | toolkit/controller/app.py:162-188 | in every run of app submissions no two unfinished jobs share a slot and at most eight heals are unfinished |
| EventCursor.AfterCursor | toolkit/controller/store.py:1312-1322 | asking after the last delivered event returns the rest of the log, nothing twice and nothing skipped |
| EventCursor.Deliver | toolkit/cli/controller_jobs.py:31-34 | a page extends the delivered prefix by the events handed over; a short page completes it |
| EventCursor.WaitForJob | toolkit/cli/controller_jobs.py:16-43 | under concurrent appends each turn hands over the smaller of a page and the rest of the log at that instant, so what is delivered is a prefix; a reported state is the job's terminal state; a timeout or an interrupt, even in the middle of a page, has requested cancellation; still waiting means every turn was taken |
| EventCursor.JobLogExact | toolkit/controller/store.py:1312-1322 | a job's log holds exactly its own events under their sequence numbers |
| EventCursor.TurnExact | toolkit/cli/controller_jobs.py:27-43 | a turn ends the wait iff the job is unknown, the user interrupts, the job is seen finished or the deadline has passed, in this order, with what is handed over and whether cancellation is asked for |
| EventCursor.FirstEndCounts | toolkit/cli/controller_jobs.py:27-43 | the wait is over at the first turn that ends it, and not before |
| Worker.OthersPersist | toolkit/controller/worker.py:165-204 | being held, being cancelled and being lost are stable under any steps of others |
| Worker.ControllerWorker.RunOnce | toolkit/controller/worker.py:313-377 | claims the job that has waited longest, under its next generation, or none iff nobody waits; on return that job is finished, or the lease was not live at the last clock reading, or shutdown, or the heartbeat broke, or a cancellation raced the failure report and the job is CANCEL_REQUESTED; exit, clock and tables are those `WorkerDuties` derives from the turns |
| Worker.ControllerWorker.ClaimOne | toolkit/controller/worker.py:313-317 | the lease taken is the one on the head of the waiting list, and none iff the list is empty |
| Worker.ControllerWorker.RunIsolated | toolkit/controller/worker.py:423-501 | outcome, flags and tables are what the turns make of them one by one, whatever others do in between |
| Worker.WatchSound | toolkit/controller/worker.py:423-501 | the outcome of the turns is accounted for by what the child, the heartbeat and the polls did, and lost or cancelled are reported only when true in the store, unless the heartbeat broke |
| Worker.ControllerWorker.Report | toolkit/controller/worker.py:339-361 | a report is accepted exactly when the lease is current and the state the expected one, and otherwise changes nothing |
| Worker.ControllerWorker.ReportSuccess | toolkit/controller/worker.py:334-361 | a cancellation that lands before the success report ends CANCELLED unless the lease is lost; otherwise the result is stored |
| Worker.ControllerWorker.FinalizeWonCancellation | toolkit/controller/worker.py:379-396 | after a refused success report the job ends CANCELLED unless the lease is lost |
| Worker.ControllerWorker.Fail | toolkit/controller/worker.py:535-560 | the job ends FAILED with the error, unless the lease is lost or a cancellation arrives after the state was read |
| Worker.ClaimGrants | toolkit/controller/store.py:1016-1061 | a claim leaves the head of the waiting list RUNNING under the caller, its generation one higher, for the seconds asked |
| Worker.HeartbeatBrokeExact | toolkit/controller/worker.py:175-196 | a job is given up for a broken heartbeat iff the heartbeat failed for another reason than the lease and the parent then saw the lease as lost or the handler succeeded |
| Worker.AbandonLiveLease | toolkit/controller/worker.py:175-196 | a run of `run_once` that returns with the job RUNNING under its live lease |
| WorkerDuties.TurnEndsWhenDue | toolkit/controller/worker.py:149-204 | a turn of the child, the heartbeat or the parent ends the wait with exactly the outcome that its row and flag make due, and otherwise leaves exactly a renewed lease or a raised flag |
| WorkerDuties.WaitEndsWhenDue | toolkit/controller/worker.py:452-485 | the wait ends at the first turn at which something is due, with that outcome, clock, flags and tables |
| WorkerDuties.WaitWithoutAnswer | toolkit/controller/worker.py:486-501 | a wait at whose turns nothing is due is an internal failure |
| WorkerDuties.SignsAreRenewals | toolkit/controller/worker.py:175-186 | the worker's sign of life moves with exactly the renewals accepted under a live lease before the wait is over |
| WorkerDuties.ReportExact | toolkit/controller/store.py:1115-1196 | a terminal report is accepted iff the job is in the expected state under the live lease, and then finishes it |
| WorkerDuties.ConcludedEnds | toolkit/controller/worker.py:333-396 | what each outcome makes of the job: exit, clock and tables, from the rows at each later reading |
| WorkerDuties.PassEndsAsDue | toolkit/controller/worker.py:313-377 | the whole pass ends as the first thing due says |
| WorkerDuties.PassWithoutAnswer | toolkit/controller/worker.py:535-560 | a pass in which nothing is due is reported failed |
| WorkerDuties.CancellationIsCarriedOut | toolkit/controller/worker.py:352-363 | a cancellation found at a look under the live lease ends the job CANCELLED, iff the lease is still live at the report |
| ReleaseMachine.ReleaseState.Update | toolkit/controller/operations.py:923-1096 | the steps taken in place are exactly the handler's ordered steps up to the one that raises, and the records are what they make of them |
| ReleaseMachine.ReleaseState.Apply | toolkit/controller/operations.py:1029-1096 | the apply branch takes exactly its ordered steps, whichever of them raises |
| ReleaseMachine.ReleaseState.Rollback | toolkit/controller/operations.py:1013-1027 | the rollback branch takes exactly its guarded ordered steps, whichever of them raises |
| ReleaseMachine.ReleaseState.Recover | toolkit/controller/operations.py:990-1005 | the recover branch is refused without a matching recovery record and otherwise deploys, then clears recovery before rollback |
| ReleaseMachine.ReleaseState.UndoApply | toolkit/controller/operations.py:1087-1096 | the automatic rollback rewrites active, records the recovery, deploys, and clears both records only on success |
| ReleaseMachine.SafeAtEveryWrite | toolkit/controller/operations.py:968-1096 | after every single durable write a recovery record names the active release |
| ReleaseMachine.AlwaysSafe | toolkit/controller/operations.py:968-1096 | the same over any sequence of calls, each completed or killed anywhere |
| ReleaseMachine.PendingStays | toolkit/controller/operations.py:1007-1011 | over any calls other than recover, completed, raising or killed, a pending recovery and every other record stay as they are |
| ReleaseMachine.RaisingRestores | toolkit/controller/operations.py:1013-1096 | a raising call, whichever step raises and whether before or after taking effect, leaves the active release as it was iff it did not break off between making a different release active and putting the old one back |
| ReleaseMachine.RollbackBreaksOff | toolkit/controller/operations.py:1021-1023 | a rollback whose progress event is refused: it raises, nothing was deployed, the active release is changed |
| ReleaseMachine.SuccessMatchesRuntime | toolkit/controller/operations.py:974-1096 | a successful call leaves active the release its last, converged deployment ran with |
| ReleaseMachine.RecordsAfterCall | toolkit/controller/operations.py:1000-1096 | a successful recover, rollback or automatic rollback leaves neither record; a failed automatic rollback leaves a recovery to the release active at entry |
| ReleaseMachine.RecoveryIsPossible | toolkit/controller/operations.py:990-1005 | after any calls, completed or killed, a pending recovery succeeds once nodes are known and the deployment converges |
| ReleaseMachine.ApplyIsUndoable | toolkit/controller/operations.py:1072-1096 | wherever an apply stops, the earlier release is active or a rollback to it passes every guard |
| ReleaseMachine.RollbackUndoesApply | toolkit/controller/operations.py:1013-1085 | rolling a successful apply back restores the previous release, and a second rollback is refused |
| ReleaseMachine.ViewOffersRollback | toolkit/controller/operations_api.py:52-108 | the view offers rollback iff rolling back the active revision would pass every guard and the plan is readable |
| ReleaseMachine.ViewAsksForRecovery | toolkit/controller/operations_api.py:52-108 | the view asks for recovery iff apply and rollback are blocked by one and the rollback record is readable |
| ReleaseMachine.ViewCanDisagree | toolkit/controller/operations_api.py:52-108 | concrete records on which view and handler disagree |
| ReleaseLaws.DeploysWhatIsActive | toolkit/controller/operations.py:972-1091 | every deployment runs with the release active at its start |
| ReleaseLaws.ClearsOnlyConverged | toolkit/controller/operations.py:1001-1094 | a recovery or rollback record is cleared only after a deployment of the same call converged |
| ReleaseLaws.PendingKept | toolkit/controller/operations.py:990-1011 | while a recovery is pending, no prefix of any call without a converged deployment changes any record |
| ReleaseLaws.PendingUntilConverged | toolkit/controller/operations.py:990-1011 | over any calls, recovers included, each completed, raising or killed, all records stay until a deployment converges |
| ReleaseLaws.RecoverExact | toolkit/controller/operations.py:990-1005 | when recover succeeds (iff) and the records every ending leaves; without convergence they are preserved |
| ReleaseLaws.RollbackExact | toolkit/controller/operations.py:1013-1027 | when rollback succeeds (iff); one that raises keeps the rollback record iff the fault does not strike right after it was cleared |
| ReleaseLaws.ApplyExact | toolkit/controller/operations.py:1029-1096 | when apply succeeds, restores the previous release, or records a recovery, each iff, and the records it then leaves |
| ReleaseLaws.RefusedBecause | toolkit/controller/operations.py:990-1018 | which refusal is given when, each iff |
| ReleaseLaws.ViewNamesActive | toolkit/controller/operations_api.py:61-103 | when the view is available (iff), and that it then names the active release |
| FirstRun.BootstrapRoot.Initialize | toolkit/controller/bootstrap_api.py:490-530 | the in-place attempt does exactly what one attempt of the run theorems does, killed or failing anywhere |
| FirstRun.BootstrapRoot.RemoveOrphanedMaterial | toolkit/controller/bootstrap_api.py:401-412 | the cleanup loop removes leftover key material in order, stopping at an unsafe file |
| FirstRun.BootstrapRoot.Publish | toolkit/controller/bootstrap_api.py:422-434 | files are installed one by one, never over an existing one, until one fails before or after its link |
| FirstRun.CrashPointPhase | toolkit/controller/bootstrap_api.py:146-175 | each crash point is classified: key material alone uninitialized, configuration or secrets recovery required, ready only with the manifest |
| FirstRun.CommittedIntact | toolkit/controller/bootstrap_api.py:123-143 | the manifest an attempt publishes is read back valid and matches every managed file |
| FirstRun.PublishedAttempt | toolkit/controller/bootstrap_api.py:508-530 | what an attempt leaves and reports, for every kill and every error during publication |
| FirstRun.AttemptStaysReachable | toolkit/controller/bootstrap_api.py:401-434 | an attempt killed or failing anywhere stays within the crash states and a retry never meets a leftover |
| FirstRun.CrashSafe | toolkit/controller/bootstrap_api.py:490-530 | over any sequence of attempts and crashes the phase tells exactly how far the installation got |
| FirstRun.NeverOverwritten | toolkit/controller/bootstrap_api.py:146-175 | once configuration, secrets or manifest exist, no sequence of attempts changes any file |
| FirstRun.FailureReport | toolkit/controller/bootstrap_api.py:513-530 | "failed before commit" is reported although something was committed iff everything gets published and then the manifest's link is not finished or the grant is refused |
| FirstRun.FalseReportExists | toolkit/controller/bootstrap_api.py:429-433 | one such attempt: the directory of the manifest cannot be synced |
| FirstRun.FalseReportCauses | toolkit/controller/bootstrap_api.py:498-519 | the final grant is refused iff the principal is malformed, the session has expired, or a step in between spoiled it |
| InstallationPhases.PhaseExact | toolkit/controller/bootstrap_api.py:123-175 | of any directory: ready iff a valid manifest lists every managed file as it is and the store loads; uninitialized iff neither manifest nor configuration nor secrets exist |
| InstallationPhases.DamageIsSeen | toolkit/controller/bootstrap_api.py:146-175 | any managed file lost or altered after commit, or a lost or invalid manifest beside configuration or secrets, requires recovery |
| InstallationPhases.CleanExact | toolkit/controller/bootstrap_api.py:401-412 | on any directory the cleanup removes plain key material only, one change a file, and stops only at an unsafe file or when killed |
| InstallationPhases.InstallExact | toolkit/controller/bootstrap_api.py:422-434 | publication into any directory never replaces a file and stops exactly at the first taken name, the fault or the kill |
| InstallationPhases.AttemptBeforePublication | toolkit/controller/bootstrap_api.py:498-508 | on any directory: grant, phase, cleanup and staging are checked in this order, with what each refusal leaves; publication keeps every file that was there |
| BootstrapCredentials.CredentialStore.IssueCapability | toolkit/controller/store.py:377-425 | is the issue step: revokes what is live, adds one capability |
| BootstrapCredentials.CredentialStore.ExchangeCapability | toolkit/controller/store.py:427-486 | is the exchange step, recording a failed secret |
| BootstrapCredentials.CredentialStore.ValidateGrant | toolkit/controller/store.py:488-500 | is the validation step |
| BootstrapCredentials.CredentialStore.ConsumeGrant | toolkit/controller/store.py:502-530 | is the consumption step |
| BootstrapCredentials.CredentialStore.AccessState | toolkit/controller/store.py:532-553 | tells whether some capability and some session is live |
| BootstrapCredentials.OneLiveCredential | toolkit/controller/store.py:377-486 | at any moment no earlier clock reading exceeds at most one credential is live, and a session ends within its capability's fifteen minutes |
| BootstrapCredentials.OneLiveExact | toolkit/controller/store.py:377-486 | over any run and clocks, two credentials are at some point live at a moment iff an issue was made by a clock beyond it while something live then had expired for that clock |
| BootstrapCredentials.StepOneLiveExact | toolkit/controller/store.py:377-640 | the same for one step of any kind, exchanges and failed secrets included |
| BootstrapCredentials.ClockGoingBack | toolkit/controller/store.py:386-400 | a run that leaves two live for a moment before its last reading |
| BootstrapCredentials.UsedOnce | toolkit/controller/store.py:427-530 | a used credential is never accepted again, whatever happens and whatever the clocks say |
| BootstrapCredentials.FiveFailuresRevoke | toolkit/controller/store.py:583-600 | wrong secrets are counted exactly over the run and the fifth revokes for good |
| BootstrapCredentials.GrantLost | toolkit/controller/store.py:502-530 | a session that validated is refused at consumption iff the principal is malformed, it has expired, or a new issue, a consumption or a fifth wrong secret came in between |
| BootstrapCredentials.AccessStateExact | toolkit/controller/store.py:532-640 | the access state is true iff some correct token would be accepted now |
| CredentialChain.IssuedTokenWorks | toolkit/controller/store.py:377-425 | an issue is granted iff lifetime and principal are admissible, and its token can be exchanged at exactly the moments before the answered expiry |
| CredentialChain.IssueLeaves | toolkit/controller/store.py:386-425 | an issue adds one capability and revokes exactly the credentials live at its reading |
| CredentialChain.ExchangedTokenWorks | toolkit/controller/store.py:427-486 | an exchange is granted iff its row allows it; its token validates and can be consumed at exactly the moments before the earlier of the two expiries |
| CredentialChain.ExchangeLeaves | toolkit/controller/store.py:427-486 | an exchange marks the capability and adds one session; a wrong secret is counted, the fifth revokes, nothing else changes |
| CredentialChain.SessionCallsExact | toolkit/controller/store.py:488-530 | when validation and consumption are accepted (iff) and what they leave |
| CredentialChain.IssueToExchange | toolkit/controller/store.py:377-486 | after any steps an issued token is exchanged iff it has not expired and none of them closed its capability |
| CredentialChain.ExchangeToConsume | toolkit/controller/store.py:427-530 | after any steps an exchanged token validates, and is consumed, iff it has not expired and none of them spoiled its session |
| CredentialChain.WholeChain | toolkit/controller/store.py:377-530 | issue, exchange and consumption with the tokens answered, any steps in between: accepted iff in time and unspoiled at both stages |
| Timestamps.TextOrderIsTimeOrder | toolkit/controller/store.py:985-1035 | text order of stored UTC timestamps is time order, with or without a fraction |
| Timestamps.FractionOrder | toolkit/controller/store.py:386-400 | the mixed case: a whole second sorts before its fractions |
| Redaction.WindowsSuffice | toolkit/controller/operations.py:66-76 | an index lies in a fixed-length matching window iff it lies in some common fragment of at least that length |
| Redaction.MarkWindows | toolkit/controller/operations.py:70-74 | the marking loop marks exactly the indices covered by a matching window |
| Redaction.Join | toolkit/controller/operations.py:77-87 | the scan outputs unmarked runs in order and one token for each maximal marked run |
| Redaction.RedactSecretFragments | toolkit/controller/operations.py:66-87 | exactly the indices in long enough common fragments are hidden, one token for each maximal run |
| Redaction.RunsUnique | toolkit/controller/operations.py:77-87 | the cut into maximal runs is unique |
| Redaction.KeptIsClean | toolkit/controller/operations.py:66-87 | no run left readable holds `minimum` consecutive characters of the secret |
| Redaction.ZeroMinimum | toolkit/controller/operations.py:66-76 | with minimum zero an index lies in a common fragment iff its character occurs in the secret |
| Sanitizer.NonInterference | toolkit/controller/sanitization.py:61-87 | values differing only beneath sensitive keys sanitize to the same result, refusals included |
| Sanitizer.ObjectNonInterference | toolkit/controller/sanitization.py:42-58 | the same for a whole payload with its size check |
| Sanitizer.SanitizeExact | toolkit/controller/sanitization.py:61-87 | a value is accepted iff it is within depth, item, key and number rules outside sensitive keys; the output is the cleaned input and is accepted again |
| Sanitizer.SanitizeObject | toolkit/controller/sanitization.py:42-58 | an accepted payload is an object within its size limit |
| Sanitizer.ObjectExact | toolkit/controller/sanitization.py:42-58 | a payload is accepted iff it is an object within the rules whose cleaned form, the one there is, encodes within the limit |
| RefreshCache.ViewCache.Read | toolkit/controller/operations_api.py:309-339 | starts a refresh exactly when nothing fresh is cached, none runs and there is room; never replaces a running one; serves only values built for the key |
| RefreshCache.ViewCache.Complete | toolkit/controller/operations_api.py:274-293 | an unregistered completion changes nothing; a registered one stores under its own key, frees the slot and drops only the oldest excess |
| RefreshCache.ViewCache.SingleFlight | toolkit/controller/dashboard_api.py:228-238 | no key ever has two refreshes running, and no more run than the limit |
| RefreshCache.PutSize | toolkit/controller/operations_api.py:274-293 | storing under a known key keeps its place in the dictionary, a new key comes last |
| RefreshCache.EvictExact | toolkit/controller/dashboard_api.py:217-219 | eviction leaves exactly the limit and drops nothing newer than what stays |
| RefreshCache.NewResultIsServed | toolkit/controller/operations_api.py:289-293 | a stored result is what its key answers with, iff not (cache full, key new, every other entry newer) |
| RefreshCache.ViewCache.FailureIsRemembered | toolkit/controller/deployment_api.py:41-55 | a failed preflight is remembered iff there is room, its key is known, or another failure is remembered |
| RefreshCache.FailureForgotten | toolkit/controller/deployment_api.py:28-55 | a cache of thirty-two results and one more key's failure: the failure is not remembered |
| Webhooks.Sorted | toolkit/controller/webhooks_api.py:150-151 | the services in strictly ascending order, each once |
| Webhooks.AcceptGrafanaAlert | toolkit/controller/webhooks_api.py:136-172 | ignores an alert without valid firing services, rejects more than eight, otherwise submits one batch and answers per service in order |
| Webhooks.OnlyAFullQueueRefuses | toolkit/controller/webhooks_api.py:149-168 | over any run a delivery is refused iff its new jobs exceed the free slots, and then with the queue limit |
| Webhooks.RedeliveryIsStable | toolkit/controller/webhooks_api.py:149-172 | a redelivered alert is always answered with the same jobs and changes nothing |
| Webhooks.ReceiptsAnswer | toolkit/controller/webhooks_api.py:149-172 | each receipt names a job of the webhook principal that heals that service for that alert, replayed iff it was there before |

## Left out

- SQLite, file modes, sockets, HTTP routing, SSH, the web UI and the read-only job views: a store method is one atomic step.
- Process isolation and signals: only the decoded outcome of the child reaches the model.
- The in-process handler path of `run_once` (a worker without a registry factory) and `run_forever`, `is_healthy`.
- AES-GCM nonces and key handling: sealing is an injective constructor, so sealing twice gives the same text here.
- Sanitizing of messages, results and errors on their way into the store: `Sanitizer` stands alone.
- Event payload bodies and correlation identifiers.
- The endpoint checks that precede a submission (who may submit, the service-action availability check, request parsing).
- Webhook signature, timestamp-window and body checks: `AcceptGrafanaAlert` starts after them.
- The text around fragment redaction (`_safe_verification_text`): cutting, whole-secret replacement and pattern cleaning.
- Regular expressions of the sanitizer and the JSON encoder: parameters of `Rules`.
- Deployments, backups, digest resolution, plan building and node selection of the update operation: oracles in `World`.
- A failing unlink while first-run leftovers are removed: it leaves the files a kill at that point leaves.
- A durable record is replaced whole or not at all: half-written files do not occur.
- Waiting on a cold cache read: the model says which future is waited for, not what the wait yields.
- Desired-state editing, DNS, LDAP, metrics collection and command-line printing.
- EventCursor.WaitForJob: does not claim that every event is delivered before the loop exits, because the loop does not drain.
- Submissions.ResubmissionIsStable: presumes admissible limits on the second call, because the code rejects inadmissible ones before it looks the key up.
