/** The closed vocabulary of the controller: job kinds, job states and the two predicates over them
    that every other component consults. */
module Contracts {

  datatype Option<+T> = None | Some(value: T)

  /** SHA-256, free of collisions. */
  datatype Digest<T> = Sha256(of: T)

  /** One second, in the microseconds all times are counted in. */
  const SECOND: int := 1_000_000

  datatype JobKind =
    | GENERATE | VERIFY | SERVICE_VERIFY | DEPLOY | RECOVER | DESTROY_INFRA | DNS_SYNC | MAINTENANCE
    | BACKUP_DRILL | UPDATE | RESTORE_DRILL | HOST_RECONCILE | HOST_REMOVE | CONTAINER_ACTION
    | SERVICE_ACTION | CONFIG_APPLY | SECRET_ROTATION | WEBHOOK_HEAL | IDENTITY

  datatype JobState = QUEUED | RUNNING | CANCEL_REQUESTED | SUCCEEDED | PARTIAL_FAILURE | FAILED | CANCELLED

  const NON_CANCELLABLE_AFTER_START: set<JobKind> :=
    {HOST_RECONCILE, HOST_REMOVE, IDENTITY, MAINTENANCE, BACKUP_DRILL, RESTORE_DRILL, UPDATE, SERVICE_ACTION}

  predicate CanCancel(kind: JobKind, state: JobState) {
    state == QUEUED || (state == RUNNING && kind !in NON_CANCELLABLE_AFTER_START)
  }

  predicate Terminal(state: JobState) {
    state in {SUCCEEDED, PARTIAL_FAILURE, FAILED, CANCELLED}
  }

  /** A worker may hold a lease on a job in exactly these states. */
  predicate Leased(state: JobState) {
    state == RUNNING || state == CANCEL_REQUESTED
  }

  /** The state graph of the store. */
  function Transitions(state: JobState): set<JobState> {
    match state
    case QUEUED => {RUNNING, CANCELLED}
    case RUNNING => {CANCEL_REQUESTED, SUCCEEDED, PARTIAL_FAILURE, FAILED}
    case CANCEL_REQUESTED => {CANCELLED, FAILED}
    case _ => {}
  }
}
