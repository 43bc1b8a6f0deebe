/**
 * The records of the control plane (cmd/internal/core/models.go) and the
 * execution lifecycle they obey.
 */
module Models {
  import opened Wrappers

  /** An instant. Go's time.Time is modelled as an integer count of ticks. */
  type Time = int

  datatype Command = Command(
    id: string,
    name: string,
    description: string,
    script: string,
    timeoutSeconds: int,
    createdAt: Time)

  datatype Node = Node(id: string, name: string, address: string)

  datatype ExecutionStatus = Pending | Running | Succeeded | Failed

  datatype Execution = Execution(
    id: string,
    commandId: string,
    nodeId: string,
    status: ExecutionStatus,
    startedAt: Time,
    completedAt: Option<Time>,
    stdout: string,
    stderr: string,
    exitCode: int,
    durationMs: int)

  /** The body POSTed to a node's daemon. */
  datatype ExecRequest = ExecRequest(script: string, timeoutSeconds: int, workingDir: string)

  /** The body a node's daemon answers with. */
  datatype ExecResponse = ExecResponse(stdout: string, stderr: string, exitCode: int, durationMs: int)

  predicate IsTerminal(s: ExecutionStatus) {
    s == Succeeded || s == Failed
  }

  /** What every record the service writes satisfies: it is never pending,
      and it carries a completion time exactly when it is terminal. */
  ghost predicate Consistent(e: Execution) {
    e.status != Pending && (e.completedAt.Some? <==> IsTerminal(e.status))
  }

  /** Every record of an execution store is consistent. */
  ghost predicate AllConsistent(store: map<string, Execution>) {
    forall id :: id in store ==> Consistent(store[id])
  }

  /** Storing a consistent record keeps a consistent store consistent. */
  lemma StoreConsistent(store: map<string, Execution>, id: string, e: Execution)
    requires AllConsistent(store) && Consistent(e)
    ensures AllConsistent(store[id := e])
  {
  }

  /** A record fresh from dispatch: running, not yet completed. */
  ghost predicate InFlight(e: Execution) {
    e.status == Running && e.completedAt == None
  }

  /** `after` finalises `before`: one transition from running to a terminal
      status that keeps the identity of the record and its start time. */
  ghost predicate Finalizes(before: Execution, after: Execution) {
    && InFlight(before)
    && IsTerminal(after.status)
    && after.completedAt.Some?
    && after.id == before.id
    && after.commandId == before.commandId
    && after.nodeId == before.nodeId
    && after.startedAt == before.startedAt
  }

  /** Both ends of a finalising transition are consistent records, and the
      final one is not in flight any more. */
  lemma FinalizesConsistent(before: Execution, after: Execution)
    requires Finalizes(before, after)
    ensures Consistent(before) && Consistent(after)
    ensures !InFlight(after) && after != before
  {
  }
}
