/**
 * BastionService (cmd/internal/core/service.go): command bookkeeping and the
 * execution state machine over the three repositories.
 *
 * What the service cannot compute itself is passed in: the random suffix that
 * randomID would draw, the clock readings time.Now would return, and the
 * node's daemon, an `Executor` that answers the POST to a URL with either the
 * daemon's decoded response or the step at which the round trip failed.
 */
module Service {
  import opened Wrappers
  import opened Models
  import opened Strings
  import Collections
  import Repository

  const DefaultTimeoutSeconds := 300
  /** The exit code failExecution records. */
  const TransportFailureExitCode := 1

  /** randomID(prefix): the prefix, a dash and a suffix drawn at random. */
  function RandomId(prefix: string, suffix: string): (id: string)
    ensures |id| == |prefix| + 1 + |suffix|
    ensures id[..|prefix|] == prefix && id[|prefix|] == '-' && id[|prefix| + 1..] == suffix
  {
    prefix + "-" + suffix
  }

  /** The daemon endpoint of a node: its address without trailing slashes, then the exec path. */
  function ExecEndpoint(address: string): (url: string)
    ensures |url| >= 12 && url[|url| - 12..] == "/api/v1/exec"
    ensures url[..|url| - 12] == TrimRightSlash(address)
  {
    TrimRightSlash(address) + "/api/v1/exec"
  }

  /** The step at which the round trip to the daemon failed, with the underlying error. */
  datatype TransportError =
    | MarshalFailed(cause: string)
    | BuildFailed(cause: string)
    | RequestFailed(cause: string)
    | DecodeFailed(cause: string)

  /** The message failExecution records in stderr for a transport error. */
  function Message(e: TransportError): (m: string)
    ensures |m| >= |e.cause| && m[|m| - |e.cause|..] == e.cause
  {
    match e
    case MarshalFailed(c) => "marshal request: " + c
    case BuildFailed(c) => "build request: " + c
    case RequestFailed(c) => "request failed: " + c
    case DecodeFailed(c) => "decode response: " + c
  }

  datatype ExecOutcome = Responded(response: ExecResponse) | Unreachable(error: TransportError)

  /** The daemon, as seen from the service: a URL and a request in, an outcome out. */
  type Executor = (string, ExecRequest) -> ExecOutcome

  /** What ExecuteCommand returns in place of Go's (Execution, error) pair. */
  datatype Dispatch =
    | Rejected(error: string)                          // zero Execution, non-nil error
    | Finished(execution: Execution)                   // final record, nil error
    | Aborted(execution: Execution, error: string)     // failed record, the transport error

  /** What the daemon answers when the service sends it `cmd` for `node`. */
  function Outcome(executor: Executor, cmd: Command, node: Node): ExecOutcome {
    executor(ExecEndpoint(node.address), ExecRequest(cmd.script, cmd.timeoutSeconds, ""))
  }

  /** `d` records `outcome` as the final state of the `running` record. A
      response finalises it as succeeded exactly when the exit code is 0 and
      copies the daemon's output; a transport error finalises it as failed
      with exit code 1 and the error's message in stderr, and is returned. */
  ghost predicate RecordsOutcome(running: Execution, outcome: ExecOutcome, finished: Time, d: Dispatch) {
    && !d.Rejected?
    && Finalizes(running, d.execution)
    && d.execution.completedAt == Some(finished)
    && match outcome
       case Responded(resp) =>
         && d.Finished?
         && (d.execution.status == Succeeded <==> resp.exitCode == 0)
         && d.execution.stdout == resp.stdout
         && d.execution.stderr == resp.stderr
         && d.execution.exitCode == resp.exitCode
         && d.execution.durationMs == resp.durationMs
       case Unreachable(err) =>
         && d.Aborted?
         && d.execution.status == Failed
         && d.execution.exitCode == TransportFailureExitCode
         && d.execution.stderr == Message(err)
         && d.execution.stdout == running.stdout
         && d.execution.durationMs == running.durationMs
         && d.error == err.cause
  }

  /** The daemon sees only the command's script and timeout and the node's
      address up to trailing slashes: commands and nodes that agree on those
      get the same outcome, whatever their IDs, names and descriptions. */
  lemma OutcomeSeesOnlyRequest(executor: Executor, c1: Command, c2: Command, n1: Node, n2: Node)
    requires c1.script == c2.script && c1.timeoutSeconds == c2.timeoutSeconds
    requires TrimRightSlash(n1.address) == TrimRightSlash(n2.address)
    ensures Outcome(executor, c1, n1) == Outcome(executor, c2, n2)
  {
  }

  /** failExecution's record, returned beside the transport error, records
      that error as the outcome of the running record; it is consistent. */
  lemma FailedRecordsOutcome(running: Execution, err: TransportError, finished: Time, failed: Execution)
    requires InFlight(running)
    requires failed == running.(completedAt := Some(finished), status := Failed,
                                stderr := Message(err), exitCode := TransportFailureExitCode)
    ensures RecordsOutcome(running, Unreachable(err), finished, Aborted(failed, err.cause))
    ensures Consistent(failed) && !InFlight(failed)
  {
    FinalizesConsistent(running, failed);
  }

  /** The completed record, returned with no error, records the daemon's
      response as the outcome of the running record; it is consistent. */
  lemma CompletedRecordsOutcome(running: Execution, resp: ExecResponse, finished: Time, completed: Execution)
    requires Finalizes(running, completed)
    requires completed.status == (if resp.exitCode == 0 then Succeeded else Failed)
    requires completed.completedAt == Some(finished)
    requires completed.stdout == resp.stdout && completed.stderr == resp.stderr
    requires completed.exitCode == resp.exitCode && completed.durationMs == resp.durationMs
    ensures RecordsOutcome(running, Responded(resp), finished, Finished(completed))
    ensures Consistent(completed) && !InFlight(completed)
  {
    FinalizesConsistent(running, completed);
  }

  /** A second save under the same key replaces the first. */
  lemma OverwriteTwice<V>(m: map<string, V>, k: string, first: V, second: V)
    ensures m[k := first][k := second] == m[k := second]
  {
  }

  class BastionService {
    const commands: Repository.InMemoryRepo<Command>
    const nodes: Repository.InMemoryRepo<Node>
    const executions: Repository.InMemoryRepo<Execution>

    /** Each repository keys its records by their ID field. */
    ghost predicate KeyedById() {
      && (forall c: Command {:trigger commands.idOf(c)} :: commands.idOf(c) == c.id)
      && (forall n: Node {:trigger nodes.idOf(n)} :: nodes.idOf(n) == n.id)
      && (forall e: Execution {:trigger executions.idOf(e)} :: executions.idOf(e) == e.id)
    }

    /** The repositories are valid and keyed by ID. */
    ghost predicate Valid()
      reads this, commands, nodes, executions
    {
      commands.Valid() && nodes.Valid() && executions.Valid() && KeyedById()
    }

    /** Every execution record in the store is consistent. */
    ghost predicate ExecutionsConsistent()
      reads this, executions
    {
      AllConsistent(executions.data)
    }

    /** NewBastionService. */
    constructor (commands: Repository.InMemoryRepo<Command>,
                 nodes: Repository.InMemoryRepo<Node>,
                 executions: Repository.InMemoryRepo<Execution>)
      requires commands.Valid() && nodes.Valid() && executions.Valid()
      requires forall c: Command {:trigger commands.idOf(c)} :: commands.idOf(c) == c.id
      requires forall n: Node {:trigger nodes.idOf(n)} :: nodes.idOf(n) == n.id
      requires forall e: Execution {:trigger executions.idOf(e)} :: executions.idOf(e) == e.id
      ensures Valid()
      ensures this.commands == commands && this.nodes == nodes && this.executions == executions
    {
      this.commands := commands;
      this.nodes := nodes;
      this.executions := executions;
    }

    /** All executions, most recently started first. */
    method ListExecutions() returns (list: seq<Execution>)
      requires Valid()
      ensures |list| == |executions.data|
      ensures multiset(list) == multiset(executions.data.Values)
      ensures forall i, j :: 0 <= i < j < |list| ==> list[i].startedAt >= list[j].startedAt
    {
      var stored := executions.List();
      var a := new Execution[|stored|](i requires 0 <= i < |stored| => stored[i]);
      assert a[..] == stored;
      Collections.SortBy(a, (e: Execution) => -e.startedAt);
      list := a[..];
      assert Collections.SortedBy(list, (e: Execution) => -e.startedAt);
    }

    /** Validates and stores a new command under a fresh ID. */
    method CreateCommand(input: Command, idSuffix: string, now: Time) returns (r: Result<Command>)
      requires Valid()
      modifies commands
      ensures Valid()
      ensures TrimSpace(input.name) == "" ==>
                r == Err("name is required") && commands.data == old(commands.data)
      ensures TrimSpace(input.name) != "" && TrimSpace(input.script) == "" ==>
                r == Err("script is required") && commands.data == old(commands.data)
      ensures r.Ok? <==> TrimSpace(input.name) != "" && TrimSpace(input.script) != ""
      ensures r.Ok? ==>
                && r.value.name == input.name
                && r.value.description == input.description
                && r.value.script == input.script
                && r.value.timeoutSeconds == (if input.timeoutSeconds <= 0 then DefaultTimeoutSeconds else input.timeoutSeconds)
                && r.value.timeoutSeconds > 0
                && r.value.id == RandomId("cmd", idSuffix)
                && r.value.createdAt == now
                && commands.data == old(commands.data)[r.value.id := r.value]
                && r.value.id in commands.data && commands.data[r.value.id] == r.value
    {
      if TrimSpace(input.name) == "" {
        return Err("name is required");
      }
      if TrimSpace(input.script) == "" {
        return Err("script is required");
      }
      var cmd := input;
      if cmd.timeoutSeconds <= 0 {
        cmd := cmd.(timeoutSeconds := DefaultTimeoutSeconds);
      }
      cmd := cmd.(id := RandomId("cmd", idSuffix));
      cmd := cmd.(createdAt := now);
      var saved := commands.Save(cmd);
      r := Ok(saved);
    }

    /** Removes a command; a blank or unknown ID is an error and changes nothing. */
    method DeleteCommand(id: string) returns (err: Option<string>)
      requires Valid()
      modifies commands
      ensures Valid()
      ensures TrimSpace(id) == "" ==> err == Some("id is required") && commands.data == old(commands.data)
      ensures TrimSpace(id) != "" && id !in old(commands.data) ==>
                err == Some("unknown command " + id) && commands.data == old(commands.data)
      ensures err == None <==> TrimSpace(id) != "" && id in old(commands.data)
      ensures err == None ==>
                && id !in commands.data
                && commands.data == old(commands.data) - {id}
                && |commands.data| == |old(commands.data)| - 1
                && (forall k :: k in old(commands.data) && k != id ==> k in commands.data && commands.data[k] == old(commands.data)[k])
    {
      if TrimSpace(id) == "" {
        return Some("id is required");
      }
      var found := commands.Get(id);
      if found.None? {
        return Some("unknown command " + id);
      }
      commands.Delete(id);
      assert commands.data.Keys == old(commands.data).Keys - {id};
      err := None;
    }

    /** Stores a node, giving it a random ID when it has none. */
    method RegisterNode(node: Node, idSuffix: string) returns (r: Node)
      requires Valid()
      modifies nodes
      ensures Valid()
      ensures r.id == (if node.id == "" then RandomId("node", idSuffix) else node.id)
      ensures r.name == node.name && r.address == node.address
      ensures nodes.data == old(nodes.data)[r.id := r]
    {
      var n := node;
      if n.id == "" {
        n := n.(id := RandomId("node", idSuffix));
      }
      r := nodes.Save(n);
    }

    /** The first half of ExecuteCommand: stores a running record of `cmd` on `node`. */
    method StartExecution(cmd: Command, node: Node, idSuffix: string, started: Time) returns (r: Execution)
      requires Valid()
      modifies executions
      ensures Valid()
      ensures r == Execution(RandomId("exec", idSuffix), cmd.id, node.id, Running, started, None, "", "", 0, 0)
      ensures InFlight(r) && Consistent(r)
      ensures executions.data == old(executions.data)[r.id := r]
      ensures old(ExecutionsConsistent()) ==> ExecutionsConsistent()
    {
      r := Execution(RandomId("exec", idSuffix), cmd.id, node.id, Running, started, None, "", "", 0, 0);
      var _ := executions.Save(r);
      if AllConsistent(old(executions.data)) {
        StoreConsistent(old(executions.data), r.id, r);
      }
    }

    /** failExecution: marks the record failed with exit code 1 and the message in stderr, and stores it. */
    method FailExecution(execRecord: Execution, message: string, now: Time) returns (r: Execution)
      requires Valid()
      modifies executions
      ensures Valid()
      ensures r == execRecord.(completedAt := Some(now), status := Failed, stderr := message, exitCode := TransportFailureExitCode)
      ensures InFlight(execRecord) ==> Finalizes(execRecord, r)
      ensures executions.data == old(executions.data)[r.id := r]
      ensures old(ExecutionsConsistent()) ==> ExecutionsConsistent()
    {
      var rec := execRecord;
      rec := rec.(completedAt := Some(now));
      rec := rec.(status := Failed);
      rec := rec.(stderr := message);
      rec := rec.(exitCode := TransportFailureExitCode);
      var _ := executions.Save(rec);
      r := rec;
      if AllConsistent(old(executions.data)) {
        StoreConsistent(old(executions.data), r.id, r);
      }
    }

    /** The success path of ExecuteCommand: copies the daemon's response into
        the record, completes it as succeeded exactly when the exit code is 0
        (failed otherwise), and stores it. */
    method CompleteExecution(execRecord: Execution, execResp: ExecResponse, finished: Time) returns (r: Execution)
      requires Valid()
      modifies executions
      ensures Valid()
      ensures InFlight(execRecord) ==> Finalizes(execRecord, r)
      ensures r.status == (if execResp.exitCode == 0 then Succeeded else Failed)
      ensures r.completedAt == Some(finished)
      ensures r.stdout == execResp.stdout && r.stderr == execResp.stderr
      ensures r.exitCode == execResp.exitCode && r.durationMs == execResp.durationMs
      ensures r.id == execRecord.id && r.commandId == execRecord.commandId
      ensures r.nodeId == execRecord.nodeId && r.startedAt == execRecord.startedAt
      ensures executions.data == old(executions.data)[r.id := r]
      ensures old(ExecutionsConsistent()) ==> ExecutionsConsistent()
    {
      r := execRecord;
      r := r.(stdout := execResp.stdout);
      r := r.(stderr := execResp.stderr);
      r := r.(exitCode := execResp.exitCode);
      r := r.(durationMs := execResp.durationMs);
      r := r.(completedAt := Some(finished));
      if execResp.exitCode == 0 {
        r := r.(status := Succeeded);
      } else {
        r := r.(status := Failed);
      }
      var _ := executions.Save(r);
      if AllConsistent(old(executions.data)) {
        StoreConsistent(old(executions.data), r.id, r);
      }
    }

    /** Dispatches a stored command to a registered node and records the outcome. */
    method ExecuteCommand(commandId: string, nodeId: string, idSuffix: string,
                          started: Time, finished: Time, executor: Executor)
      returns (d: Dispatch, ghost running: Execution)
      requires Valid()
      modifies executions
      ensures Valid()
      ensures old(ExecutionsConsistent()) ==> ExecutionsConsistent()
      ensures commandId !in commands.data ==>
                d == Rejected("unknown command " + commandId) && executions.data == old(executions.data)
      ensures commandId in commands.data && nodeId !in nodes.data ==>
                d == Rejected("unknown node " + nodeId) && executions.data == old(executions.data)
      ensures d.Rejected? <==> commandId !in commands.data || nodeId !in nodes.data
      ensures !d.Rejected? ==>
                && running == Execution(RandomId("exec", idSuffix), commandId, nodeId, Running, started, None, "", "", 0, 0)
                && RecordsOutcome(running, Outcome(executor, commands.data[commandId], nodes.data[nodeId]), finished, d)
                && executions.data == old(executions.data)[d.execution.id := d.execution]
                && Consistent(d.execution) && !InFlight(d.execution)
    {
      running := Execution("", "", "", Running, started, None, "", "", 0, 0);
      var cmdFound := commands.Get(commandId);
      if cmdFound.None? {
        return Rejected("unknown command " + commandId), running;
      }
      var cmd := cmdFound.value;
      var nodeFound := nodes.Get(nodeId);
      if nodeFound.None? {
        return Rejected("unknown node " + nodeId), running;
      }
      var node := nodeFound.value;

      var execRecord := StartExecution(cmd, node, idSuffix, started);
      running := execRecord;

      var req := ExecRequest(cmd.script, cmd.timeoutSeconds, "");
      var outcome := executor(ExecEndpoint(node.address), req);
      assert outcome == Outcome(executor, cmd, node);
      if outcome.Unreachable? {
        var failed := FailExecution(execRecord, Message(outcome.error), finished);
        OverwriteTwice(old(executions.data), execRecord.id, execRecord, failed);
        FailedRecordsOutcome(execRecord, outcome.error, finished, failed);
        return Aborted(failed, outcome.error.cause), running;
      }

      var completed := CompleteExecution(execRecord, outcome.response, finished);
      OverwriteTwice(old(executions.data), execRecord.id, execRecord, completed);
      CompletedRecordsOutcome(execRecord, outcome.response, finished, completed);
      d := Finished(completed);
    }
  }
}
