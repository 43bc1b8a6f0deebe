# Bastion control plane: a Dafny model

Bastion dispatches operator-defined shell commands to remote nodes and
tracks each dispatch as an execution. This project models its Go core and
one data-shaping routine of its web client:

- **`BastionService`** (`cmd/internal/core/service.go`). It creates and
  deletes commands, registers nodes, dispatches a command to a node and
  lists executions. The execution state machine is modelled too: a record
  is stored `running`, then finalised as `succeeded` or `failed`.
- **The in-memory repositories** (`cmd/internal/core/repo.go`). These are
  map-backed stores with upsert `Save`, `Get` and `List`.
- **The GPU chart data** (`web/src/components/GpuChart.tsx`). Samples are
  grouped into one row per timestamp, with `<node>_util` / `<node>_mem`
  fields, and the rows are sorted by timestamp.

Layout, one module per file:

| file | module | what it holds |
|---|---|---|
| `wrappers.dfy` | `Wrappers` | `Option`, and `Result` for Go's `(value, error)` |
| `models.dfy` | `Models` | the records of `models.go` and the lifecycle predicates `Consistent`, `InFlight`, `Finalizes` |
| `strings.dfy` | `Strings` | `strings.TrimSpace` with `unicode.IsSpace`; `strings.TrimRight(s, "/")` |
| `collections.dfy` | `Collections` | enumerating a map's values (Go's `range`, JS `Object.values`); in-place insertion sort by an integer key (Go's `sort.Slice`, JS `Array.prototype.sort`) |
| `repo.dfy` | `Repository` | `InMemoryRepo<T>`: one generic class for the three identical Go repositories, plus a `Delete` they do not define (see below) |
| `service.dfy` | `Service` | `BastionService` and the executor interface |
| `gpu_chart.dfy` | `GpuChart` | the grouping fold, its reference description, and the sorted rows |

What the service cannot compute itself is passed in as a parameter:

- the random suffix that `randomID` draws (`crypto/rand`);
- the clock readings of `time.Now`, with `Time` an integer;
- the node's daemon, as an `Executor`. It is a function from the URL and
  the `ExecRequest` to either the decoded `ExecResponse` or the step at
  which the round trip failed (marshal, build request, send, decode), with
  the underlying error text.

The service's record-level invariant is `ExecutionsConsistent`: no stored
execution is `pending`, and a record has `completedAt` exactly when it is
terminal. Every state-changing method preserves it.

Where the design and the code disagree, the model follows the code:

- executions are created `running` and never `pending`;
- a transport failure is recorded as `failed` with exit code 1; there is
  no separate timeout status or sentinel exit code, since a timed-out
  request is just one more failed round trip;
- `durationMs` is copied from the daemon's response, not computed;
- command names need not be unique, and deleting a command is never
  refused because executions refer to it;
- `CreateCommand` does not reject a non-positive timeout; it replaces it
  with 300;
- a generated ID that collides with a stored one overwrites that record,
  since `Save` is an upsert;
- `DeleteCommand` calls `s.commands.Delete(id)` (cmd/internal/core/service.go:77),
  but `CommandRepository` (cmd/internal/core/repo.go:5-9) declares no
  `Delete` and the in-memory repositories in repo.go define none; only the
  PostgreSQL repository has one. `InMemoryRepo.Delete` is therefore an
  assumed operation, a plain removal of the key from the map, that the
  in-memory source does not define.

## Model

| member | source | states |
|---|---|---|
| `Service.BastionService.CreateCommand` | cmd/internal/core/service.go:55-68 | A name that is blank after `TrimSpace` gives "name is required". A valid name with a blank script gives "script is required". In both cases nothing is stored. Otherwise the command keeps its name, description and script. A timeout of 0 or less becomes 300 and a positive one is kept. The ID is `cmd-<suffix>`, `createdAt` is the clock reading, and the store gains exactly this entry, so a `Get` of the returned ID yields the returned command. |
| `Service.BastionService.DeleteCommand` | cmd/internal/core/service.go:70-79 | A blank ID gives "id is required" and an unknown ID gives "unknown command <id>"; the store is then unchanged. On success the ID is gone, the store shrinks by one, and every other command is unchanged. |
| `Service.BastionService.RegisterNode` | cmd/internal/core/service.go:81-86 | An empty ID (checked without trimming) is replaced by `node-<suffix>`. Name and address are kept, and the node is upserted under its ID. |
| `Service.BastionService.ExecuteCommand` | cmd/internal/core/service.go:88-149 | An unknown command or an unknown node is rejected with the source's message, and no execution is stored. Otherwise the record first stored is `running`, has no `completedAt`, and carries the `exec-<suffix>` ID, the command and node IDs and the start time. The stored final record `Finalizes` it. On a response the status is `succeeded` iff the exit code is 0 (else `failed`), and stdout, stderr, exit code and duration are copied. On a transport error the status is `failed`, the exit code is 1, stderr is the step's message, and the error is returned. The returned record is consistent and no longer in flight, and `ExecutionsConsistent` is preserved. |
| `Service.FailedRecordsOutcome` | cmd/internal/core/service.go:113-134 | The record that `failExecution` builds from a running one, returned beside the transport error, records that error as the outcome and is a consistent, terminal record. |
| `Service.CompletedRecordsOutcome` | cmd/internal/core/service.go:136-148 | A record that finalises the running one with the response's status rule and fields, returned with no error, records the response as the outcome and is a consistent, terminal record. |
| `Service.OutcomeSeesOnlyRequest` | cmd/internal/core/service.go:108-125 | What the daemon answers (`Outcome`) depends only on the command's script and timeout (the `ExecRequest`, with no working directory) and the node address up to trailing slashes (the URL). Command IDs, names and descriptions, and node IDs and names, are not sent. |
| `Service.BastionService.StartExecution` | cmd/internal/core/service.go:98-106 | Stores the record that is `running` with no completion time, under its fresh ID, built from the command, the node and the start time. |
| `Service.BastionService.CompleteExecution` | cmd/internal/core/service.go:136-148 | Status is `succeeded` iff the response's exit code is 0. Output, exit code and duration come from the response, and `completedAt` is set. ID, command, node and start time are kept. The record is stored and is a `Finalizes` step from an in-flight record. |
| `Service.BastionService.FailExecution` | cmd/internal/core/service.go:151-159 | The record becomes `failed` with `completedAt` set, stderr the message and exit code 1. Everything else is unchanged. It is stored and is a `Finalizes` step from an in-flight record. |
| `Service.BastionService.ListExecutions` | cmd/internal/core/service.go:47-53 | The result is a permutation of the stored executions (same multiset, one per key), ordered by `startedAt` non-increasing. |
| `Service.BastionService.constructor` | cmd/internal/core/service.go:24-33 | The service holds exactly the three given repositories, each keyed by its records' ID. |
| `Service.RandomId` | cmd/internal/core/service.go:161-167 | The ID is the prefix, a dash and the random suffix, each recoverable by position. |
| `Service.ExecEndpoint` | cmd/internal/core/service.go:118 | The URL ends in `/api/v1/exec`, and what precedes it is the node address with its trailing slashes removed. |
| `Service.Message` | cmd/internal/core/service.go:113-134 | The stderr message for a transport failure ends with the underlying error text. |
| `Repository.InMemoryRepo.Save` | cmd/internal/core/repo.go:49-54 | Returns its argument, and a `Get` of its ID then yields it. Upserting an existing ID does not grow the store. Every other ID's entry is unchanged. |
| `Repository.InMemoryRepo.Get` | cmd/internal/core/repo.go:42-47 | Finds an entry iff the ID is stored, yields the stored record, and returns `None` (Go's `false`) for an absent ID. |
| `Repository.InMemoryRepo.List` | cmd/internal/core/repo.go:32-40 | The result holds exactly the stored values, one per key: its length is the number of entries, its multiset is the set of values, and each element sits under its own ID. Order is unspecified. |
| `Repository.InMemoryRepo.Delete` | cmd/internal/core/service.go:77 | Removes exactly the given key. This is the map removal the call at service.go:77 needs; the in-memory repositories of repo.go do not define it. |
| `Repository.InMemoryRepo.constructor` | cmd/internal/core/repo.go:28-30 | A new repository is empty. |
| `Collections.MapValues` | cmd/internal/core/repo.go:35-38 | The `range` loop over the map yields every value exactly once. Its length is the size of the map, and each element is the value stored under its own key. |
| `Collections.SortBy` | cmd/internal/core/service.go:49-51 | The in-place sort leaves the array a permutation of itself, ordered by the key. |
| `Strings.TrimLeftSpace` | cmd/internal/core/service.go:56 | The result is the suffix left after dropping leading white space: everything dropped is a space and the result does not start with one. |
| `Strings.TrimRightSpace` | cmd/internal/core/service.go:56 | The result is the prefix left after dropping trailing white space: everything dropped is a space and the result does not end with one. |
| `Strings.IsSpace` | cmd/internal/core/service.go:56 | Of `unicode.IsSpace`: no printable ASCII character other than the space is white space, and every white-space character is the space, one of the controls `\t`..`\r`, or lies between U+0085 and U+3000. |
| `Strings.TrimSpace` | cmd/internal/core/service.go:56 | The result neither starts nor ends with white space. |
| `Strings.TrimSpaceInfix` | cmd/internal/core/service.go:56 | `TrimSpace(s)` is the infix of `s` left after cutting a run of white space from each end; with `TrimSpace`'s own contract it is exactly `s` without its leading and trailing white space. |
| `Strings.TrimSpaceEmptyIff` | cmd/internal/core/service.go:56-61 | `TrimSpace(s) == ""`, the blank test of `CreateCommand` and `DeleteCommand`, holds iff every character of `s` is white space. |
| `Strings.TrimRightSlash` | cmd/internal/core/service.go:118 | The result is the longest prefix of the address not ending in '/', and everything cut is '/'. |
| `Models.FinalizesConsistent` | cmd/internal/core/models.go:20-40 | A finalising transition goes from a consistent running record to a consistent terminal one, which is no longer in flight. |
| `Models.StoreConsistent` | cmd/internal/core/repo.go:115-120 | Saving a consistent record into a consistent execution store keeps every record consistent. |
| `GpuChart.FieldNamesDistinct` | web/src/components/GpuChart.tsx:29-30 | `<n>_util` and `<n>_mem` names are injective in the node and never collide with each other. |
| `GpuChart.Place` | web/src/components/GpuChart.tsx:25-31 | One `forEach` step adds the sample's timestamp to the rows and leaves every other row unchanged. A new row is labelled with the timestamp. The row ends up with the sample's util and mem values under its node's two field names, and its other fields are unchanged. |
| `GpuChart.PlaceFieldsOf` | web/src/components/GpuChart.tsx:29-30 | After one step a row has node n's util (or mem) field exactly if it had it before, or the sample is n's reading at that timestamp. |
| `GpuChart.Group` | web/src/components/GpuChart.tsx:24-31 | The fold of `Place` over the samples in input order, keyed by timestamp: every row is labelled with the key it is stored under. |
| `GpuChart.GroupSamples` | web/src/components/GpuChart.tsx:24-31 | The `forEach` loop computes exactly the fold `Group` of the samples in input order. |
| `GpuChart.GroupRows` | web/src/components/GpuChart.tsx:26-28 | There is a row for timestamp t iff some sample has timestamp t, and that row's `timestamp` is t. |
| `GpuChart.GroupFields` | web/src/components/GpuChart.tsx:29-30 | A row for t has node n's util field iff n reported at t, and likewise its mem field. Every field is the util or mem field of a node that reported at t. |
| `GpuChart.GroupLastWins` | web/src/components/GpuChart.tsx:25-31 | For repeated (node, timestamp) samples, the row holds the utilization and memory of the last one in input order. |
| `GpuChart.SortRows` | web/src/components/GpuChart.tsx:32 | Each output row is the grouped row for its own timestamp. Every grouped timestamp appears, and timestamps strictly ascend. |
| `GpuChart.RowsAreGroups` | web/src/components/GpuChart.tsx:32 | A sorted permutation of the grouped rows has each timestamp once, strictly ascending, and each row is the one grouped under its timestamp. |
| `GpuChart.ChartData` | web/src/components/GpuChart.tsx:23-33 | Rows strictly ascend by timestamp, and there is one row per distinct sample timestamp. A row has `<n>_util` / `<n>_mem` fields exactly for the nodes n that reported at its timestamp, and no other fields. For repeated (node, timestamp) samples the row holds the values of the last one. |

## Left out

- HTTP transport, JSON marshalling and decoding, the request context and the HTTP client's 60-second timeout (cmd/internal/core/service.go:29-31): the daemon is the `Executor` parameter, which yields a response or a transport error at one of the four steps the code distinguishes.
- `randomID`'s use of `crypto/rand` and its `UnixNano` fallback, and `time.Now`: the random suffix and clock readings are parameters. The model does not assume IDs are fresh, so a collision overwrites, as in the code.
- `sync.RWMutex` locking and concurrent dispatch: the model is sequential. The intermediate `running` record is stored before the executor is called, but no concurrent reader of it is modelled.
- `ListCommands`, `GetCommand` and `ListNodes` (cmd/internal/core/service.go:35-45) only delegate to `InMemoryRepo.List` and `InMemoryRepo.Get`, which are modelled directly.
- The zero `Execution{}` / `Command{}` that Go returns beside an error: `Result.Err` and `Dispatch.Rejected` carry only the error text.
- Go strings are byte strings. `TrimSpace` is modelled on Unicode characters (`seq<char>`), so invalid UTF-8 is not modelled.
- Floating-point utilization: it is a `real` that is only copied. JS number precision for timestamps is not modelled; timestamps are integers.
- The chart rows are modelled as a timestamp plus a map from field name to value, not as a JS object. The `Line` rendering and the other React components are presentation only.
- `ChartData`: it does not state the number of rows as a set cardinality. It states a row for exactly each sample timestamp with strictly ascending timestamps, which pins down one row per distinct timestamp.
- The PostgreSQL repositories (cmd/internal/core/repo_pg.go), the HTTP handlers (cmd/bastion/main.go), the daemon's process spawning (cmd/daemon/main.go) and the YAML loader (cmd/internal/yaml/loader.go) are not part of this model.
