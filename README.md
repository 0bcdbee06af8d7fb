# Keptn lifecycle task orchestration and metric-name normalisation, in Dafny

This project models two pieces of the Keptn lifecycle toolkit.

**The task orchestration pass of the lifecycle operator**
(`lifecycle-operator/controllers/common/task/handler.go`). `Handler.ReconcileTasks` takes one
phase item (an application, workload or evaluation version) and one check type. It walks the
declared task-definition names in order. For each name it:

- looks up the prior `ItemStatus`;
- emits a "status changed" event when the prior status and the item status differ;
- passes Succeeded/Failed entries through untouched;
- otherwise either fetches the existing `KeptnTask` and refreshes the entry from it, or resolves
  the definition and creates a new task.

Around a task's lifetime it opens a tracing span, then ends and unbinds it. At the end it folds
the returned entries into a `StatusSummary`.

The model has two layers:

- **Specification** (`task_handler.dfy`, first half). Pure functions over a `World` value.
  `World` holds:
  - the cluster's KeptnTask objects;
  - the event log;
  - the span registry;
  - the spans that were ended;
  - the random-id source of task naming;
  - the phase context's metadata map.

  `Env` holds what the cluster serves and refuses: the task definitions, names whose Get fails
  with an error other than NotFound, names whose Create is refused, and whether setting the owner
  reference fails.
- **Imperative model** (second half). Class `Handler` has the same fields and one method per Go
  function. `ReconcileTasks` keeps the Go loops: `ReconcileNames` appends to `newStatus` in place,
  one `ReconcileItem` per declared name, and `Summarize` folds the summary. Each method is proved to leave exactly the state and result its
  specification function names. `InjectKeptnContext` writes the propagation keys one by one
  into the metadata map that belongs to the `PhaseContext` object, because the Go code writes
  into the context's own map.

The properties are proved in `task_handler_props.dfy`. The types and the small lifecycle-API
helpers the handler calls are in `keptn_api.dfy`.

**`CleanUpString` of the metrics adapter** (`metrics-adapter/cmd/adapter/main.go`). It is
modelled as pure functions in `cleanup.dfy`: `strings.FieldsFunc` as `Fields`, `strings.Join` as
`Join`. Which characters count as Unicode letters or digits is the parameter `keep`. The only
fact assumed about `keep` is that `_` is neither a letter nor a digit.

### The code as written

The model follows the Go code where it differs from what a reader might expect:

- **Skipped names are dropped.** A name whose definition is missing, or whose Create fails, gets
  no output entry for that pass. The code `continue`s before the append (handler.go:113).
  `Total` still counts every declared name (handler.go:55). So there is not always one entry per
  declared name.
- **NotFound does not re-create the task.** The entry's Name is cleared, but `taskExists` is
  still set (handler.go:83). `handleTaskExists` then runs on the empty task. The entry's status
  becomes the empty state. Creation happens only on the next pass (`StepNotFound`).
- **The creation span belongs to the empty task.** After a successful creation, the span is
  requested for the caller's task object, which is still empty, not for the created task
  (handler.go:196). Every creation therefore binds or reuses the span of the empty task's key.
  Creation leaves the created task's own span untouched (`StepCreates`, `FirstPassCreatesBoth`). That
  span is opened later, on the first pass that fetches the task (`StepFound`, `ExistsSpan`).
- **The change event compares values read before the refresh.** The prior status and the item
  status are both read before any refresh (handler.go:59-67). A name with one prior entry never
  reports a change (`NoStatusEventForKnownName`). A name with no prior entry always reports ""
  to Pending (`StatusEventOnFirstSight`).
- **A new task first reads as the empty state.** A created task has no status yet
  (`GenerateTask`). The pass after its creation copies that empty state into the entry, which
  was Pending (`StepFound`, `ExistsSpan`). The entries settle only once the task controller
  has set a status.
- **Cancelled is completed but not passed through.** The pass-through test at handler.go:70
  lets only Succeeded and Failed through, while `IsCompleted` also holds for Cancelled. A
  cancelled task that is still in the cluster is therefore fetched again on every pass. Each
  such pass opens its span, ends it with the error code and unbinds it, so every pass ends one
  more span for the same task (`StepCancelledEndsAnotherSpan`).
- **A settled pass is a fixed point.** A pass over names whose entries are Succeeded/Failed,
  or whose running tasks already report the entry's status with their span bound, changes
  nothing and returns the prior entries. Feeding that output back in gives the same pass again
  (`SettledPassIsIdempotent`, `SettledPassRerun`).

### Helpers not shown in the source

The lifecycle-API helpers the handler calls are not part of the shown source. They are modelled
in `keptn_api.dfy` as follows:

- `GetOldStatus` returns the status of the last entry with the definition name, or the empty
  state.
- `GetItemStatus` returns the first such entry, or a fresh entry that is Pending and has no
  task name.
- `IsCompleted` holds for Succeeded, Failed and Cancelled.
- `UpdateStatusSummary` increments the counter of the entry's state and counts the empty state
  as pending. Warning and Deprecated increment no counter.
- `GenerateTask` names the task `<check type>-<definition>-<id>`.

## Model

| member | source | states |
|---|---|---|
| `TaskHandler.Handler.ReconcileTasks` | lifecycle-operator/controllers/common/task/handler.go:44-127 | The new cluster, events, spans and context metadata, and the returned statuses/summary or error, are exactly `ReconcileSpec` of the old state; the loop over the names and the summary fold are `ReconcileNames` and `Summarize` |
| `TaskHandler.Handler.ReconcileNames` | lifecycle-operator/controllers/common/task/handler.go:58-120 | The loop appends to the output list in place and stops at the first Get error; its final state and list, or the error, are `Walk` over all declared names |
| `TaskHandler.Handler.ReconcileItem` | lifecycle-operator/controllers/common/task/handler.go:59-119 | One loop turn for one name leaves exactly the state and list of `Step`, or the Get error that stops the pass |
| `TaskHandler.Summarize` | lifecycle-operator/controllers/common/task/handler.go:122-124 | The summary loop applies UpdateStatusSummary to each returned entry in order: the result is `FoldSummary`, whose counts `FoldSummaryCounts` gives |
| `TaskHandler.Handler.CreateKeptnTask` | lifecycle-operator/controllers/common/task/handler.go:130-152 | Ends in `CreateSpec`: the task is generated, the context is injected, the owner is set unless the reference fails, and the task is created; a refused Create returns "" with the error and one Warning event |
| `TaskHandler.Handler.HandleTaskNotExists` | lifecycle-operator/controllers/common/task/handler.go:184-202 | Ends in `NotExistsSpec`: a missing definition gives ErrCannotGetKeptnTaskDefinition with the entry untouched; a creation error is passed on; on success Name and StartTime are set and the span of the caller's task object is bound |
| `TaskHandler.Handler.HandleTaskExists` | lifecycle-operator/controllers/common/task/handler.go:204-226 | Ends in `ExistsSpec`: the task status is copied; a completed task's span gets events and a status code, is ended and unbound, and EndTime is set |
| `TaskHandler.InjectKeptnContext` | lifecycle-operator/controllers/common/task/handler.go:154-163 | Writes the propagation keys into the context's own metadata map, one key per loop turn, and gives that map to the task; without metadata nothing changes |
| `TaskHandler.Handler.Get` | lifecycle-operator/controllers/common/task/handler.go:77 | client.Get yields the task, NotFound, or another error for the names the cluster refuses |
| `TaskHandler.Handler.GetSpanOf` | lifecycle-operator/controllers/common/task/handler.go:205 | Returns the span bound to the task's key, or binds and returns a new open one |
| `TaskHandler.Handler.Emit` | lifecycle-operator/controllers/common/task/handler.go:66 | One call of the event sender appends one event and changes nothing else |
| `TaskHandler.SetTaskFailureEvents` | lifecycle-operator/controllers/common/task/handler.go:165-167 | Appends exactly one span event, carrying the task name and failure message; nothing else about the span changes |
| `TaskHandler.SetupTasks` | lifecycle-operator/controllers/common/task/handler.go:169-182 | Pre-deployment selects the pre lists, post-deployment the post lists, any other check type no tasks and no statuses |
| `TaskHandler.Merge` | lifecycle-operator/controllers/common/task/handler.go:158-161 | The merged map has the keys of both maps; propagation keys map to their propagated values and win on collision; every other metadata key keeps its value |
| `TaskHandler.StoppedIsFinal` | lifecycle-operator/controllers/common/task/handler.go:80-82 | Once a pass has stopped on a Get error, no later name is processed: the state and error stay those of the stop |
| `TaskHandlerProps.InjectKeys` | lifecycle-operator/controllers/common/task/handler.go:154-163 | With metadata present the task holds the context's map with every propagation key set and all other keys kept; without metadata neither map nor task changes |
| `TaskHandlerProps.StepTerminal` | lifecycle-operator/controllers/common/task/handler.go:69-73 | A Succeeded/Failed entry is appended unchanged, and only its status-changed event can change the world: no Get, Create, span or unbind |
| `TaskHandlerProps.StatusEventIff` | lifecycle-operator/controllers/common/task/handler.go:59-67 | Per name at most one status-changed event, emitted exactly when the prior status differs from the item status |
| `TaskHandlerProps.StatusEventOnFirstSight` | lifecycle-operator/controllers/common/task/handler.go:59-67 | A name without a prior entry always emits the Normal ReconcileTask event saying the status changed from the empty state to Pending |
| `TaskHandlerProps.NoStatusEventForKnownName` | lifecycle-operator/controllers/common/task/handler.go:59-67 | A name whose prior entries agree never emits the event, whatever its task did, since both values are read before the refresh |
| `TaskHandlerProps.StepGetErrorStops` | lifecycle-operator/controllers/common/task/handler.go:76-82 | A Get error other than NotFound stops the pass with that error |
| `TaskHandlerProps.StepNotFound` | lifecycle-operator/controllers/common/task/handler.go:76-84 | On NotFound the entry is appended with Name cleared and the empty task's status; no task is created and the id source is untouched |
| `TaskHandlerProps.StepFound` | lifecycle-operator/controllers/common/task/handler.go:115-119 | A found task refreshes the entry through handleTaskExists and the entry is appended |
| `TaskHandlerProps.StepCreates` | lifecycle-operator/controllers/common/task/handler.go:184-202 | A successful creation appends the entry with the created task's name and a start time; the task exists with its definition and owner; the empty task's span key is bound; the created task's own span is not touched |
| `TaskHandlerProps.NotExistsCreates` | lifecycle-operator/controllers/common/task/handler.go:184-202 | handleTaskNotExists with a definition and a free name returns no error, sets Name and StartTime, creates exactly that task and binds the empty task's span key |
| `TaskHandlerProps.CreateSucceeds` | lifecycle-operator/controllers/common/task/handler.go:138-151 | Create on a free name returns that name and no error; the cluster gains exactly that task, with the definition, the owner unless the reference failed, and the injected metadata; no event |
| `TaskHandlerProps.StepCreateFails` | lifecycle-operator/controllers/common/task/handler.go:98-114 | A missing definition or refused Create appends nothing, creates nothing, binds no span; a refused Create adds exactly one Warning event |
| `TaskHandlerProps.ExistsSpan` | lifecycle-operator/controllers/common/task/handler.go:204-226 | The status is always copied; only when completed is the span ended with code Ok/Error, unbound and EndTime set, with the "has finished" event added on success and the "has failed" and failure-reason events otherwise (Failed and Cancelled); when not completed the span stays bound and open and EndTime is kept |
| `TaskHandlerProps.ExistsFailureMessage` | lifecycle-operator/controllers/common/task/handler.go:215-218 | A failed or cancelled task's ended span carries the "has failed" event followed by the failure-reason event with the task's name and message |
| `TaskHandlerProps.StepShape` | lifecycle-operator/controllers/common/task/handler.go:58-120 | One name adds at most one entry, and that entry carries the name |
| `TaskHandlerProps.WalkInOrder` | lifecycle-operator/controllers/common/task/handler.go:58-120 | Output entries sit at strictly increasing positions of the declared names |
| `TaskHandlerProps.NoDuplicateEntries` | lifecycle-operator/controllers/common/task/handler.go:58-120 | With distinct declared names, no two output entries share a definition name |
| `TaskHandlerProps.StepKeepsSpansOpen` | lifecycle-operator/controllers/common/task/handler.go:184-226 | One item never leaves an ended span bound: the span a completed task ends is the one bound in the registry, and the step unbinds it |
| `TaskHandlerProps.WalkKeepsSpansOpen` | lifecycle-operator/controllers/common/task/handler.go:220-223 | The span registry never holds an ended span: the bound span is ended in place and unbound in the same step |
| `TaskHandlerProps.AllTerminalPassThrough` | lifecycle-operator/controllers/common/task/handler.go:69-73 | If every declared name is Succeeded/Failed, the output is the prior entries in declared order and only events can change |
| `TaskHandlerProps.StepSteady` | lifecycle-operator/controllers/common/task/handler.go:76-119 | A running task that is found with the entry's status and whose span is bound is appended unchanged; no event, no span change |
| `TaskHandlerProps.SettledPassIsIdempotent` | lifecycle-operator/controllers/common/task/handler.go:58-120 | When every name is settled (terminal, or running with its status reported and its span bound), the pass changes nothing and returns the prior entries in declared order |
| `TaskHandlerProps.SettledPassRerun` | lifecycle-operator/controllers/common/task/handler.go:58-120 | Rerunning a settled pass with its own output as the prior statuses gives the same world and output |
| `TaskHandlerProps.StepCancelledEndsAnotherSpan` | lifecycle-operator/controllers/common/task/handler.go:70-73 | A cancelled task still in the cluster is not passed through: each pass ends one more span for it with the error code, unbinds it and sets EndTime, and leaves the cluster unchanged |
| `TaskHandlerProps.FoldSummaryCounts` | lifecycle-operator/controllers/common/task/handler.go:122-124 | The fold keeps Total and adds to each counter the number of entries in its state(s) |
| `TaskHandlerProps.SummaryOrderIndependent` | lifecycle-operator/controllers/common/task/handler.go:122-124 | Entries with the same multiset of states fold to the same summary |
| `TaskHandlerProps.ReconcileSummary` | lifecycle-operator/controllers/common/task/handler.go:52-55 | Total is the number of declared names even when entries are skipped; the counters fold the returned entries only; an abort carries a Get error and a summary with only Total set |
| `TaskHandlerProps.WalkStopsOnlyOnGet` | lifecycle-operator/controllers/common/task/handler.go:80-82 | The only error that stops the loop is a Get error other than NotFound |
| `TaskHandlerProps.ReconcileInOrder` | lifecycle-operator/controllers/common/task/handler.go:57-126 | Returned statuses are in declared order, at most one per declared position |
| `TaskHandlerProps.OtherCheckTypeHasNoTasks` | lifecycle-operator/controllers/common/task/handler.go:173-181 | A check type that is neither pre nor post gives an empty output, a zero summary and no change |
| `TaskHandlerProps.NotAPhaseItemAborts` | lifecycle-operator/controllers/common/task/handler.go:45-48 | An object the wrapper refuses aborts with no statuses and changes nothing |
| `TaskHandlerProps.FirstPassCreatesBoth` | lifecycle-operator/controllers/common/task/handler.go:58-120 | Two new pre-deployment tasks are both created, both entries are named, Pending and started; there are two events; the one bound span is the empty task's |
| `KeptnApi.GetItemStatus` | lifecycle-operator/controllers/common/task/handler.go:61 | The entry returned is for the asked name; it is a prior entry whenever one exists, else a fresh Pending one |
| `KeptnApi.GetOldStatus` | lifecycle-operator/controllers/common/task/handler.go:59 | A name without prior entries has the empty prior status |
| `KeptnApi.GetOldStatusIsLastMatch` | lifecycle-operator/controllers/common/task/handler.go:59 | With prior entries, the prior status is that of the last entry for the name |
| `KeptnApi.GetItemStatusIsFirstMatch` | lifecycle-operator/controllers/common/task/handler.go:61 | With prior entries, the item status is the first entry for the name |
| `KeptnApi.UpdateStatusSummary` | lifecycle-operator/controllers/common/task/handler.go:123 | Total never changes; the Succeeded counter grows by one exactly for Succeeded, the Failed counter exactly for Failed |
| `KeptnApi.GenerateTask` | lifecycle-operator/controllers/common/task/handler.go:138 | The generated task has a non-empty name, the definition and check type asked for, no status and no owner |
| `CleanUp.Fields` | metrics-adapter/cmd/adapter/main.go:134 | FieldsFunc yields only non-empty fields made of letters and digits |
| `CleanUp.FieldsSplit` | metrics-adapter/cmd/adapter/main.go:134 | Every non-letter, non-digit character splits the input: the fields around it are the fields of the part before it followed by those of the part after it |
| `CleanUp.CleanUpStringSplit` | metrics-adapter/cmd/adapter/main.go:133-135 | A separator becomes one `_` between the normalised parts before and after it, or disappears when one side has no letter or digit |
| `CleanUp.CleanUpStringOfTwoWords` | metrics-adapter/cmd/adapter/main.go:133-135 | Two letter/digit words around a separator are joined by `_` ("my-metric" gives "my_metric") |
| `CleanUp.RunLength` | metrics-adapter/cmd/adapter/main.go:134 | The leading run of letters/digits is maximal: it is followed by a separator or the end |
| `CleanUp.CleanUpStringWellFormed` | metrics-adapter/cmd/adapter/main.go:133-135 | Every result character is a letter, digit or `_`; the result neither starts nor ends with `_`; it never holds two `_` in a row |
| `CleanUp.CleanUpStringIdempotent` | metrics-adapter/cmd/adapter/main.go:133-135 | Normalising twice equals normalising once |
| `CleanUp.CleanUpStringKeepsAlphanumeric` | metrics-adapter/cmd/adapter/main.go:134 | A name of only letters and digits is returned unchanged |
| `CleanUp.CleanUpStringOfSeparators` | metrics-adapter/cmd/adapter/main.go:134 | A name without letters or digits gives "" |
| `CleanUp.CleanUpStringKeepsRunsInOrder` | metrics-adapter/cmd/adapter/main.go:134 | Removing the `_` separators from the result leaves exactly the input's letters and digits in order |
| `CleanUp.FieldsOfJoin` | metrics-adapter/cmd/adapter/main.go:134 | Splitting the `_`-join of non-empty letter/digit fields gives the fields back |
| `CleanUp.JoinUnderscoreCount` | metrics-adapter/cmd/adapter/main.go:134 | Joining any parts with `_` gives their total length plus one character per gap between parts |
| `CleanUp.CleanUpStringLength` | metrics-adapter/cmd/adapter/main.go:133-135 | The result is as long as the input's letters and digits plus one `_` between each two consecutive maximal runs |

## Left out

- Logging (`r.Log`) is not modelled. Log-only branches such as handler.go:99-112 and 141-143 just continue.
- Namespaces: the model has one namespace. The task-definition lookup (`common.GetTaskDefinition`, with its fallback to a default namespace) is not part of this model. It is a partial map from name to definition.
- The span handler's internals (tracer, span names, attributes, trace-ID bookkeeping) are not part of this model. Spans are values keyed by the task's name. The span a completed task ends is written back under its key before it is unbound, standing for the shared span object that the handler annotates, ends and then unbinds. `GetSpan` is a total get-or-open and `UnbindSpan` never fails, so the log-only error branches at handler.go:197-199, 206-208 and 221-223 are never taken.
- Task naming and payload: the random id of `GenerateTask` is replaced by a counter, and name truncation is not modelled. The task's payload fields (function, parameters, timeout, retries) are left out.
- `InjectKeptnContext`: the task keeps a copy of the context's map as it is at creation time. That tasks created in one pass share that map object is not modelled. Later injections in the same pass write the same propagation keys with the same values into that map again, and the earlier tasks were already sent by `Create`.
- Message texts: event messages and span events are values that carry their parts (the two states; the task's name and failure message), not the formatted strings. A span's status description ("Finished", "Failed") is implied by its status code.
- Timestamps are set/unset flags. `time.Now()` values are not modelled.
- Context cancellation and concurrent reconciles of different parents are not modelled.
- Create, Get and `SetControllerReference` failures come from fixed sets (`Env`). Their causes in the API server are not modelled.
- `CreateTaskAttributes.SpanName` is not used by the modelled code.
- `CleanUp.CleanUpString`: the Unicode classification of letters and digits is the parameter `keep`, assumed only to reject `_`.
- `CleanUp.CleanUpString`: the input is a sequence of code points. `strings.FieldsFunc` decodes the Go string's bytes as UTF-8, and an invalid byte becomes U+FFFD, which is neither a letter nor a digit and so acts as a separator. That decoding step is not modelled.
- Everything else in the repository is outside this model: process bootstrapping, metrics export, telemetry setup, the metrics-adapter HTTP server and polling loop, and the samples and tests.
