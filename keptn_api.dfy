/** The lifecycle API types the task handler works on (KeptnState,
    ItemStatus, StatusSummary, KeptnTask, the phase item) and the small helpers
    of the lifecycle API that the handler calls: `GetOldStatus`,
    `GetItemStatus`, `UpdateStatusSummary`, `IsCompleted` and `IsSucceeded`. */
module KeptnApi {

  datatype Option<+T> = None | Some(value: T)

  /** apicommon.KeptnState; `Empty` is the zero value "". */
  datatype KeptnState =
    | Empty | Pending | Progressing | Succeeded | Failed | Unknown | Cancelled | Warning | Deprecated
  {
    predicate IsCompleted() {
      this == Succeeded || this == Failed || this == Cancelled
    }

    predicate IsSucceeded() {
      this == Succeeded
    }

    /** The states the reconcile loop passes through without looking at the
        task: Succeeded and Failed, but not Cancelled. */
    predicate SucceededOrFailed() {
      this == Succeeded || this == Failed
    }
  }

  /** apicommon.CheckType. */
  datatype CheckType = PreDeployment | PostDeployment | PreEvaluation | PostEvaluation

  function CheckTypeName(c: CheckType): string {
    match c
    case PreDeployment => "pre"
    case PostDeployment => "post"
    case PreEvaluation => "pre-eval"
    case PostEvaluation => "post-eval"
  }

  /** klcv1beta1.ItemStatus; the two timestamps are reduced to "set" flags. */
  datatype ItemStatus = ItemStatus(
    definitionName: string,
    name: string,
    status: KeptnState,
    startTime: bool,
    endTime: bool)

  /** apicommon.StatusSummary. */
  datatype StatusSummary = StatusSummary(
    total: nat,
    progressing: nat,
    failed: nat,
    succeeded: nat,
    pending: nat,
    unknown: nat,
    cancelled: nat)

  const EmptySummary := StatusSummary(0, 0, 0, 0, 0, 0, 0)

  /** apicommon.UpdateStatusSummary: one counter per state, "" counted as pending. */
  function UpdateStatusSummary(s: KeptnState, summary: StatusSummary): (r: StatusSummary)
    ensures r.total == summary.total
    ensures r.succeeded == summary.succeeded + (if s == Succeeded then 1 else 0)
    ensures r.failed == summary.failed + (if s == Failed then 1 else 0)
  {
    match s
    case Failed => summary.(failed := summary.failed + 1)
    case Succeeded => summary.(succeeded := summary.succeeded + 1)
    case Progressing => summary.(progressing := summary.progressing + 1)
    case Pending => summary.(pending := summary.pending + 1)
    case Empty => summary.(pending := summary.pending + 1)
    case Unknown => summary.(unknown := summary.unknown + 1)
    case Cancelled => summary.(cancelled := summary.cancelled + 1)
    case Warning => summary
    case Deprecated => summary
  }

  /** The left fold of UpdateStatusSummary over the statuses, first to last. */
  function FoldSummary(init: StatusSummary, xs: seq<ItemStatus>): StatusSummary
    decreases |xs|
  {
    if xs == [] then init
    else UpdateStatusSummary(xs[|xs| - 1].status, FoldSummary(init, xs[..|xs| - 1]))
  }

  /** common.GetOldStatus: the status of the LAST entry for the definition, or "". */
  function GetOldStatus(name: string, statuses: seq<ItemStatus>): (r: KeptnState)
    ensures (forall i :: 0 <= i < |statuses| ==> statuses[i].definitionName != name) ==> r == Empty
    decreases |statuses|
  {
    if statuses == [] then Empty
    else if statuses[|statuses| - 1].definitionName == name then statuses[|statuses| - 1].status
    else GetOldStatus(name, statuses[..|statuses| - 1])
  }

  /** A matching entry with no later match decides the prior status. */
  lemma {:induction false} GetOldStatusIsLastMatch(name: string, statuses: seq<ItemStatus>, i: nat)
    requires i < |statuses| && statuses[i].definitionName == name
    requires forall j :: i < j < |statuses| ==> statuses[j].definitionName != name
    ensures GetOldStatus(name, statuses) == statuses[i].status
    decreases |statuses|
  {
    var last := |statuses| - 1;
    if i < last {
      var front := statuses[..last];
      assert front[i] == statuses[i];
      assert forall j :: i < j < |front| ==> front[j] == statuses[j];
      GetOldStatusIsLastMatch(name, front, i);
    }
  }

  function FreshItemStatus(name: string): ItemStatus {
    ItemStatus(name, "", Pending, false, false)
  }

  /** common.GetItemStatus: the FIRST entry for the definition, or a fresh
      pending entry with no task name. */
  function GetItemStatus(name: string, statuses: seq<ItemStatus>): (r: ItemStatus)
    ensures r.definitionName == name
    ensures r in statuses || r == FreshItemStatus(name)
    ensures (exists i :: 0 <= i < |statuses| && statuses[i].definitionName == name) ==> r in statuses
    decreases |statuses|
  {
    if statuses == [] then FreshItemStatus(name)
    else if statuses[0].definitionName == name then statuses[0]
    else GetItemStatus(name, statuses[1..])
  }

  /** A matching entry with no earlier match is the one returned. */
  lemma {:induction false} GetItemStatusIsFirstMatch(name: string, statuses: seq<ItemStatus>, i: nat)
    requires i < |statuses| && statuses[i].definitionName == name
    requires forall j :: 0 <= j < i ==> statuses[j].definitionName != name
    ensures GetItemStatus(name, statuses) == statuses[i]
    decreases |statuses|
  {
    if i > 0 {
      assert statuses[0].definitionName != name;
      assert forall j :: 0 <= j < i - 1 ==> statuses[1..][j] == statuses[j + 1];
      GetItemStatusIsFirstMatch(name, statuses[1..], i - 1);
    }
  }

  /** KeptnTaskDefinition, reduced to its name. */
  datatype TaskDefinition = TaskDefinition(name: string)

  /** KeptnTask: identity, the spec fields the handler fills in, the owner
      reference and the status the task controller reports. */
  datatype KeptnTask = KeptnTask(
    name: string,
    definition: string,
    checkType: CheckType,
    parentName: string,
    metadata: map<string, string>,
    owner: Option<string>,
    status: KeptnState,
    message: string)

  /** The zero `&klcv1beta1.KeptnTask{}` the handler starts every item with. */
  const EmptyTask := KeptnTask("", "", PreDeployment, "", map[], None, Empty, "")

  /** The phase item (application, workload or evaluation version) whose
      pre- and post-deployment task lists and statuses the handler reconciles. */
  datatype PhaseItem = PhaseItem(
    name: string,
    version: string,
    preTasks: seq<string>,
    postTasks: seq<string>,
    preStatus: seq<ItemStatus>,
    postStatus: seq<ItemStatus>)

  /** The reconciled client.Object: a phase item, or an object the phase-item
      wrapper refuses. */
  datatype ClientObject = PhaseItemObject(item: PhaseItem) | OtherObject(kind: string)

  /** Decimal digits of n. */
  function Digits(n: nat): (r: string)
    ensures r != []
  {
    var d := ['0', '1', '2', '3', '4', '5', '6', '7', '8', '9'][n % 10];
    if n < 10 then [d] else Digits(n / 10) + [d]
  }

  /** PhaseItemWrapper.GenerateTask: a new task for the definition, named from
      the check type, the definition and a random id. */
  function GenerateTask(p: PhaseItem, def: TaskDefinition, c: CheckType, id: nat): (t: KeptnTask)
    ensures t.name != "" && t.definition == def.name && t.checkType == c
    ensures t.status == Empty && t.owner == None
  {
    KeptnTask(CheckTypeName(c) + "-" + def.name + "-" + Digits(id), def.name, c, p.name, map[], None, Empty, "")
  }
}
