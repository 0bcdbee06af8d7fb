/** Properties of the task orchestration pass, stated over its specification
    (module TaskHandler). */
module TaskHandlerProps {
  import opened KeptnApi
  import opened TaskHandler

  /** Every span bound in the registry is still open. */
  predicate SpansOpen(w: World) {
    forall k :: k in w.spans ==> !w.spans[k].ended
  }

  /** The world differs from `w` at most in its event log, which only grew. */
  predicate OnlyEvents(w: World, w': World) {
    w' == w.(events := w'.events) && w.events <= w'.events
  }

  // ---------------------------------------------------------------------
  // One item

  /** An entry whose prior status is Succeeded or Failed is appended
      unchanged; no Get, Create, span or unbind happens for it. */
  lemma StepTerminal(env: Env, c: Call, w: World, out: seq<ItemStatus>, n: string)
    requires GetItemStatus(n, c.statuses).status.SucceededOrFailed()
    ensures Step(env, c, w, out, n) == Continue(AfterStatusEvent(c, w, n), out + [GetItemStatus(n, c.statuses)])
    ensures OnlyEvents(w, AfterStatusEvent(c, w, n))
  {
  }

  /** The "status changed" event is emitted at most once per name, exactly
      when the prior status differs from the item status, both taken before
      any refresh. */
  lemma StatusEventIff(c: Call, w: World, n: string)
    ensures var w' := AfterStatusEvent(c, w, n);
      && OnlyEvents(w, w')
      && (|w'.events| == |w.events| + 1 <==> GetOldStatus(n, c.statuses) != GetItemStatus(n, c.statuses).status)
      && (|w'.events| == |w.events| || |w'.events| == |w.events| + 1)
  {
  }

  /** A name with no prior entry always reports a change ("" to Pending). */
  lemma StatusEventOnFirstSight(c: Call, w: World, n: string)
    requires forall i :: 0 <= i < |c.statuses| ==> c.statuses[i].definitionName != n
    ensures AfterStatusEvent(c, w, n).events
      == w.events + [Event(ReconcileTaskPhase, Normal, StatusChanged, StatusChangedFrom(Empty, Pending), c.parent.version)]
  {
  }

  /** All prior entries of `n` agree on their status. */
  predicate Consistent(n: string, statuses: seq<ItemStatus>) {
    forall i, j ::
      (0 <= i < |statuses| && 0 <= j < |statuses| &&
       statuses[i].definitionName == n && statuses[j].definitionName == n) ==> statuses[i].status == statuses[j].status
  }

  lemma {:induction false} OldStatusOfConsistent(n: string, statuses: seq<ItemStatus>, i: nat)
    requires i < |statuses| && statuses[i].definitionName == n
    requires Consistent(n, statuses)
    ensures GetOldStatus(n, statuses) == statuses[i].status
    decreases |statuses|
  {
    var last := |statuses| - 1;
    if statuses[last].definitionName != n {
      var front := statuses[..last];
      assert front[i] == statuses[i];
      assert Consistent(n, front) by {
        forall a, b | 0 <= a < |front| && 0 <= b < |front| && front[a].definitionName == n && front[b].definitionName == n
          ensures front[a].status == front[b].status
        {
          assert front[a] == statuses[a] && front[b] == statuses[b];
        }
      }
      OldStatusOfConsistent(n, front, i);
    }
  }

  /** Since both values are read before the task is refreshed, a name whose
      prior entries agree (in particular a single entry) never reports a
      change, whatever the task did since the last pass. */
  lemma NoStatusEventForKnownName(c: Call, w: World, n: string)
    requires exists i :: 0 <= i < |c.statuses| && c.statuses[i].definitionName == n
    requires Consistent(n, c.statuses)
    ensures AfterStatusEvent(c, w, n) == w
  {
    var st := GetItemStatus(n, c.statuses);
    var i :| 0 <= i < |c.statuses| && c.statuses[i] == st;
    OldStatusOfConsistent(n, c.statuses, i);
  }

  /** A Get error other than NotFound stops the pass with that error. */
  lemma StepGetErrorStops(env: Env, c: Call, w: World, out: seq<ItemStatus>, n: string)
    requires var st := GetItemStatus(n, c.statuses);
      !st.status.SucceededOrFailed() && st.name != "" && st.name in env.getFaults
    ensures Step(env, c, w, out, n) == Stopped(AfterStatusEvent(c, w, n), GetFailed(GetItemStatus(n, c.statuses).name))
  {
  }

  /** On NotFound the entry's Name is cleared, the task counts as existing,
      nothing is created, and the status is copied from the empty task. */
  lemma StepNotFound(env: Env, c: Call, w: World, out: seq<ItemStatus>, n: string)
    requires var st := GetItemStatus(n, c.statuses);
      !st.status.SucceededOrFailed() && st.name != "" && st.name !in env.getFaults && st.name !in w.tasks
    ensures var st := GetItemStatus(n, c.statuses);
      var w1 := AfterStatusEvent(c, w, n);
      Step(env, c, w, out, n) == Continue(GetSpan(w1, EmptyTask).0, out + [st.(name := "", status := Empty)])
    ensures Step(env, c, w, out, n).w.tasks == w.tasks
    ensures Step(env, c, w, out, n).w.nextId == w.nextId
  {
  }

  /** A task found by its name is refreshed as handleTaskExists says. */
  lemma StepFound(env: Env, c: Call, w: World, out: seq<ItemStatus>, n: string)
    requires var st := GetItemStatus(n, c.statuses);
      !st.status.SucceededOrFailed() && st.name != "" && st.name !in env.getFaults && st.name in w.tasks
    ensures var st := GetItemStatus(n, c.statuses);
      var (w2, st2) := ExistsSpec(AfterStatusEvent(c, w, n), w.tasks[st.name], st);
      Step(env, c, w, out, n) == Continue(w2, out + [st2])
  {
  }

  /** Successful creation: the entry carries the created task's name and a
      start time and is appended; the task is in the cluster with its owner
      set unless the reference failed; the span requested is the one of the
      caller's empty task, not of the created task. */
  lemma StepCreates(env: Env, c: Call, w: World, out: seq<ItemStatus>, n: string)
    requires var st := GetItemStatus(n, c.statuses);
      !st.status.SucceededOrFailed() && st.name == "" && n in env.definitions
    requires var t := GenerateTask(c.parent, env.definitions[n], c.attrs.checkType, w.nextId);
      t.name !in w.tasks && t.name !in env.createFaults
    ensures var st := GetItemStatus(n, c.statuses);
      var t := GenerateTask(c.parent, env.definitions[n], c.attrs.checkType, w.nextId);
      var p := Step(env, c, w, out, n);
      && p.Continue?
      && p.out == out + [st.(name := t.name, startTime := true)]
      && t.name in p.w.tasks && p.w.tasks[t.name].definition == env.definitions[n].name
      && p.w.tasks[t.name].owner == (if env.ownerRefFails then None else Some(c.parent.name))
      && p.w.tasks == w.tasks[t.name := p.w.tasks[t.name]]
      && SpanKey(EmptyTask) in p.w.spans
      && (t.name in p.w.spans <==> t.name in w.spans)
      && p.w.nextId == w.nextId + 1
  {
    var w1 := AfterStatusEvent(c, w, n);
    assert w1.tasks == w.tasks && w1.spans == w.spans && w1.nextId == w.nextId;
    NotExistsCreates(env, c.ctx, w1, c.attrs, n, c.parent, GetItemStatus(n, c.statuses));
    StepUncreated(env, c, w, out, n);
  }

  /** handleTaskNotExists on a definition that exists and a free task name:
      the task is created, the entry gets its name and a start time, and the
      span of the empty task is opened. */
  lemma NotExistsCreates(env: Env, ctx: Ctx, w: World, attrs: CreateTaskAttributes, n: string,
                         p: PhaseItem, st: ItemStatus)
    requires n in env.definitions
    requires var t := GenerateTask(p, env.definitions[n], attrs.checkType, w.nextId);
      t.name !in w.tasks && t.name !in env.createFaults
    ensures var t := GenerateTask(p, env.definitions[n], attrs.checkType, w.nextId);
      var (w', st', err) := NotExistsSpec(env, ctx, w, attrs, n, PhaseItemObject(p), EmptyTask, st);
      && err == None && st' == st.(name := t.name, startTime := true)
      && t.name in w'.tasks && w'.tasks[t.name].definition == env.definitions[n].name
      && w'.tasks[t.name].owner == (if env.ownerRefFails then None else Some(p.name))
      && w'.tasks == w.tasks[t.name := w'.tasks[t.name]]
      && w'.spans.Keys == w.spans.Keys + {SpanKey(EmptyTask)}
      && w'.nextId == w.nextId + 1
  {
    CreateSucceeds(env, ctx, w, p, attrs.(definition := env.definitions[n]));
  }

  /** A name with no task yet goes through handleTaskNotExists; its entry is
      appended unless that fails. */
  lemma StepUncreated(env: Env, c: Call, w: World, out: seq<ItemStatus>, n: string)
    requires var st := GetItemStatus(n, c.statuses);
      !st.status.SucceededOrFailed() && st.name == ""
    ensures var st := GetItemStatus(n, c.statuses);
      var (w2, st2, err) := NotExistsSpec(env, c.ctx, AfterStatusEvent(c, w, n), c.attrs, n, PhaseItemObject(c.parent), EmptyTask, st);
      Step(env, c, w, out, n) == if err.Some? then Continue(w2, out) else Continue(w2, out + [st2])
  {
  }

  /** CreateKeptnTask on a free name: the generated task, with the context
      injected and the owner set unless the reference failed, is created. */
  lemma CreateSucceeds(env: Env, ctx: Ctx, w: World, p: PhaseItem, attrs: CreateTaskAttributes)
    requires var t := GenerateTask(p, attrs.definition, attrs.checkType, w.nextId);
      t.name !in w.tasks && t.name !in env.createFaults
    ensures var t := GenerateTask(p, attrs.definition, attrs.checkType, w.nextId);
      var (w', name, err) := CreateSpec(env, ctx, w, PhaseItemObject(p), attrs);
      && err == None && name == t.name
      && name in w'.tasks && w'.tasks == w.tasks[name := w'.tasks[name]]
      && w'.tasks[name].definition == attrs.definition.name
      && w'.tasks[name].owner == (if env.ownerRefFails then None else Some(p.name))
      && w'.tasks[name].metadata == (if ctx.hasMetadata then Merge(w.metadata, ctx.propagation) else map[])
      && w'.spans == w.spans && w'.events == w.events && w'.nextId == w.nextId + 1
  {
  }

  /** A missing definition or a refused Create skips the name for this pass:
      nothing is appended and no task is added; a refused Create emits exactly
      one Warning event. */
  lemma StepCreateFails(env: Env, c: Call, w: World, out: seq<ItemStatus>, n: string)
    requires var st := GetItemStatus(n, c.statuses);
      !st.status.SucceededOrFailed() && st.name == ""
    requires n in env.definitions ==>
      var t := GenerateTask(c.parent, env.definitions[n], c.attrs.checkType, w.nextId);
      t.name in w.tasks || t.name in env.createFaults
    ensures var p := Step(env, c, w, out, n);
      var w1 := AfterStatusEvent(c, w, n);
      && p == Continue(p.w, out)
      && p.w.tasks == w.tasks
      && p.w.spans == w.spans
      && p.w.events == w1.events + (if n in env.definitions then [CreateFailedEvent(c.parent.version)] else [])
  {
  }

  /** handleTaskExists: the status is always copied; only a completed task
      gets its span annotated, given its status code, ended, unbound, and an
      end time. Otherwise the span stays bound and open and EndTime is kept. */
  lemma ExistsSpan(w: World, task: KeptnTask, st: ItemStatus)
    requires SpansOpen(w)
    ensures var (w', st') := ExistsSpec(w, task, st);
      && st' == st.(status := task.status, endTime := st.endTime || task.status.IsCompleted())
      && w'.tasks == w.tasks && w'.events == w.events && w'.metadata == w.metadata
      && (task.status.IsCompleted() ==>
            && SpanKey(task) !in w'.spans
            && w'.spans == w.spans - {SpanKey(task)}
            && |w'.ended| == |w.ended| + 1 && w'.ended[..|w.ended|] == w.ended
            && w'.ended[|w.ended|].ended
            && w'.ended[|w.ended|].code == (if task.status == Succeeded then Ok else Error)
            && w'.ended[|w.ended|].events == GetSpan(w, task).1.events
               + (if task.status == Succeeded then [HasFinished(task.name)]
                  else [HasFailed(task.name), FailedWithReason(task.name, task.message)]))
      && (!task.status.IsCompleted() ==>
            && SpanKey(task) in w'.spans && !w'.spans[SpanKey(task)].ended
            && w'.ended == w.ended)
  {
  }

  /** A failed or cancelled task's ended span carries its failure message as
      the last event. */
  lemma ExistsFailureMessage(w: World, task: KeptnTask, st: ItemStatus)
    requires task.status == Failed || task.status == Cancelled
    ensures var w' := ExistsSpec(w, task, st).0;
      var s := w'.ended[|w'.ended| - 1];
      |s.events| >= 2 && s.events[|s.events| - 1] == FailedWithReason(task.name, task.message)
      && s.events[|s.events| - 2] == HasFailed(task.name)
  {
  }

  // ---------------------------------------------------------------------
  // The whole loop

  /** Every output entry carries the name it was produced for. */
  lemma StepShape(env: Env, c: Call, w: World, out: seq<ItemStatus>, n: string)
    ensures var p := Step(env, c, w, out, n);
      p.Continue? ==> (p.out == out || (|p.out| == |out| + 1 && p.out[..|out|] == out && p.out[|out|].definitionName == n))
  {
    var st := GetItemStatus(n, c.statuses);
    assert st.definitionName == n;
  }

  /** `idx` places the output entries at strictly increasing positions of the
      declared names. */
  predicate Embedding(idx: seq<nat>, out: seq<ItemStatus>, names: seq<string>) {
    && |idx| == |out|
    && (forall k :: 0 <= k < |idx| ==> idx[k] < |names| && out[k].definitionName == names[idx[k]])
    && (forall k :: 0 < k < |idx| ==> idx[k - 1] < idx[k])
  }

  /** Output entries appear in declared-name order, at most one per declared
      name; every name processed without error contributes 0 or 1 entry. */
  lemma {:induction false} WalkInOrder(env: Env, c: Call, w: World, names: seq<string>) returns (idx: seq<nat>)
    ensures Walk(env, c, w, names).Continue? ==> Embedding(idx, Walk(env, c, w, names).out, names)
    decreases |names|
  {
    if names == [] {
      idx := [];
    } else {
      var front := names[..|names| - 1];
      var n := names[|names| - 1];
      var prev := WalkInOrder(env, c, w, front);
      match Walk(env, c, w, front)
      case Stopped(_, _) =>
        idx := prev;
      case Continue(w1, out) =>
        StepShape(env, c, w1, out, n);
        var p := Step(env, c, w1, out, n);
        if p.Continue? {
          idx := EmbeddingGrows(prev, out, p.out, names);
        } else {
          idx := prev;
        }
    }
  }

  /** An embedding into the first |names| - 1 names extends to all of them
      when the output grows by at most one entry for the last name. */
  lemma EmbeddingGrows(idx: seq<nat>, out: seq<ItemStatus>, out': seq<ItemStatus>, names: seq<string>)
    returns (idx': seq<nat>)
    requires names != [] && Embedding(idx, out, names[..|names| - 1])
    requires out' == out || (|out'| == |out| + 1 && out'[..|out|] == out && out'[|out|].definitionName == names[|names| - 1])
    ensures Embedding(idx', out', names)
  {
    var front := names[..|names| - 1];
    assert forall k :: 0 <= k < |idx| ==> idx[k] < |front| && names[idx[k]] == front[idx[k]];
    if out' == out {
      idx' := idx;
    } else {
      idx' := idx + [|names| - 1];
      assert forall k :: 0 <= k < |out| ==> out'[k] == out[k];
    }
  }

  lemma GetSpanKeepsSpansOpen(w: World, t: KeptnTask)
    requires SpansOpen(w)
    ensures SpansOpen(GetSpan(w, t).0) && !GetSpan(w, t).1.ended
  {
  }

  lemma StepKeepsSpansOpen(env: Env, c: Call, w: World, out: seq<ItemStatus>, n: string)
    requires SpansOpen(w)
    ensures SpansOpen(Step(env, c, w, out, n).w)
  {
    var st := GetItemStatus(n, c.statuses);
    var w1 := AfterStatusEvent(c, w, n);
    assert w1.spans == w.spans;
    if st.status.SucceededOrFailed() {
      StepTerminal(env, c, w, out, n);
    } else if st.name != "" {
      if st.name in env.getFaults {
        StepGetErrorStops(env, c, w, out, n);
      } else if st.name !in w.tasks {
        StepNotFound(env, c, w, out, n);
        GetSpanKeepsSpansOpen(w1, EmptyTask);
      } else {
        StepFound(env, c, w, out, n);
        GetSpanKeepsSpansOpen(w1, w.tasks[st.name]);
      }
    } else if n in env.definitions
           && GenerateTask(c.parent, env.definitions[n], c.attrs.checkType, w.nextId).name !in w.tasks
           && GenerateTask(c.parent, env.definitions[n], c.attrs.checkType, w.nextId).name !in env.createFaults {
      var attrs := c.attrs.(definition := env.definitions[n]);
      CreateSucceeds(env, c.ctx, w1, c.parent, attrs);
      var (w2, name, err) := CreateSpec(env, c.ctx, w1, PhaseItemObject(c.parent), attrs);
      GetSpanKeepsSpansOpen(w2, EmptyTask);
      assert NotExistsSpec(env, c.ctx, w1, c.attrs, n, PhaseItemObject(c.parent), EmptyTask, st)
          == (GetSpan(w2, EmptyTask).0, st.(name := name, startTime := true), None);
      assert Step(env, c, w, out, n).w == GetSpan(w2, EmptyTask).0;
    } else {
      StepCreateFails(env, c, w, out, n);
    }
  }

  /** The span registry never holds an ended span: a span is unbound in the
      same step that ends it. */
  lemma {:induction false} WalkKeepsSpansOpen(env: Env, c: Call, w: World, names: seq<string>)
    requires SpansOpen(w)
    ensures SpansOpen(Walk(env, c, w, names).w)
    decreases |names|
  {
    if names != [] {
      var front := names[..|names| - 1];
      WalkKeepsSpansOpen(env, c, w, front);
      var p := Walk(env, c, w, front);
      if p.Continue? {
        StepKeepsSpansOpen(env, c, p.w, p.out, names[|names| - 1]);
      }
    }
  }

  /** Distinct declared names give distinct output entries. */
  lemma NoDuplicateEntries(idx: seq<nat>, out: seq<ItemStatus>, names: seq<string>)
    requires Embedding(idx, out, names)
    requires forall a, b :: 0 <= a < b < |names| ==> names[a] != names[b]
    ensures forall k, l :: 0 <= k < l < |out| ==> out[k].definitionName != out[l].definitionName
  {
    forall k, l | 0 <= k < l < |out| ensures idx[k] < idx[l] {
      IncreasingFar(idx, k, l);
    }
  }

  lemma {:induction false} IncreasingFar(idx: seq<nat>, k: nat, l: nat)
    requires forall m :: 0 < m < |idx| ==> idx[m - 1] < idx[m]
    requires k < l < |idx|
    ensures idx[k] < idx[l]
    decreases l - k
  {
    if k + 1 < l {
      IncreasingFar(idx, k + 1, l);
    }
  }

  function ItemStatuses(names: seq<string>, statuses: seq<ItemStatus>): (r: seq<ItemStatus>)
    ensures |r| == |names| && forall k :: 0 <= k < |names| ==> r[k] == GetItemStatus(names[k], statuses)
  {
    seq(|names|, k requires 0 <= k < |names| => GetItemStatus(names[k], statuses))
  }

  lemma ItemStatusesSnoc(names: seq<string>, statuses: seq<ItemStatus>)
    requires names != []
    ensures ItemStatuses(names, statuses)
         == ItemStatuses(names[..|names| - 1], statuses) + [GetItemStatus(names[|names| - 1], statuses)]
  {
  }

  /** When every declared name's prior status is terminal, the pass performs
      no store or span I/O at all: the output is the prior entries in declared
      order, and only "status changed" events can be added. */
  lemma {:induction false} AllTerminalPassThrough(env: Env, c: Call, w: World, names: seq<string>)
    requires forall k :: 0 <= k < |names| ==> GetItemStatus(names[k], c.statuses).status.SucceededOrFailed()
    ensures Walk(env, c, w, names).Continue?
    ensures Walk(env, c, w, names).out == ItemStatuses(names, c.statuses)
    ensures OnlyEvents(w, Walk(env, c, w, names).w)
    decreases |names|
  {
    if names != [] {
      var front := names[..|names| - 1];
      var n := names[|names| - 1];
      assert forall k :: 0 <= k < |front| ==> front[k] == names[k];
      AllTerminalPassThrough(env, c, w, front);
      var p := Walk(env, c, w, front);
      assert Walk(env, c, w, names) == Step(env, c, p.w, p.out, n);
      StepTerminal(env, c, p.w, p.out, n);
      ItemStatusesSnoc(names, c.statuses);
    }
  }

  /** A declared name the last pass left as it is: its prior entries agree,
      and the entry is either Succeeded/Failed or names a task the cluster
      serves under that name, with the entry's status, not completed, and
      with its span bound. */
  predicate Settled(env: Env, c: Call, w: World, n: string) {
    var st := GetItemStatus(n, c.statuses);
    && (exists i :: 0 <= i < |c.statuses| && c.statuses[i].definitionName == n)
    && Consistent(n, c.statuses)
    && (st.status.SucceededOrFailed() ||
        (&& st.name != "" && !st.status.IsCompleted()
         && st.name !in env.getFaults && st.name in w.tasks
         && w.tasks[st.name].name == st.name && w.tasks[st.name].status == st.status
         && st.name in w.spans))
  }

  /** Steady state of a running task: the task is fetched, its status is the
      entry's, its span is already bound and it is not completed, so the
      entry is appended unchanged and nothing else happens. */
  lemma StepSteady(env: Env, c: Call, w: World, out: seq<ItemStatus>, n: string)
    requires Settled(env, c, w, n) && !GetItemStatus(n, c.statuses).status.SucceededOrFailed()
    ensures Step(env, c, w, out, n) == Continue(w, out + [GetItemStatus(n, c.statuses)])
  {
    NoStatusEventForKnownName(c, w, n);
  }

  /** A pass over settled names changes nothing and returns the prior entries
      in declared order: no event, no Get side effect, no span change. */
  lemma {:induction false} SettledPassIsIdempotent(env: Env, c: Call, w: World, names: seq<string>)
    requires forall k :: 0 <= k < |names| ==> Settled(env, c, w, names[k])
    ensures Walk(env, c, w, names) == Continue(w, ItemStatuses(names, c.statuses))
    decreases |names|
  {
    if names != [] {
      var front := names[..|names| - 1];
      var n := names[|names| - 1];
      assert forall k :: 0 <= k < |front| ==> front[k] == names[k];
      SettledPassIsIdempotent(env, c, w, front);
      assert Walk(env, c, w, names) == Step(env, c, w, ItemStatuses(front, c.statuses), n);
      assert Settled(env, c, w, n);
      if GetItemStatus(n, c.statuses).status.SucceededOrFailed() {
        NoStatusEventForKnownName(c, w, n);
        StepTerminal(env, c, w, ItemStatuses(front, c.statuses), n);
      } else {
        StepSteady(env, c, w, ItemStatuses(front, c.statuses), n);
      }
      ItemStatusesSnoc(names, c.statuses);
    }
  }

  /** Looking a declared name up in a pass's output finds what the pass read
      for it, and all its output entries agree. */
  lemma ItemStatusesLookup(names: seq<string>, statuses: seq<ItemStatus>, k: nat)
    requires k < |names|
    ensures var out := ItemStatuses(names, statuses);
      && GetItemStatus(names[k], out) == GetItemStatus(names[k], statuses)
      && out[k].definitionName == names[k]
      && Consistent(names[k], out)
  {
    var out := ItemStatuses(names, statuses);
    var n := names[k];
    assert forall j :: 0 <= j < |out| && out[j].definitionName == n ==> out[j] == GetItemStatus(n, statuses);
    assert out[k].definitionName == n;
  }

  /** A pass's output, read again for the same names, gives that output. */
  lemma ItemStatusesOfOutput(names: seq<string>, statuses: seq<ItemStatus>)
    ensures ItemStatuses(names, ItemStatuses(names, statuses)) == ItemStatuses(names, statuses)
  {
    forall k | 0 <= k < |names|
      ensures ItemStatuses(names, ItemStatuses(names, statuses))[k] == ItemStatuses(names, statuses)[k]
    {
      ItemStatusesLookup(names, statuses, k);
    }
  }

  lemma SettledOnOutput(env: Env, c: Call, w: World, names: seq<string>, k: nat)
    requires k < |names| && Settled(env, c, w, names[k])
    ensures Settled(env, c.(statuses := ItemStatuses(names, c.statuses)), w, names[k])
  {
    ItemStatusesLookup(names, c.statuses, k);
  }

  /** Feeding the output of a pass over settled names back in as the prior
      statuses gives the same pass again: its output is a fixed point. */
  lemma SettledPassRerun(env: Env, c: Call, w: World, names: seq<string>)
    requires forall k :: 0 <= k < |names| ==> Settled(env, c, w, names[k])
    ensures var c2 := c.(statuses := ItemStatuses(names, c.statuses));
      Walk(env, c2, w, names) == Walk(env, c, w, names) == Continue(w, ItemStatuses(names, c.statuses))
  {
    var c2 := c.(statuses := ItemStatuses(names, c.statuses));
    forall k | 0 <= k < |names| ensures Settled(env, c2, w, names[k]) {
      SettledOnOutput(env, c, w, names, k);
    }
    SettledPassIsIdempotent(env, c, w, names);
    SettledPassIsIdempotent(env, c2, w, names);
    ItemStatusesOfOutput(names, c.statuses);
  }

  /** Cancelled counts as completed but is not passed through: a cancelled
      task that is still found ends one more span on every pass, and leaves
      the cluster as it was, so the next pass does the same again. */
  lemma StepCancelledEndsAnotherSpan(env: Env, c: Call, w: World, out: seq<ItemStatus>, n: string)
    requires var st := GetItemStatus(n, c.statuses);
      && st.status == Cancelled && st.name != "" && st.name !in env.getFaults
      && st.name in w.tasks && w.tasks[st.name].status == Cancelled && w.tasks[st.name].name == st.name
    ensures var st := GetItemStatus(n, c.statuses);
      var p := Step(env, c, w, out, n);
      && p.Continue? && p.out == out + [st.(endTime := true)]
      && |p.w.ended| == |w.ended| + 1 && p.w.ended[|w.ended|].code == Error
      && st.name !in p.w.spans && p.w.tasks == w.tasks
  {
    var st := GetItemStatus(n, c.statuses);
    StepFound(env, c, w, out, n);
  }

  // ---------------------------------------------------------------------
  // The summary

  function CountState(xs: seq<ItemStatus>, s: KeptnState): nat
    decreases |xs|
  {
    if xs == [] then 0
    else CountState(xs[..|xs| - 1], s) + (if xs[|xs| - 1].status == s then 1 else 0)
  }

  function States(xs: seq<ItemStatus>): multiset<KeptnState>
    decreases |xs|
  {
    if xs == [] then multiset{} else States(xs[..|xs| - 1]) + multiset{xs[|xs| - 1].status}
  }

  lemma {:induction false} CountIsMultiplicity(xs: seq<ItemStatus>, s: KeptnState)
    ensures CountState(xs, s) == States(xs)[s]
    decreases |xs|
  {
    if xs != [] {
      CountIsMultiplicity(xs[..|xs| - 1], s);
    }
  }

  /** The fold counts each state: Total is left alone and each counter grows
      by the number of entries in its state(s). */
  lemma {:induction false} FoldSummaryCounts(init: StatusSummary, xs: seq<ItemStatus>)
    ensures var r := FoldSummary(init, xs);
      && r.total == init.total
      && r.succeeded == init.succeeded + CountState(xs, Succeeded)
      && r.failed == init.failed + CountState(xs, Failed)
      && r.progressing == init.progressing + CountState(xs, Progressing)
      && r.pending == init.pending + CountState(xs, Pending) + CountState(xs, Empty)
      && r.unknown == init.unknown + CountState(xs, Unknown)
      && r.cancelled == init.cancelled + CountState(xs, Cancelled)
    decreases |xs|
  {
    if xs != [] {
      FoldSummaryCounts(init, xs[..|xs| - 1]);
    }
  }

  /** The summary does not depend on the order of the entries. */
  lemma SummaryOrderIndependent(init: StatusSummary, xs: seq<ItemStatus>, ys: seq<ItemStatus>)
    requires States(xs) == States(ys)
    ensures FoldSummary(init, xs) == FoldSummary(init, ys)
  {
    FoldSummaryCounts(init, xs);
    FoldSummaryCounts(init, ys);
    forall s: KeptnState ensures CountState(xs, s) == CountState(ys, s) {
      CountIsMultiplicity(xs, s);
      CountIsMultiplicity(ys, s);
    }
  }

  // ---------------------------------------------------------------------
  // ReconcileTasks

  /** Total is the number of declared names of the check type, whether
      entries were skipped or the pass stopped on a Get error; the other
      counters are the fold over the returned entries only. */
  lemma ReconcileSummary(env: Env, ctx: Ctx, w: World, p: PhaseItem, attrs: CreateTaskAttributes)
    ensures var r := ReconcileSpec(env, ctx, w, PhaseItemObject(p), attrs).1;
      var names := SetupTasks(attrs, p).0;
      && r.summary.total == |names|
      && (r.Reconciled? ==> r.summary == FoldSummary(EmptySummary.(total := |names|), r.statuses))
      && (r.Aborted? ==> r.summary == EmptySummary.(total := |names|) && r.err.GetFailed?)
  {
    var (names, statuses) := SetupTasks(attrs, p);
    var c := Call(ctx, p, attrs, statuses);
    var walk := Walk(env, c, w, names);
    FoldSummaryCounts(EmptySummary.(total := |names|), if walk.Continue? then walk.out else []);
    WalkStopsOnlyOnGet(env, c, w, names);
  }

  lemma {:induction false} WalkStopsOnlyOnGet(env: Env, c: Call, w: World, names: seq<string>)
    ensures Walk(env, c, w, names).Stopped? ==> Walk(env, c, w, names).err.GetFailed?
    decreases |names|
  {
    if names != [] {
      WalkStopsOnlyOnGet(env, c, w, names[..|names| - 1]);
    }
  }

  /** The returned entries are at most one per declared name, in declared order. */
  lemma ReconcileInOrder(env: Env, ctx: Ctx, w: World, p: PhaseItem, attrs: CreateTaskAttributes)
    returns (idx: seq<nat>)
    ensures var r := ReconcileSpec(env, ctx, w, PhaseItemObject(p), attrs).1;
      r.Reconciled? ==> Embedding(idx, r.statuses, SetupTasks(attrs, p).0)
  {
    var (names, statuses) := SetupTasks(attrs, p);
    idx := WalkInOrder(env, Call(ctx, p, attrs, statuses), w, names);
  }

  /** A check type that is neither pre- nor post-deployment has no tasks: an
      empty output, a zero summary, and nothing changes. */
  lemma OtherCheckTypeHasNoTasks(env: Env, ctx: Ctx, w: World, p: PhaseItem, attrs: CreateTaskAttributes)
    requires attrs.checkType != PreDeployment && attrs.checkType != PostDeployment
    ensures ReconcileSpec(env, ctx, w, PhaseItemObject(p), attrs) == (w, Reconciled([], EmptySummary))
  {
  }

  /** An object the phase-item wrapper refuses aborts before anything happens. */
  lemma NotAPhaseItemAborts(env: Env, ctx: Ctx, w: World, kind: string, attrs: CreateTaskAttributes)
    ensures ReconcileSpec(env, ctx, w, OtherObject(kind), attrs) == (w, Aborted(EmptySummary, NotAPhaseItem))
  {
  }

  // ---------------------------------------------------------------------
  // Context injection

  /** After injection with metadata present, every propagation key maps to
      its propagated value, every other metadata key keeps its value, and the
      task holds the context's map; without metadata nothing changes. */
  lemma InjectKeys(ctx: Ctx, md: map<string, string>, t: KeptnTask)
    ensures var (m, t') := InjectSpec(ctx, md, t);
      && (ctx.hasMetadata ==>
            && t'.metadata == m && m.Keys == md.Keys + ctx.propagation.Keys
            && (forall k :: k in ctx.propagation ==> m[k] == ctx.propagation[k])
            && (forall k :: k in md && k !in ctx.propagation ==> m[k] == md[k]))
      && (!ctx.hasMetadata ==> m == md && t' == t)
  {
  }

  // ---------------------------------------------------------------------
  // A first pass

  const FirstPassEnv := Env(map["t1" := TaskDefinition("t1"), "t2" := TaskDefinition("t2")], {}, {}, false)
  const FirstPassWorld := World(map[], [], map[], [], 0, map[])

  function FirstPassCall(ctx: Ctx, version: string): Call {
    Call(ctx, PhaseItem("app", version, ["t1", "t2"], [], [], []), CreateTaskAttributes("", TaskDefinition(""), PreDeployment), [])
  }

  lemma FirstPassT1(ctx: Ctx, version: string)
    ensures var p := Walk(FirstPassEnv, FirstPassCall(ctx, version), FirstPassWorld, ["t1"]);
      && p.Continue?
      && p.out == [ItemStatus("t1", "pre-t1-0", Pending, true, false)]
      && p.w.tasks.Keys == {"pre-t1-0"} && p.w.nextId == 1
      && p.w.spans.Keys == {""} && |p.w.events| == 1
  {
    var c := FirstPassCall(ctx, version);
    assert Digits(0) == "0";
    assert GenerateTask(c.parent, FirstPassEnv.definitions["t1"], PreDeployment, 0).name == "pre-t1-0";
    assert ["t1"][..0] == [];
    assert Walk(FirstPassEnv, c, FirstPassWorld, ["t1"]) == Step(FirstPassEnv, c, FirstPassWorld, [], "t1");
    StepCreates(FirstPassEnv, c, FirstPassWorld, [], "t1");
  }

  /** A parent declaring pre-deployment tasks t1 and t2, neither created yet,
      with both definitions present and nothing failing: both tasks are
      created, each entry has its task's name, Pending and a start time, two
      "status changed" events are emitted, and one span is bound, under the
      empty task's key. */
  lemma FirstPassCreatesBoth(ctx: Ctx, version: string)
    ensures var p := Walk(FirstPassEnv, FirstPassCall(ctx, version), FirstPassWorld, ["t1", "t2"]);
      && p.Continue?
      && p.out == [ItemStatus("t1", "pre-t1-0", Pending, true, false), ItemStatus("t2", "pre-t2-1", Pending, true, false)]
      && p.w.tasks.Keys == {"pre-t1-0", "pre-t2-1"}
      && p.w.spans.Keys == {""} && |p.w.events| == 2
  {
    var c := FirstPassCall(ctx, version);
    FirstPassT1(ctx, version);
    var p1 := Walk(FirstPassEnv, c, FirstPassWorld, ["t1"]);
    assert Digits(1) == "1";
    assert GenerateTask(c.parent, FirstPassEnv.definitions["t2"], PreDeployment, 1).name == "pre-t2-1";
    assert ["t1", "t2"][..1] == ["t1"];
    assert Walk(FirstPassEnv, c, FirstPassWorld, ["t1", "t2"]) == Step(FirstPassEnv, c, p1.w, p1.out, "t2");
    StepCreates(FirstPassEnv, c, p1.w, p1.out, "t2");
  }
}
