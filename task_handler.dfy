/** The task orchestration pass of the lifecycle operator
    (lifecycle-operator/controllers/common/task/handler.go).

    The first half is the specification: pure functions over a `World` value
    that holds every piece of state the pass reads or changes outside its own
    locals (the KeptnTask objects of the cluster, the event log, the span
    registry, the spans that were ended, the random-id source of task naming
    and the app metadata map of the phase context). The second half is the
    `Handler` class, whose methods do what the Go functions do, step by step,
    and are proved to end in the state the specification names. */
module TaskHandler {
  import opened KeptnApi

  // ---------------------------------------------------------------------
  // Collaborators

  /** Errors the pass can see or return. */
  datatype TaskError =
    | NotAPhaseItem               // the phase-item wrapper refused the object
    | GetFailed(name: string)     // a Get error other than NotFound
    | CannotGetTaskDefinition     // controllererrors.ErrCannotGetKeptnTaskDefinition
    | CreateFailed(name: string)  // Create refused (also: the name is taken)

  /** What the cluster can do: the task definitions it serves and the calls
      it refuses. These never change during a pass. */
  datatype Env = Env(
    definitions: map<string, TaskDefinition>,
    getFaults: set<string>,
    createFaults: set<string>,
    ownerRefFails: bool)

  /** The unchanging part of the phase context: whether it carries app
      metadata, and the key/value pairs the trace propagator injects. */
  datatype Ctx = Ctx(hasMetadata: bool, propagation: map<string, string>)

  /** The span status codes; the handler sets Ok with description "Finished"
      and Error with description "Failed". */
  datatype StatusCode = Unset | Ok | Error

  /** The span events the handler adds, by content rather than by their
      formatted text: "<task> has finished", "<task> has failed" and
      "task '<task>' failed with reason: '<message>'". */
  datatype SpanEvent = HasFinished(task: string) | HasFailed(task: string) | FailedWithReason(task: string, reason: string)

  /** A tracing span as a value: the events added, the status set, ended or not. */
  datatype Span = Span(key: string, events: seq<SpanEvent>, code: StatusCode, ended: bool)

  datatype EventPhase = ReconcileTaskPhase | CreateTaskPhase
  datatype Severity = Normal | WarningEvent
  datatype Reason = StatusChanged | PhaseFailed

  /** The event messages, by content: "task status changed from <from> to
      <to>" and "could not create KeptnTask". */
  datatype EventMessage = StatusChangedFrom(from: KeptnState, to: KeptnState) | CouldNotCreateTask

  /** One call of EventSender.Emit. */
  datatype Event = Event(phase: EventPhase, severity: Severity, reason: Reason, message: EventMessage, version: string)

  /** All state outside the pass's locals. */
  datatype World = World(
    tasks: map<string, KeptnTask>,
    events: seq<Event>,
    spans: map<string, Span>,
    ended: seq<Span>,
    nextId: nat,
    metadata: map<string, string>)

  datatype GetResult = Found(task: KeptnTask) | NotFound | GetError(err: TaskError)

  /** client.Get of a KeptnTask by name. */
  function Lookup(env: Env, tasks: map<string, KeptnTask>, name: string): GetResult {
    if name in env.getFaults then GetError(GetFailed(name))
    else if name in tasks then Found(tasks[name])
    else NotFound
  }

  /** client.Create refuses a task whose name is taken or that the cluster rejects. */
  predicate CreateRefused(env: Env, tasks: map<string, KeptnTask>, t: KeptnTask) {
    t.name in tasks || t.name in env.createFaults
  }

  /** The registry key of a task's span; it depends on the task object only. */
  function SpanKey(t: KeptnTask): string {
    t.name
  }

  /** SpanHandler.GetSpan: the bound span of the task, or a new one, bound. */
  function GetSpan(w: World, t: KeptnTask): (World, Span) {
    var k := SpanKey(t);
    if k in w.spans then (w, w.spans[k])
    else (w.(spans := w.spans[k := Span(k, [], Unset, false)]), Span(k, [], Unset, false))
  }

  /** SpanHandler.UnbindSpan. */
  function UnbindSpan(w: World, t: KeptnTask): World {
    w.(spans := w.spans - {SpanKey(t)})
  }

  function AddEvent(s: Span, e: SpanEvent): Span {
    s.(events := s.events + [e])
  }

  function FailureReason(t: KeptnTask): SpanEvent {
    FailedWithReason(t.name, t.message)
  }

  /** setTaskFailureEvents: one more span event, carrying the task's failure
      message; nothing else about the span changes. */
  function SetTaskFailureEvents(t: KeptnTask, s: Span): (r: Span)
    ensures r.events == s.events + [FailureReason(t)]
    ensures r.(events := s.events) == s
  {
    AddEvent(s, FailureReason(t))
  }

  /** The span of a task as it is ended on the first pass that sees the task completed. */
  function CompletedSpan(t: KeptnTask, s: Span): Span
  {
    if t.status.IsSucceeded() then
      AddEvent(s, HasFinished(t.name)).(code := Ok, ended := true)
    else
      SetTaskFailureEvents(t, AddEvent(s, HasFailed(t.name))).(code := Error, ended := true)
  }

  /** The two event messages of the pass. */
  function StatusChangedEvent(from: KeptnState, to: KeptnState, version: string): Event {
    Event(ReconcileTaskPhase, Normal, StatusChanged, StatusChangedFrom(from, to), version)
  }

  function CreateFailedEvent(version: string): Event {
    Event(CreateTaskPhase, WarningEvent, PhaseFailed, CouldNotCreateTask, version)
  }

  /** apicommon.CreateTaskAttributes. */
  datatype CreateTaskAttributes = CreateTaskAttributes(spanName: string, definition: TaskDefinition, checkType: CheckType)

  // ---------------------------------------------------------------------
  // Specification of the handler's functions

  /** Metadata map after the propagation keys are written into it. */
  function Merge(md: map<string, string>, propagation: map<string, string>): (r: map<string, string>)
    ensures r.Keys == md.Keys + propagation.Keys
    ensures forall k :: k in propagation ==> r[k] == propagation[k]
    ensures forall k :: k in md && k !in propagation ==> r[k] == md[k]
  {
    md + propagation
  }

  /** injectKeptnContext: the context's own metadata map after the call, and the task. */
  function InjectSpec(ctx: Ctx, md: map<string, string>, t: KeptnTask): (map<string, string>, KeptnTask) {
    if ctx.hasMetadata then
      var m := Merge(md, ctx.propagation);
      (m, t.(metadata := m))
    else (md, t)
  }

  /** setupTasks: the declared task names and prior statuses of the check type. */
  function SetupTasks(attrs: CreateTaskAttributes, p: PhaseItem): (r: (seq<string>, seq<ItemStatus>))
    ensures attrs.checkType == PreDeployment ==> r == (p.preTasks, p.preStatus)
    ensures attrs.checkType == PostDeployment ==> r == (p.postTasks, p.postStatus)
    ensures attrs.checkType !in {PreDeployment, PostDeployment} ==> r == ([], [])
  {
    match attrs.checkType
    case PreDeployment => (p.preTasks, p.preStatus)
    case PostDeployment => (p.postTasks, p.postStatus)
    case _ => ([], [])
  }

  /** CreateKeptnTask: the new world, the created task's name and the error. */
  function CreateSpec(env: Env, ctx: Ctx, w: World, obj: ClientObject, attrs: CreateTaskAttributes)
    : (World, string, Option<TaskError>)
  {
    match obj
    case OtherObject(_) => (w, "", Some(NotAPhaseItem))
    case PhaseItemObject(p) =>
      var t0 := GenerateTask(p, attrs.definition, attrs.checkType, w.nextId);
      var (md, t1) := InjectSpec(ctx, w.metadata, t0);
      var t2 := if env.ownerRefFails then t1 else t1.(owner := Some(p.name));
      var w1 := w.(nextId := w.nextId + 1, metadata := md);
      if CreateRefused(env, w1.tasks, t2) then
        (w1.(events := w1.events + [CreateFailedEvent(p.version)]), "", Some(CreateFailed(t2.name)))
      else
        (w1.(tasks := w1.tasks[t2.name := t2]), t2.name, None)
  }

  /** handleTaskNotExists: `task` is the caller's (still empty) task object. */
  function NotExistsSpec(env: Env, ctx: Ctx, w: World, attrs: CreateTaskAttributes, defName: string,
                         obj: ClientObject, task: KeptnTask, st: ItemStatus): (World, ItemStatus, Option<TaskError>)
  {
    if defName !in env.definitions then (w, st, Some(CannotGetTaskDefinition))
    else
      var (w1, name, err) := CreateSpec(env, ctx, w, obj, attrs.(definition := env.definitions[defName]));
      if err.Some? then (w1, st, err)
      else (GetSpan(w1, task).0, st.(name := name, startTime := true), None)
  }

  /** handleTaskExists. */
  function ExistsSpec(w: World, task: KeptnTask, st: ItemStatus): (World, ItemStatus)
  {
    var (w1, span) := GetSpan(w, task);
    var st1 := st.(status := task.status);
    if st1.status.IsCompleted() then
      // the registry holds the span object the handler annotates and ends
      var done := CompletedSpan(task, span);
      var w2 := w1.(spans := w1.spans[SpanKey(task) := done], ended := w1.ended + [done]);
      (UnbindSpan(w2, task), st1.(endTime := true))
    else (w1, st1)
  }

  /** Everything one ReconcileTasks call works with besides the world. */
  datatype Call = Call(ctx: Ctx, parent: PhaseItem, attrs: CreateTaskAttributes, statuses: seq<ItemStatus>)

  /** State of the pass after a prefix of the declared names. */
  datatype Progress = Continue(w: World, out: seq<ItemStatus>) | Stopped(w: World, err: TaskError)

  /** World after the "status changed" event of name `n`, if any. */
  function AfterStatusEvent(c: Call, w: World, n: string): World {
    var prior := GetOldStatus(n, c.statuses);
    var st := GetItemStatus(n, c.statuses);
    if prior != st.status then w.(events := w.events + [StatusChangedEvent(prior, st.status, c.parent.version)])
    else w
  }

  /** One iteration of the loop of ReconcileTasks. */
  function Step(env: Env, c: Call, w: World, out: seq<ItemStatus>, n: string): Progress
  {
    var st := GetItemStatus(n, c.statuses);
    var w1 := AfterStatusEvent(c, w, n);
    if st.status.SucceededOrFailed() then Continue(w1, out + [st])
    else if st.name != "" then
      match Lookup(env, w1.tasks, st.name)
      case GetError(e) => Stopped(w1, e)
      case NotFound =>
        var (w2, st2) := ExistsSpec(w1, EmptyTask, st.(name := ""));
        Continue(w2, out + [st2])
      case Found(t) =>
        var (w2, st2) := ExistsSpec(w1, t, st);
        Continue(w2, out + [st2])
    else
      var (w2, st2, err) := NotExistsSpec(env, c.ctx, w1, c.attrs, n, PhaseItemObject(c.parent), EmptyTask, st);
      if err.Some? then Continue(w2, out) else Continue(w2, out + [st2])
  }

  /** The loop of ReconcileTasks over the first |names| declared names. */
  function Walk(env: Env, c: Call, w: World, names: seq<string>): Progress
    decreases |names|
  {
    if names == [] then Continue(w, [])
    else
      match Walk(env, c, w, names[..|names| - 1])
      case Stopped(w1, e) => Stopped(w1, e)
      case Continue(w1, out) => Step(env, c, w1, out, names[|names| - 1])
  }

  /** What ReconcileTasks returns: the statuses and summary, or the error. */
  datatype Reconciled = Reconciled(statuses: seq<ItemStatus>, summary: StatusSummary)
                      | Aborted(summary: StatusSummary, err: TaskError)

  /** ReconcileTasks. */
  function ReconcileSpec(env: Env, ctx: Ctx, w: World, obj: ClientObject, attrs: CreateTaskAttributes)
    : (World, Reconciled)
  {
    match obj
    case OtherObject(_) => (w, Aborted(EmptySummary, NotAPhaseItem))
    case PhaseItemObject(p) =>
      var (names, statuses) := SetupTasks(attrs, p);
      var init := EmptySummary.(total := |names|);
      match Walk(env, Call(ctx, p, attrs, statuses), w, names)
      case Stopped(w1, e) => (w1, Aborted(init, e))
      case Continue(w1, out) => (w1, Reconciled(out, FoldSummary(init, out)))
  }

  /** A stopped pass stays stopped: no later name is processed. */
  lemma {:induction false} StoppedIsFinal(env: Env, c: Call, w: World, names: seq<string>, more: seq<string>)
    requires Walk(env, c, w, names).Stopped?
    ensures Walk(env, c, w, names + more) == Walk(env, c, w, names)
    decreases |more|
  {
    if more != [] {
      var front := more[..|more| - 1];
      StoppedIsFinal(env, c, w, names, front);
      assert (names + more)[..|names + more| - 1] == names + front;
    } else {
      assert names + more == names;
    }
  }

  // ---------------------------------------------------------------------
  // The phase context

  /** The phase context; its app metadata map is the one the task handler
      writes the propagation keys into. */
  class PhaseContext {
    const hasMetadata: bool
    const propagation: map<string, string>
    var metadata: map<string, string>

    constructor (hasMetadata: bool, metadata: map<string, string>, propagation: map<string, string>)
      ensures this.hasMetadata == hasMetadata && this.metadata == metadata && this.propagation == propagation
    {
      this.hasMetadata := hasMetadata;
      this.metadata := metadata;
      this.propagation := propagation;
    }

    function Props(): Ctx {
      Ctx(hasMetadata, propagation)
    }
  }

  /** injectKeptnContext: writes every propagation key into the context's own
      metadata map and hands that map to the task. */
  method InjectKeptnContext(ctx: PhaseContext, t: KeptnTask) returns (t': KeptnTask)
    modifies ctx
    ensures (ctx.metadata, t') == InjectSpec(ctx.Props(), old(ctx.metadata), t)
  {
    t' := t;
    if ctx.hasMetadata {
      var keys := ctx.propagation.Keys;
      ghost var done: set<string> := {};
      while keys != {}
        invariant keys !! done && keys + done == ctx.propagation.Keys
        invariant ctx.metadata == old(ctx.metadata) + map k | k in done :: ctx.propagation[k]
        decreases keys
      {
        var k :| k in keys;
        ctx.metadata := ctx.metadata[k := ctx.propagation[k]];
        keys, done := keys - {k}, done + {k};
      }
      assert (map k | k in done :: ctx.propagation[k]) == ctx.propagation;
      t' := t.(metadata := ctx.metadata);
    }
  }

  // ---------------------------------------------------------------------
  // The handler

  /** Handler with its collaborators: the cluster client (the task objects and
      the definitions), the event sender and the span handler. */
  class Handler {
    const definitions: map<string, TaskDefinition>
    const getFaults: set<string>
    const createFaults: set<string>
    const ownerRefFails: bool
    var tasks: map<string, KeptnTask>
    var events: seq<Event>
    var spans: map<string, Span>
    var ended: seq<Span>
    var nextId: nat

    constructor (env: Env, tasks: map<string, KeptnTask>)
      ensures Environment() == env && this.tasks == tasks
      ensures events == [] && spans == map[] && ended == [] && nextId == 0
    {
      definitions, getFaults, createFaults, ownerRefFails := env.definitions, env.getFaults, env.createFaults, env.ownerRefFails;
      this.tasks := tasks;
      events, spans, ended, nextId := [], map[], [], 0;
    }

    function Environment(): Env {
      Env(definitions, getFaults, createFaults, ownerRefFails)
    }

    function State(ctx: PhaseContext): World
      reads this, ctx
    {
      World(tasks, events, spans, ended, nextId, ctx.metadata)
    }

    method Emit(ctx: PhaseContext, e: Event)
      modifies this
      ensures State(ctx) == old(State(ctx)).(events := old(events) + [e])
    {
      events := events + [e];
    }

    method Get(name: string) returns (r: GetResult)
      ensures r == Lookup(Environment(), tasks, name)
    {
      if name in getFaults {
        r := GetError(GetFailed(name));
      } else if name in tasks {
        r := Found(tasks[name]);
      } else {
        r := NotFound;
      }
    }

    method GetSpanOf(ctx: PhaseContext, t: KeptnTask) returns (s: Span)
      modifies this
      ensures (State(ctx), s) == GetSpan(old(State(ctx)), t)
    {
      var k := SpanKey(t);
      if k in spans {
        s := spans[k];
      } else {
        s := Span(k, [], Unset, false);
        spans := spans[k := s];
      }
    }

    method CreateKeptnTask(ctx: PhaseContext, obj: ClientObject, attrs: CreateTaskAttributes)
      returns (name: string, err: Option<TaskError>)
      modifies this, ctx
      ensures (State(ctx), name, err) == CreateSpec(Environment(), ctx.Props(), old(State(ctx)), obj, attrs)
    {
      if obj.OtherObject? {
        return "", Some(NotAPhaseItem);
      }
      var p := obj.item;
      var newTask := GenerateTask(p, attrs.definition, attrs.checkType, nextId);
      nextId := nextId + 1;
      newTask := InjectKeptnContext(ctx, newTask);
      if !ownerRefFails {
        newTask := newTask.(owner := Some(p.name));
      }
      if newTask.name in tasks || newTask.name in createFaults {
        Emit(ctx, CreateFailedEvent(p.version));
        return "", Some(CreateFailed(newTask.name));
      }
      tasks := tasks[newTask.name := newTask];
      return newTask.name, None;
    }

    method HandleTaskNotExists(ctx: PhaseContext, attrs: CreateTaskAttributes, defName: string,
                               obj: ClientObject, task: KeptnTask, st: ItemStatus)
      returns (st': ItemStatus, err: Option<TaskError>)
      modifies this, ctx
      ensures (State(ctx), st', err) == NotExistsSpec(Environment(), ctx.Props(), old(State(ctx)), attrs, defName, obj, task, st)
    {
      if defName !in definitions {
        return st, Some(CannotGetTaskDefinition);
      }
      var name;
      name, err := CreateKeptnTask(ctx, obj, attrs.(definition := definitions[defName]));
      if err.Some? {
        return st, err;
      }
      st' := st.(name := name, startTime := true);
      var _ := GetSpanOf(ctx, task);
    }

    method HandleTaskExists(ctx: PhaseContext, task: KeptnTask, st: ItemStatus) returns (st': ItemStatus)
      modifies this
      ensures (State(ctx), st') == ExistsSpec(old(State(ctx)), task, st)
    {
      var span := GetSpanOf(ctx, task);
      st' := st.(status := task.status);
      if st'.status.IsCompleted() {
        if st'.status.IsSucceeded() {
          span := AddEvent(span, HasFinished(task.name));
          span := span.(code := Ok);
        } else {
          span := AddEvent(span, HasFailed(task.name));
          span := SetTaskFailureEvents(task, span);
          span := span.(code := Error);
        }
        span := span.(ended := true);
        spans := spans[SpanKey(task) := span];
        ended := ended + [span];
        spans := spans - {SpanKey(task)};
        st' := st'.(endTime := true);
      }
    }

    /** One turn of the loop of ReconcileTasks for the declared name `n`:
        the entries after it, or the error that stops the pass. */
    method ReconcileItem(ctx: PhaseContext, p: PhaseItem, attrs: CreateTaskAttributes,
                         statuses: seq<ItemStatus>, n: string, newStatus: seq<ItemStatus>)
      returns (out: seq<ItemStatus>, stop: Option<TaskError>)
      modifies this, ctx
      ensures (if stop.Some? then Stopped(State(ctx), stop.value) else Continue(State(ctx), out))
           == Step(Environment(), Call(ctx.Props(), p, attrs, statuses), old(State(ctx)), newStatus, n)
    {
      out, stop := newStatus, None;
      var oldStatus := GetOldStatus(n, statuses);
      var st := GetItemStatus(n, statuses);
      var taskExists := false;
      var task := EmptyTask;
      if oldStatus != st.status {
        Emit(ctx, StatusChangedEvent(oldStatus, st.status, p.version));
      }
      if st.status.SucceededOrFailed() {
        return newStatus + [st], None;
      }
      if st.name != "" {
        var got := Get(st.name);
        if got.NotFound? {
          st := st.(name := "");
        } else if got.GetError? {
          return newStatus, Some(got.err);
        } else {
          task := got.task;
        }
        taskExists := true;
      }
      if !taskExists {
        var err;
        st, err := HandleTaskNotExists(ctx, attrs, n, PhaseItemObject(p), task, st);
        if err.Some? {
          return newStatus, None;
        }
      } else {
        st := HandleTaskExists(ctx, task, st);
      }
      out := newStatus + [st];
    }

    method ReconcileTasks(ctx: PhaseContext, obj: ClientObject, attrs: CreateTaskAttributes)
      returns (r: Reconciled)
      modifies this, ctx
      ensures (State(ctx), r) == ReconcileSpec(Environment(), ctx.Props(), old(State(ctx)), obj, attrs)
    {
      if obj.OtherObject? {
        return Aborted(EmptySummary, NotAPhaseItem);
      }
      var p := obj.item;
      var names, statuses := SetupTasks(attrs, p).0, SetupTasks(attrs, p).1;
      var summary := EmptySummary.(total := |names|);
      var newStatus, stop := ReconcileNames(ctx, p, attrs, statuses, names);
      if stop.Some? {
        return Aborted(summary, stop.value);
      }
      summary := Summarize(summary, newStatus);
      return Reconciled(newStatus, summary);
    }

    /** The loop of ReconcileTasks over the declared names, stopping at the
        first error. */
    method ReconcileNames(ctx: PhaseContext, p: PhaseItem, attrs: CreateTaskAttributes,
                          statuses: seq<ItemStatus>, names: seq<string>)
      returns (newStatus: seq<ItemStatus>, stop: Option<TaskError>)
      modifies this, ctx
      ensures (if stop.Some? then Stopped(State(ctx), stop.value) else Continue(State(ctx), newStatus))
           == Walk(Environment(), Call(ctx.Props(), p, attrs, statuses), old(State(ctx)), names)
    {
      ghost var c := Call(ctx.Props(), p, attrs, statuses);
      newStatus, stop := [], None;
      var i := 0;
      while i < |names|
        invariant 0 <= i <= |names|
        invariant Walk(Environment(), c, old(State(ctx)), names[..i]) == Continue(State(ctx), newStatus)
        invariant stop == None
      {
        assert names[..i + 1][..i] == names[..i];
        newStatus, stop := ReconcileItem(ctx, p, attrs, statuses, names[i], newStatus);
        if stop.Some? {
          StoppedIsFinal(Environment(), c, old(State(ctx)), names[..i + 1], names[i + 1..]);
          assert names[..i + 1] + names[i + 1..] == names;
          return;
        }
        i := i + 1;
      }
      assert names[..i] == names;
    }
  }

  /** The closing loop of ReconcileTasks: UpdateStatusSummary applied to each
      new status in turn. */
  method Summarize(init: StatusSummary, statuses: seq<ItemStatus>) returns (summary: StatusSummary)
    ensures summary == FoldSummary(init, statuses)
  {
    summary := init;
    var j := 0;
    while j < |statuses|
      invariant 0 <= j <= |statuses|
      invariant summary == FoldSummary(init, statuses[..j])
    {
      assert statuses[..j + 1][..j] == statuses[..j];
      summary := UpdateStatusSummary(statuses[j].status, summary);
      j := j + 1;
    }
    assert statuses[..j] == statuses;
  }
}
