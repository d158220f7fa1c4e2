/**
 * "set mode" from message to mode switch: the message is parsed, queued, drained at once, and a
 * refresh is asked for (compositor-drm-help.c:367-402, 413-458, 783-797).
 */
module SetMode {
  import opened Options
  import opened OutputSlots
  import opened OutputList
  import opened ModeString
  import opened TaskRing

  /** The members of a JSON message; a member that is missing or null is None. */
  datatype Message = Message(cmd: Option<string>, value: Option<string>)

  /** A call into the compositor. */
  datatype Call = SwitchMode(output: Output, mode: Mode) | ForceRefresh(output: Output)

  const SET_MODE := "set mode"

  /** A "set mode" message whose value parses. */
  predicate Accepted(m: Message) {
    m.cmd == Some(SET_MODE) && m.value.Some? && Parse(m.value.value).Some?
  }

  /** The enabled outputs of the list from position i on, the tail excluded. */
  function Enabled(s: seq<Slot>, i: nat): seq<Output>
    requires WellFormed(s) && i <= |s| - 1
    decreases |s| - i
  {
    if i == |s| - 1 then []
    else (if s[i].enable then [s[i].data.value] else []) + Enabled(s, i + 1)
  }

  /** Whom a mode switch goes to: the enabled outputs, or the legacy one if none is registered. */
  function Targets(s: seq<Slot>, legacy: Option<Output>): seq<Output>
    requires WellFormed(s)
  {
    if s[0].data.Some? then Enabled(s, 0) else if legacy.Some? then [legacy.value] else []
  }

  function Switches(os: seq<Output>, mode: Mode): seq<Call> {
    seq(|os|, i requires 0 <= i < |os| => SwitchMode(os[i], mode))
  }

  function Refreshes(os: seq<Output>): seq<Call> {
    seq(|os|, i requires 0 <= i < |os| => ForceRefresh(os[i]))
  }

  /** What is registered with the helper besides the list. */
  datatype Hooks = Hooks(switchMode: bool, forceRefresh: bool, legacy: Option<Output>)

  /** The calls one executed task makes. */
  function TaskCalls(s: seq<Slot>, k: Hooks, m: Message): seq<Call>
    requires WellFormed(s) && Accepted(m)
  {
    if k.switchMode then Switches(Targets(s, k.legacy), Parse(m.value.value).value) else []
  }

  /** Every task of the list passed the parser. */
  predicate Ready(ms: seq<Message>) {
    forall i :: 0 <= i < |ms| ==> Accepted(ms[i])
  }

  function TasksCalls(s: seq<Slot>, k: Hooks, ms: seq<Message>): seq<Call>
    requires WellFormed(s) && Ready(ms)
  {
    if ms == [] then [] else TaskCalls(s, k, ms[0]) + TasksCalls(s, k, ms[1..])
  }

  /** The refreshes that an accepted message asks for, whether or not it found a place. */
  function RefreshCalls(s: seq<Slot>, k: Hooks): seq<Call>
    requires WellFormed(s)
  {
    if k.forceRefresh && s[0].data.Some? then Refreshes(Enabled(s, 0)) else []
  }

  // ---------------------------------------------------------------- the queue over a run

  /** A message arrives, `copied` saying whether its deep copy succeeds, or a repaint cycle completes. */
  datatype Event = Arrives(m: Message, copied: bool) | Repainted

  /** Tasks that wait and tasks that were executed. */
  datatype State = State(waiting: seq<Message>, executed: seq<Message>)

  /** Whether the message is queued, which an accepted one is if it finds a place. */
  predicate Queued(waiting: seq<Message>, m: Message, copied: bool) {
    Accepted(m) && copied && |waiting| < SLOTS - 1
  }

  /** Once a message is queued, everything that waits is executed. */
  function Step(s: State, e: Event): State {
    match e
    case Repainted => State([], s.executed + s.waiting)
    case Arrives(m, copied) =>
      if Queued(s.waiting, m, copied) then State([], s.executed + (s.waiting + [m])) else s
  }

  function Run(es: seq<Event>): State {
    if es == [] then State([], []) else Step(Run(es[..|es| - 1]), es[|es| - 1])
  }

  /** An accepted message whose deep copy succeeds. */
  predicate Taken(e: Event) {
    e.Arrives? && Accepted(e.m) && e.copied
  }

  /** The messages taken in a run, in arrival order. */
  function TakenIn(es: seq<Event>): seq<Message> {
    if es == [] then []
    else TakenIn(es[..|es| - 1]) + if Taken(es[|es| - 1]) then [es[|es| - 1].m] else []
  }

  /**
   * Over every run each accepted "set mode" whose copy succeeds is executed exactly once, in
   * arrival order, and no message finds the queue full: it is empty after every event.
   */
  lemma {:induction false} ExecutedOnceInOrder(es: seq<Event>)
    ensures Run(es) == State([], TakenIn(es))
  {
    if es != [] { ExecutedOnceInOrder(es[..|es| - 1]); }
  }

  // ---------------------------------------------------------------- the handlers

  lemma SwitchesOne(o: Output, os: seq<Output>, mode: Mode)
    ensures Switches(os + [o], mode) == Switches(os, mode) + [SwitchMode(o, mode)]
  {
  }

  lemma RefreshesOne(o: Output, os: seq<Output>)
    ensures Refreshes(os + [o]) == Refreshes(os) + [ForceRefresh(o)]
  {
  }

  /** One more position of the list looked at. */
  lemma EnabledNext(s: seq<Slot>, i: nat, told: seq<Output>)
    requires WellFormed(s) && i < |s| - 1
    ensures s[i].enable ==> s[i].data.Some?
    ensures told + Enabled(s, i) == (if s[i].enable then told + [s[i].data.value] else told) + Enabled(s, i + 1)
  {
  }

  lemma EmptyBefore<T>(none: seq<T>, s: seq<T>)
    requires none == []
    ensures none + s == s
  {
  }

  /** The loop of process_task over the outputs. */
  method SwitchEnabled(outputs: CompositorOutputs, mode: Mode) returns (made: seq<Call>)
    requires outputs.Valid()
    ensures made == Switches(Enabled(outputs.Slots(), 0), mode)
  {
    ghost var s := outputs.Slots();
    ghost var told: seq<Output> := [];
    made := [];
    var current := outputs.head;
    ghost var i := 0;
    EmptyBefore(told, Enabled(s, 0));
    while current.next != null
      invariant i < |outputs.nodes| && current == outputs.nodes[i]
      invariant told + Enabled(s, i) == Enabled(s, 0)
      invariant made == Switches(told, mode)
      decreases |outputs.nodes| - i
    {
      assert s[i].enable == current.enable && s[i].data == current.data;
      EnabledNext(s, i, told);
      if current.enable {
        assert current.data != None;
        SwitchesOne(current.data.value, told, mode);
        made := made + [SwitchMode(current.data.value, mode)];
        told := told + [current.data.value];
      }
      current := current.next;
      i := i + 1;
    }
  }

  /** The loop of m_message_handle that asks for a refresh. */
  method RefreshEnabled(outputs: CompositorOutputs) returns (made: seq<Call>)
    requires outputs.Valid()
    ensures made == Refreshes(Enabled(outputs.Slots(), 0))
  {
    ghost var s := outputs.Slots();
    ghost var told: seq<Output> := [];
    made := [];
    var current := outputs.head;
    ghost var i := 0;
    EmptyBefore(told, Enabled(s, 0));
    while current.next != null
      invariant i < |outputs.nodes| && current == outputs.nodes[i]
      invariant told + Enabled(s, i) == Enabled(s, 0)
      invariant made == Refreshes(told)
      decreases |outputs.nodes| - i
    {
      assert s[i].enable == current.enable && s[i].data == current.data;
      EnabledNext(s, i, told);
      if current.enable {
        assert current.data != None;
        RefreshesOne(current.data.value, told);
        made := made + [ForceRefresh(current.data.value)];
        told := told + [current.data.value];
      }
      current := current.next;
      i := i + 1;
    }
  }

  /** The slots of a valid list.  (An Option, so that a proof that only carries it need not open it.) */
  ghost function Registered(outputs: CompositorOutputs): Option<seq<Slot>>
    reads outputs, outputs.nodes, outputs.dead
  {
    if outputs.Valid() then Some(outputs.Slots()) else None
  }

  /** The tasks of a valid queue. */
  ghost function Waiting(queue: TaskQueue<Message>): Option<seq<Message>>
    reads queue, queue.task
  {
    if queue.Valid() then Some(queue.Contents()) else None
  }

  /** Whom process_task tells of the mode. */
  method SwitchTargets(outputs: CompositorOutputs, ghost s: seq<Slot>, legacy: Option<Output>, mode: Mode)
    returns (made: seq<Call>)
    requires Registered(outputs) == Some(s) && WellFormed(s)
    ensures made == Switches(Targets(s, legacy), mode)
  {
    made := [];
    assert outputs.head.data == s[0].data;
    if outputs.head.data != None {
      made := SwitchEnabled(outputs, mode);
    } else if legacy != None {
      made := [SwitchMode(legacy.value, mode)];
    }
  }

  /** process_task, on a task that passed the parser: it never takes the branch that sets `ret` to -1. */
  method ProcessTask(outputs: CompositorOutputs, ghost s: seq<Slot>, hooks: Hooks, m: Message)
    returns (ret: int, made: seq<Call>)
    requires Registered(outputs) == Some(s) && WellFormed(s) && Accepted(m)
    ensures ret == 0 && made == TaskCalls(s, hooks, m)
  {
    ret, made := 0, [];
    assert m.cmd != None;
    if m.cmd.value == SET_MODE {
      assert m.value != None;
      var mode := ParseModestring(m.value.value);
      if mode != None {
        if hooks.switchMode {
          made := SwitchTargets(outputs, s, hooks.legacy, mode.value);
        }
      } else {
        ret := -1;
      }
    }
  }

  /** get_task behind have_task. */
  method Take(queue: TaskQueue<Message>, ghost ms: seq<Message>) returns (task: Option<Message>)
    requires Waiting(queue) == Some(ms)
    modifies queue, queue.task
    ensures ms == [] ==> task == None && Waiting(queue) == Some([])
    ensures ms != [] ==> task == Some(ms[0]) && Waiting(queue) == Some(ms[1..])
  {
    var have := queue.HaveTask();
    if !have {
      return None;
    }
    task := queue.GetTask();
  }

  lemma FirstMoves<T>(before: seq<T>, s: seq<T>)
    requires s != []
    ensures (before + [s[0]]) + s[1..] == before + s
  {
  }

  lemma NothingToDo(s: seq<Slot>, k: Hooks, none: seq<Message>, made: seq<Call>)
    requires WellFormed(s) && none == [] && made == []
    ensures Ready(none) && made == TasksCalls(s, k, none) && made == TasksCalls(s, k, none) + []
  {
  }

  lemma ReadyAlso(ms: seq<Message>, m: Message)
    requires Ready(ms) && Accepted(m)
    ensures Ready(ms + [m])
  {
  }

  lemma TasksCallsOne(s: seq<Slot>, k: Hooks, ms: seq<Message>, made: seq<Call>)
    requires WellFormed(s) && Ready(ms) && ms != []
    ensures Ready(ms[1..])
    ensures made + TasksCalls(s, k, ms) == (made + TaskCalls(s, k, ms[0])) + TasksCalls(s, k, ms[1..])
  {
  }

  /** The body of the loop of help_do_repaint_cycle_completed. */
  method RunTask(outputs: CompositorOutputs, ghost s: seq<Slot>, hooks: Hooks,
                queue: TaskQueue<Message>, ghost ms: seq<Message>)
    returns (task: Option<Message>, made: seq<Call>)
    requires Registered(outputs) == Some(s) && WellFormed(s) && Waiting(queue) == Some(ms) && Ready(ms)
    modifies queue, queue.task
    ensures Registered(outputs) == Some(s)
    ensures ms == [] ==> task == None && Waiting(queue) == Some([])
    ensures ms != [] ==> task == Some(ms[0]) && made == TaskCalls(s, hooks, ms[0]) && Waiting(queue) == Some(ms[1..])
  {
    made := [];
    task := Take(queue, ms);
    if task != None {
      var _, calls := ProcessTask(outputs, s, hooks, task.value);
      made := calls;
    }
  }

  /** help_do_repaint_cycle_completed: the loop ends, with the queue empty. */
  method RepaintCompleted(outputs: CompositorOutputs, ghost s: seq<Slot>, hooks: Hooks,
                          queue: TaskQueue<Message>, ghost ms: seq<Message>)
    returns (made: seq<Call>, executed: seq<Message>)
    requires Registered(outputs) == Some(s) && WellFormed(s) && Waiting(queue) == Some(ms) && Ready(ms)
    modifies queue, queue.task
    ensures Registered(outputs) == Some(s)
    ensures Waiting(queue) == Some([]) && executed == ms && made == TasksCalls(s, hooks, ms)
  {
    ghost var left := ms;
    made, executed := [], [];
    EmptyBefore(executed, ms);
    EmptyBefore(made, TasksCalls(s, hooks, ms));
    var gotTask := true;
    while gotTask
      invariant Registered(outputs) == Some(s) && Waiting(queue) == Some(left) && Ready(left)
      invariant gotTask || left == []
      invariant executed + left == ms
      invariant made + TasksCalls(s, hooks, left) == TasksCalls(s, hooks, ms)
      decreases |left|, gotTask
    {
      var task, calls := RunTask(outputs, s, hooks, queue, left);
      gotTask := task != None;
      if gotTask {
        TasksCallsOne(s, hooks, left, made);
        FirstMoves(executed, left);
        made := made + calls;
        executed := executed + [task.value];
        left := left[1..];
      }
    }
  }

  method RefreshAll(outputs: CompositorOutputs, ghost s: seq<Slot>, hooks: Hooks) returns (made: seq<Call>)
    requires Registered(outputs) == Some(s) && WellFormed(s)
    ensures made == RefreshCalls(s, hooks)
  {
    made := [];
    assert outputs.head.data == s[0].data;
    if hooks.forceRefresh && outputs.head.data != None {
      made := RefreshEnabled(outputs);
    }
  }

  /** schedule_task. */
  method Schedule(queue: TaskQueue<Message>, ghost ms: seq<Message>, m: Message, copied: bool)
    returns (ok: bool)
    requires Waiting(queue) == Some(ms)
    modifies queue, queue.task
    ensures ok <==> |ms| < SLOTS - 1 && copied
    ensures Waiting(queue) == Some(if ok then ms + [m] else ms)
  {
    ok := queue.Schedule(m, copied);
  }

  /** The branch of m_message_handle for a mode string that parsed, up to the refresh. */
  method QueueAndRun(outputs: CompositorOutputs, ghost s: seq<Slot>, hooks: Hooks,
                     queue: TaskQueue<Message>, ghost ms: seq<Message>, m: Message, copied: bool)
    returns (ret: int, made: seq<Call>, executed: seq<Message>)
    requires Registered(outputs) == Some(s) && WellFormed(s) && Waiting(queue) == Some(ms) && Ready(ms)
    requires Accepted(m)
    modifies queue, queue.task
    ensures Registered(outputs) == Some(s)
    ensures ret == if copied && |ms| < SLOTS - 1 then 0 else -1
    ensures Waiting(queue) == Some(if copied && |ms| < SLOTS - 1 then [] else ms)
    ensures executed == if copied && |ms| < SLOTS - 1 then ms + [m] else []
    ensures Ready(executed) && made == TasksCalls(s, hooks, executed)
  {
    ret, made, executed := 0, [], [];
    ReadyAlso(ms, m);
    NothingToDo(s, hooks, executed, made);
    var scheduled := Schedule(queue, ms, m, copied);
    if !scheduled {
      ret := -1;
    } else {
      made, executed := RepaintCompleted(outputs, s, hooks, queue, ms + [m]);
    }
  }

  /**
   * m_message_handle, as far as "set mode" goes: an accepted message that finds a place is executed
   * behind those that waited, and the refreshes follow.  The answer is 0 exactly if the message was
   * executed.  ServeEvent ties this to Step.
   */
  method HandleMessage(outputs: CompositorOutputs, ghost s: seq<Slot>, hooks: Hooks,
                       queue: TaskQueue<Message>, ghost ms: seq<Message>, m: Message, copied: bool)
    returns (ret: int, made: seq<Call>, executed: seq<Message>)
    requires Registered(outputs) == Some(s) && WellFormed(s) && Waiting(queue) == Some(ms) && Ready(ms)
    modifies queue, queue.task
    ensures m.cmd == Some("set mode") ==> ret == if executed == ms + [m] then 0 else -1
    ensures Registered(outputs) == Some(s) && Ready(executed)
    ensures Waiting(queue) == Some(if Queued(ms, m, copied) then [] else ms)
    ensures executed == if Queued(ms, m, copied) then ms + [m] else []
    ensures made == TasksCalls(s, hooks, executed) + if Accepted(m) then RefreshCalls(s, hooks) else []
  {
    ret, made, executed := 0, [], [];
    var accepted := Check(m);
    if accepted {
      ret, made, executed := QueueAndRun(outputs, s, hooks, queue, ms, m, copied);
      var refreshed := RefreshAll(outputs, s, hooks);
      made := made + refreshed;
    } else {
      ret := -1;
      NothingToDo(s, hooks, executed, made);
    }
  }

  /** The tests m_message_handle makes before it queues a message. */
  method Check(m: Message) returns (accepted: bool)
    ensures accepted <==> Accepted(m)
  {
    if m.cmd == None || m.cmd.value != SET_MODE || m.value == None {
      return false;
    }
    var mode := ParseModestring(m.value.value);
    return mode != None;
  }

  // ---------------------------------------------------------------- a whole run on the real queue

  /** What was executed before an event does not matter for it. */
  lemma StepFrom(st: State, e: Event)
    ensures Step(st, e) == State(Step(State(st.waiting, []), e).waiting,
                                 st.executed + Step(State(st.waiting, []), e).executed)
  {
    EmptyBefore([], st.waiting);
    match e
    case Repainted =>
    case Arrives(m, copied) =>
      EmptyBefore([], st.waiting + [m]);
      assert st.executed + [] == st.executed;
  }

  /** One event on the real queue is one step. */
  method ServeEvent(outputs: CompositorOutputs, ghost s: seq<Slot>, hooks: Hooks,
                    queue: TaskQueue<Message>, ghost st: State, e: Event)
    returns (made: seq<Call>, executed: seq<Message>)
    requires Registered(outputs) == Some(s) && WellFormed(s) && Waiting(queue) == Some(st.waiting) && Ready(st.waiting)
    modifies queue, queue.task
    ensures Registered(outputs) == Some(s) && Ready(executed)
    ensures Waiting(queue) == Some(Step(st, e).waiting) && st.executed + executed == Step(st, e).executed
    ensures made == TasksCalls(s, hooks, executed)
                 + if e.Arrives? && Accepted(e.m) then RefreshCalls(s, hooks) else []
  {
    StepFrom(st, e);
    match e
    case Arrives(m, copied) =>
      var _, calls, tasks := HandleMessage(outputs, s, hooks, queue, st.waiting, m, copied);
      made, executed := calls, tasks;
    case Repainted =>
      made, executed := RepaintCompleted(outputs, s, hooks, queue, st.waiting);
  }

  /** The calls that one event makes on an empty queue. */
  function EventCalls(s: seq<Slot>, k: Hooks, e: Event): seq<Call>
    requires WellFormed(s)
  {
    if !e.Arrives? || !Accepted(e.m) then []
    else (if e.copied then TaskCalls(s, k, e.m) else []) + RefreshCalls(s, k)
  }

  function RunCalls(s: seq<Slot>, k: Hooks, es: seq<Event>): seq<Call>
    requires WellFormed(s)
  {
    if es == [] then [] else RunCalls(s, k, es[..|es| - 1]) + EventCalls(s, k, es[|es| - 1])
  }

  lemma EventMakes(s: seq<Slot>, k: Hooks, e: Event, executed: seq<Message>, made: seq<Call>)
    requires WellFormed(s) && Ready(executed)
    requires executed == if Taken(e) then [e.m] else []
    requires made == TasksCalls(s, k, executed) + if e.Arrives? && Accepted(e.m) then RefreshCalls(s, k) else []
    ensures made == EventCalls(s, k, e)
  {
    if Taken(e) {
      assert executed[0] == e.m && executed[1..] == [];
      assert TasksCalls(s, k, executed) == TaskCalls(s, k, e.m) + [];
    } else {
      assert TasksCalls(s, k, executed) == [];
    }
  }

  /** What one more event executes after a run. */
  lemma RunNext(es: seq<Event>, e: Event, executed: seq<Message>)
    requires Run(es).executed + executed == Step(Run(es), e).executed
    ensures executed == if Taken(e) then [e.m] else []
    ensures Step(Run(es), e) == Run(es + [e])
  {
    ExecutedOnceInOrder(es);
    assert (es + [e])[..|es|] == es;
    var done := TakenIn(es);
    assert done + executed == done + if Taken(e) then [e.m] else [];
    assert (done + executed)[|done|..] == executed;
    assert (done + if Taken(e) then [e.m] else [])[|done|..] == if Taken(e) then [e.m] else [];
  }

  lemma NextEvent(es: seq<Event>, i: nat)
    requires i < |es|
    ensures es[..i + 1] == es[..i] + [es[i]] && es[..i + 1][..i] == es[..i]
  {
  }

  /**
   * A whole run on the real queue: messages and repaint cycles in any order.  The queue ends empty,
   * exactly the taken messages were executed, each once and in arrival order, and exactly their
   * calls and the refreshes of the accepted messages were made.
   */
  method ServeAll(outputs: CompositorOutputs, ghost s: seq<Slot>, hooks: Hooks, queue: TaskQueue<Message>,
                  events: seq<Event>)
    returns (made: seq<Call>, executed: seq<Message>)
    requires Registered(outputs) == Some(s) && WellFormed(s) && Waiting(queue) == Some([])
    modifies queue, queue.task
    ensures Registered(outputs) == Some(s) && Waiting(queue) == Some([])
    ensures executed == TakenIn(events) && made == RunCalls(s, hooks, events)
  {
    made, executed := [], [];
    ghost var past: seq<Event> := [];
    var i := 0;
    while i < |events|
      invariant i <= |events| && past == events[..i]
      invariant Registered(outputs) == Some(s) && Waiting(queue) == Some([])
      invariant executed == TakenIn(past) && made == RunCalls(s, hooks, past)
    {
      NextEvent(events, i);
      var calls, tasks := ServeNext(outputs, s, hooks, queue, past, events[i]);
      made, executed := made + calls, executed + tasks;
      past := past + [events[i]];
      i := i + 1;
    }
    assert events[..i] == events;
  }

  /** One event after a run. */
  method ServeNext(outputs: CompositorOutputs, ghost s: seq<Slot>, hooks: Hooks, queue: TaskQueue<Message>,
                   ghost past: seq<Event>, e: Event)
    returns (made: seq<Call>, executed: seq<Message>)
    requires Registered(outputs) == Some(s) && WellFormed(s) && Waiting(queue) == Some([])
    modifies queue, queue.task
    ensures Registered(outputs) == Some(s) && Waiting(queue) == Some([])
    ensures TakenIn(past + [e]) == TakenIn(past) + executed
    ensures RunCalls(s, hooks, past + [e]) == RunCalls(s, hooks, past) + made
  {
    ExecutedOnceInOrder(past);
    made, executed := ServeEvent(outputs, s, hooks, queue, Run(past), e);
    RunNext(past, e, executed);
    ExecutedOnceInOrder(past + [e]);
    EventMakes(s, hooks, e, executed, made);
    assert (past + [e])[..|past|] == past;
  }

  // ---------------------------------------------------------------- who is told

  /** The legacy output is told exactly when no output is registered; otherwise the enabled ones are. */
  lemma LegacyOnlyWithoutOutputs(s: seq<Slot>, legacy: Option<Output>)
    requires WellFormed(s)
    ensures s[0].data.None? <==> Entries(s) == []
    ensures Targets(s, legacy) ==
      if Entries(s) == [] then (if legacy.Some? then [legacy.value] else []) else EnabledEntries(Entries(s))
  {
    if s[0].data.Some? {
      EnabledAreEntries(s, 0);
      assert Entries(s)[0..] == Entries(s);
    }
  }

  /** With outputs registered, exactly the enabled ones are told, each once and in list order. */
  lemma {:induction false} EnabledAreEntries(s: seq<Slot>, i: nat)
    requires WellFormed(s) && s[0].data.Some? && i <= |s| - 1
    ensures Enabled(s, i) == EnabledEntries(Entries(s)[i..])
    decreases |s| - i
  {
    if i < |s| - 1 {
      EnabledAreEntries(s, i + 1);
      assert Entries(s)[i..][1..] == Entries(s)[i + 1..];
    }
  }

  function EnabledEntries(es: seq<Entry>): seq<Output> {
    if es == [] then [] else (if es[0].enable then [es[0].output] else []) + EnabledEntries(es[1..])
  }

  /** The enabled entries are kept in their order, each once, and the others are left out. */
  lemma {:induction false} EnabledKept(es: seq<Entry>, e: Entry)
    ensures EnabledEntries([]) == []
    ensures EnabledEntries(es + [e]) == EnabledEntries(es) + (if e.enable then [e.output] else [])
  {
    if es == [] {
      assert ([] + [e])[1..] == [];
    } else {
      EnabledKept(es[1..], e);
      assert (es + [e])[1..] == es[1..] + [e];
    }
  }

  // ---------------------------------------------------------------- what they are told

  /** The outputs that are told of a mode, from the entries of the list alone. */
  predicate Recipients(s: seq<Slot>, legacy: Option<Output>, os: seq<Output>)
    requires WellFormed(s)
  {
    if Entries(s) != [] then os == EnabledEntries(Entries(s))
    else if legacy.Some? then os == [legacy.value]
    else os == []
  }

  /** One task makes one call for each recipient, with the mode its text stands for. */
  lemma TaskTells(s: seq<Slot>, k: Hooks, m: Message, os: seq<Output>)
    requires WellFormed(s) && Accepted(m) && Recipients(s, k.legacy, os)
    ensures |TaskCalls(s, k, m)| == if k.switchMode then |os| else 0
    ensures forall i :: 0 <= i < |TaskCalls(s, k, m)| ==>
              TaskCalls(s, k, m)[i] == SwitchMode(os[i], Parse(m.value.value).value)
  {
    LegacyOnlyWithoutOutputs(s, k.legacy);
  }

  /** An accepted message asks each enabled output once for a refresh, never the legacy one. */
  lemma RefreshTells(s: seq<Slot>, k: Hooks, os: seq<Output>)
    requires WellFormed(s) && os == EnabledEntries(Entries(s))
    ensures |RefreshCalls(s, k)| == if k.forceRefresh then |os| else 0
    ensures forall i :: 0 <= i < |RefreshCalls(s, k)| ==> RefreshCalls(s, k)[i] == ForceRefresh(os[i])
  {
    LegacyOnlyWithoutOutputs(s, k.legacy);
  }

  /** What one more accepted message adds to the calls of a run. */
  lemma MessageAdds(s: seq<Slot>, k: Hooks, es: seq<Event>, m: Message, copied: bool)
    requires WellFormed(s) && Accepted(m)
    ensures RunCalls(s, k, es + [Arrives(m, copied)])
         == RunCalls(s, k, es) + ((if copied then TaskCalls(s, k, m) else []) + RefreshCalls(s, k))
  {
    assert (es + [Arrives(m, copied)])[..|es|] == es;
  }

  /**
   * A "set mode" message with a text in the documented format, at any point of a run: if its copy
   * succeeds, each recipient is told exactly the width, height, flags, rate and ratio of the text,
   * and then each enabled output is asked for a refresh; each kind of call needs its hook.
   */
  lemma DocumentedTold(s: seq<Slot>, k: Hooks, es: seq<Event>, m: Message, copied: bool, text: string, w: nat, h: nat,
                       x: Suffix, refresh: Option<nat>, ratio: Ratio, os: seq<Output>)
    returns (switches: seq<Call>, refreshes: seq<Call>)
    requires WellFormed(s) && Recipients(s, k.legacy, os)
    requires w < 0x8000_0000 && h < 0x8000_0000 && (refresh.Some? ==> refresh.value < 0x1_0000_0000)
    requires (refresh.None? ==> ratio.NoRatio?) && text == Documented(w, h, x, refresh, ratio)
    requires m == Message(Some("set mode"), Some(text))
    ensures RunCalls(s, k, es + [Arrives(m, copied)]) == RunCalls(s, k, es) + (switches + refreshes)
    ensures |switches| == if k.switchMode && copied then |os| else 0
    ensures forall i :: 0 <= i < |switches| ==> switches[i].SwitchMode? && switches[i].output == os[i]
    ensures forall i :: 0 <= i < |switches| ==> switches[i].mode.width == w && switches[i].mode.height == h
    ensures forall i :: 0 <= i < |switches| ==>
              (switches[i].mode.interlaced <==> x == Interlaced) && (switches[i].mode.doubled <==> x == Doubled)
    ensures forall i :: 0 <= i < |switches| ==>
              switches[i].mode.refresh == (if refresh.Some? then refresh.value else 0)
              && switches[i].mode.ratio == ratio
    ensures |refreshes| == if k.forceRefresh then |EnabledEntries(Entries(s))| else 0
    ensures forall i :: 0 <= i < |refreshes| ==> refreshes[i] == ForceRefresh(EnabledEntries(Entries(s))[i])
  {
    ParseUndoesDocumented(text, w, h, x, refresh, ratio);
    TaskTells(s, k, m, os);
    RefreshTells(s, k, EnabledEntries(Entries(s)));
    MessageAdds(s, k, es, m, copied);
    switches := if copied then TaskCalls(s, k, m) else [];
    refreshes := RefreshCalls(s, k);
  }

  /** A repaint cycle and a message that is refused add no call, and a run starts with none. */
  lemma OthersTellNothing(s: seq<Slot>, k: Hooks, es: seq<Event>, e: Event)
    requires WellFormed(s)
    requires e.Arrives? ==> e.m.cmd != Some("set mode") || e.m.value.None? || Parse(e.m.value.value).None?
    ensures RunCalls(s, k, []) == []
    ensures RunCalls(s, k, es + [e]) == RunCalls(s, k, es)
  {
    assert (es + [e])[..|es|] == es;
  }
}
