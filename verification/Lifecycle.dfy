/**
 The lifecycle of rnb_utils.c: four flags, driven by the bus state events the dispatcher processes
 and by four work items on a single-threaded work queue.
 */
module Lifecycle {
  import opened Runs

  datatype BusState = Stopped | Unsynchronized | Synchronized | Connected | Unknown

  datatype WorkItem = InitWork | DeinitWork | StartWork | StopWork

  /** A call into OpenThread, with its result. */
  datatype StackCall =
    | EnableIp6(ok: bool)
    | DisableIp6(ok: bool)
    | StartThread(ok: bool)
    | StopThread(ok: bool, byDeinit: bool)

  /** A call into the radio driver, or the submission of the init work by the dispatcher. */
  datatype ConfigCall = UserConfig(ok: bool) | RuntimeConfig(ok: bool) | SubmitInit

  /** `stack`, `config` and `mark` record the run: `mark` is |stack| at the last CONNECTED event. */
  datatype State = State(
    configured: bool,
    started: bool,
    connected: bool,
    otStarted: bool,
    queue: seq<WorkItem>,
    stack: seq<StackCall>,
    config: seq<ConfigCall>,
    mark: nat)

  /** The state init_rnb leaves behind. */
  const BOOT := State(false, false, false, false, [], [], [], 0)

  /** Results the environment chooses: a failing call changes nothing in the stack. */
  datatype Action =
    | Event(bus: BusState, userOk: bool, runtimeOk: bool)
    | StartRequest
    | StopRequest
    | Work(ok: bool, ok2: bool)

  /** k_work_submit: a pending item is not queued again. */
  function Submit(queue: seq<WorkItem>, item: WorkItem): (r: seq<WorkItem>)
    ensures item in r
    ensures Distinct(queue) ==> Distinct(r)
  {
    if item in queue then queue else queue + [item]
  }

  predicate Distinct(queue: seq<WorkItem>) {
    forall i, j :: 0 <= i < j < |queue| ==> queue[i] != queue[j]
  }

  function Handle(s: State, item: WorkItem, ok: bool, ok2: bool): State {
    match item
    case InitWork =>
      if s.started then s
      else s.(started := ok, stack := s.stack + [EnableIp6(ok)])
    case DeinitWork =>
      if !s.started then s
      else s.(otStarted := s.otStarted && !ok,
              started := !ok2,
              stack := s.stack + [StopThread(ok, true), DisableIp6(ok2)])
    case StartWork =>
      if s.connected && !s.otStarted
      then s.(otStarted := ok, stack := s.stack + [StartThread(ok)])
      else s
    case StopWork =>
      if s.otStarted
      then s.(otStarted := false, stack := s.stack + [StopThread(ok, false)])
      else s
  }

  /** The work queue thread takes the oldest item, which is then no longer pending, and runs it. */
  function WorkStep(s: State, ok: bool, ok2: bool): State {
    if s.queue == [] then s
    else Handle(s.(queue := s.queue[1..]), s.queue[0], ok, ok2)
  }

  function NewState(s: State, bus: BusState, userOk: bool, runtimeOk: bool): State {
    match bus
    case Stopped =>
      if s.configured then s
      else if !userOk then s.(config := s.config + [UserConfig(false)])
      else if !runtimeOk then s.(config := s.config + [UserConfig(true), RuntimeConfig(false)])
      else s.(configured := true,
              config := s.config + [UserConfig(true), RuntimeConfig(true), SubmitInit],
              queue := Submit(s.queue, InitWork))
    case Connected =>
      s.(connected := true, queue := Submit(s.queue, StartWork), mark := |s.stack|)
    case Unsynchronized =>
      s.(queue := Submit(s.queue, StopWork), connected := false)
    case _ => s
  }

  /** One step, with the processing of an event atomic against the work queue. */
  function Step(s: State, a: Action): State {
    match a
    case Event(bus, userOk, runtimeOk) => NewState(s, bus, userOk, runtimeOk)
    case StartRequest => s.(queue := Submit(s.queue, InitWork))
    case StopRequest => s.(queue := Submit(s.queue, DeinitWork))
    case Work(ok, ok2) => WorkStep(s, ok, ok2)
  }

  // ---------- Flags and queue, read off the run ----------

  /** The last state event that says so was CONNECTED, not UNSYNCHRONIZED. */
  function LastSeenConnected(acts: seq<Action>): bool {
    if acts == [] then false
    else
      var a := acts[|acts| - 1];
      if a.Event? && a.bus.Connected? then true
      else if a.Event? && a.bus.Unsynchronized? then false
      else LastSeenConnected(acts[..|acts| - 1])
  }

  predicate Configures(a: Action) {
    a == Event(Stopped, true, true)
  }

  /** What asks for an item: requests, the first event that configures, gaining and losing sync. */
  predicate AsksFor(before: seq<Action>, a: Action, item: WorkItem) {
    match item
    case InitWork => a.StartRequest? || (Configures(a) && forall k :: 0 <= k < |before| ==> !Configures(before[k]))
    case DeinitWork => a.StopRequest?
    case StartWork => a.Event? && a.bus.Connected?
    case StopWork => a.Event? && a.bus.Unsynchronized?
  }

  /** The item was asked for, and the work queue has not taken it since. */
  ghost predicate Outstanding(acts: seq<Action>, item: WorkItem) {
    if acts == [] then false
    else
      var before, a := acts[..|acts| - 1], acts[|acts| - 1];
      var queue := Exec(Step, BOOT, before).queue;
      AsksFor(before, a, item) || (Outstanding(before, item) && !(a.Work? && queue != [] && queue[0] == item))
  }

  lemma {:induction false} ConfiguredReadOff(acts: seq<Action>)
    ensures Exec(Step, BOOT, acts).configured <==> exists k :: 0 <= k < |acts| && Configures(acts[k])
    decreases |acts|
  {
    if acts != [] {
      var before, a := acts[..|acts| - 1], acts[|acts| - 1];
      ConfiguredReadOff(before);
      ConfiguredStep(Exec(Step, BOOT, before), a);
      assert forall k :: 0 <= k < |before| ==> before[k] == acts[k];
    }
  }

  lemma ConfiguredStep(s: State, a: Action)
    ensures Step(s, a).configured <==> s.configured || Configures(a)
  {
  }

  /** In every run the connected flag is what the last such event said. */
  lemma {:induction false} ConnectedReadOff(acts: seq<Action>)
    ensures Exec(Step, BOOT, acts).connected == LastSeenConnected(acts)
    decreases |acts|
  {
    if acts != [] {
      ConnectedReadOff(acts[..|acts| - 1]);
      ConnectedStep(Exec(Step, BOOT, acts[..|acts| - 1]), acts[|acts| - 1]);
    }
  }

  lemma ConnectedStep(s: State, a: Action)
    ensures Step(s, a).connected ==
            (if a.Event? && a.bus.Connected? then true
             else if a.Event? && a.bus.Unsynchronized? then false
             else s.connected)
  {
  }

  lemma QueueStep(s: State, a: Action, item: WorkItem, asked: bool)
    requires Distinct(s.queue)
    requires asked <==>
      match item
      case InitWork => a.StartRequest? || (Configures(a) && !s.configured)
      case DeinitWork => a.StopRequest?
      case StartWork => a.Event? && a.bus.Connected?
      case StopWork => a.Event? && a.bus.Unsynchronized?
    ensures item in Step(s, a).queue <==>
            asked || (item in s.queue && !(a.Work? && s.queue != [] && s.queue[0] == item))
  {
    if a.Work? && s.queue != [] { WorkTakesItem(s, a.ok, a.ok2, item); }
  }

  lemma WorkTakesItem(s: State, ok: bool, ok2: bool, item: WorkItem)
    requires Distinct(s.queue) && s.queue != []
    ensures item in WorkStep(s, ok, ok2).queue <==> item in s.queue && s.queue[0] != item
  {
    WorkTakesOldest(s, ok, ok2);
    assert s.queue == [s.queue[0]] + s.queue[1..];
  }

  /** In every run exactly the outstanding items are pending. */
  lemma {:induction false} QueueReadOff(acts: seq<Action>, item: WorkItem)
    ensures item in Exec(Step, BOOT, acts).queue <==> Outstanding(acts, item)
    decreases |acts|
  {
    if acts != [] {
      var before, a := acts[..|acts| - 1], acts[|acts| - 1];
      QueueReadOff(before, item);
      QueueDistinct(before);
      ConfiguredReadOff(before);
      QueueStep(Exec(Step, BOOT, before), a, item, AsksFor(before, a, item));
    }
  }

  // ---------- The init work of a configured node ----------

  predicate HasEnable(stack: seq<StackCall>) {
    exists k :: 0 <= k < |stack| && stack[k].EnableIp6?
  }

  /** A configured node is about to enable IPv6, or has tried. */
  predicate InitPromised(s: State) {
    && (s.started ==> HasEnable(s.stack))
    && (s.configured ==> InitWork in s.queue || HasEnable(s.stack))
  }

  lemma HasEnableGrows(stack: seq<StackCall>, more: seq<StackCall>)
    ensures HasEnable(stack) ==> HasEnable(stack + more)
    ensures more != [] && more[0].EnableIp6? ==> HasEnable(stack + more)
  {
    assert forall k :: 0 <= k < |stack| ==> (stack + more)[k] == stack[k];
    if more != [] { assert (stack + more)[|stack|] == more[0]; }
  }

  lemma WorkKeepsPromise(s: State, ok: bool, ok2: bool)
    requires InitPromised(s)
    ensures InitPromised(WorkStep(s, ok, ok2))
  {
    if s.queue != [] {
      assert s.queue == [s.queue[0]] + s.queue[1..];
      HasEnableGrows(s.stack, [EnableIp6(ok)]);
      HasEnableGrows(s.stack, [StartThread(ok)]);
      HasEnableGrows(s.stack, [StopThread(ok, false)]);
      HasEnableGrows(s.stack, [StopThread(ok, true), DisableIp6(ok2)]);
    }
  }

  lemma StepKeepsPromise(s: State, a: Action)
    requires InitPromised(s)
    ensures InitPromised(Step(s, a))
  {
    if a.Work? { WorkKeepsPromise(s, a.ok, a.ok2); }
  }

  /** For all runs: once configured, the init work is pending or an attempt to enable IPv6 has been made. */
  lemma {:induction false} ConfiguredMeansInit(acts: seq<Action>)
    ensures
      var s := Exec(Step, BOOT, acts);
      s.configured ==> InitWork in s.queue || exists k :: 0 <= k < |s.stack| && s.stack[k].EnableIp6?
    decreases |acts|
  {
    PromiseReachable(acts);
  }

  lemma {:induction false} PromiseReachable(acts: seq<Action>)
    ensures InitPromised(Exec(Step, BOOT, acts))
    decreases |acts|
  {
    if acts != [] {
      PromiseReachable(acts[..|acts| - 1]);
      StepKeepsPromise(Exec(Step, BOOT, acts[..|acts| - 1]), acts[|acts| - 1]);
    }
  }

  // ---------- Losing sync stops OpenThread ----------

  /** While the bus is not connected, a running OpenThread is about to be stopped. */
  predicate StopPending(s: State) {
    !s.connected && s.otStarted ==> StopWork in s.queue
  }

  lemma WorkKeepsStopPending(s: State, ok: bool, ok2: bool)
    requires StopPending(s)
    ensures StopPending(WorkStep(s, ok, ok2))
  {
    if s.queue != [] {
      assert s.queue == [s.queue[0]] + s.queue[1..];
    }
  }

  lemma StepKeepsStopPending(s: State, a: Action)
    requires StopPending(s)
    ensures StopPending(Step(s, a))
  {
    if a.Work? { WorkKeepsStopPending(s, a.ok, a.ok2); }
  }

  lemma StepKeepsDistinct(s: State, a: Action)
    requires Distinct(s.queue)
    ensures Distinct(Step(s, a).queue)
  {
    if a.Work? { WorkKeepsDistinct(s, a.ok, a.ok2); }
  }

  lemma WorkKeepsDistinct(s: State, ok: bool, ok2: bool)
    requires Distinct(s.queue)
    ensures Distinct(WorkStep(s, ok, ok2).queue)
  {
  }

  lemma {:induction false} StopPendingFrom(s: State, acts: seq<Action>)
    requires StopPending(s)
    ensures StopPending(Exec(Step, s, acts))
    decreases |acts|
  {
    if acts != [] {
      var before := acts[..|acts| - 1];
      StopPendingFrom(s, before);
      StepKeepsStopPending(Exec(Step, s, before), acts[|acts| - 1]);
    }
  }

  /** No work item is ever pending twice. */
  lemma {:induction false} QueueDistinct(acts: seq<Action>)
    ensures Distinct(Exec(Step, BOOT, acts).queue)
    decreases |acts|
  {
    if acts != [] {
      var before := acts[..|acts| - 1];
      QueueDistinct(before);
      StepKeepsDistinct(Exec(Step, BOOT, before), acts[|acts| - 1]);
    }
  }

  /** In every reachable state: not connected and OpenThread started means a stop item is pending. */
  lemma {:induction false} LostSyncMeansStopPending(acts: seq<Action>)
    ensures var s := Exec(Step, BOOT, acts); !s.connected && s.otStarted ==> StopWork in s.queue
  {
    StopPendingFrom(BOOT, acts);
  }

  /** Further calls, none of them into openthread_start. */
  ghost predicate NoNewStart(before: seq<StackCall>, after: seq<StackCall>) {
    && |before| <= |after| && after[..|before|] == before
    && forall k :: |before| <= k < |after| ==> !after[k].StartThread?
  }

  /**
   Once sync is lost and the queue has drained, ot_started is false and stays false, and openthread_start
   is not called, whatever is submitted and whatever the stack answers, until the next CONNECTED event.
   */
  lemma {:induction false} NoLateRestart(acts: seq<Action>, later: seq<Action>)
    requires !Exec(Step, BOOT, acts).connected && Exec(Step, BOOT, acts).queue == []
    requires forall k :: 0 <= k < |later| ==> !(later[k].Event? && later[k].bus.Connected?)
    ensures !Exec(Step, BOOT, acts + later).otStarted
    ensures NoNewStart(Exec(Step, BOOT, acts).stack, Exec(Step, BOOT, acts + later).stack)
  {
    var s := Exec(Step, BOOT, acts);
    StopPendingFrom(BOOT, acts);
    ExecConcat(Step, BOOT, acts, later);
    StaysStopped(s, later);
  }

  lemma StoppedStep(s: State, a: Action)
    requires !s.connected && !s.otStarted && !(a.Event? && a.bus.Connected?)
    ensures !Step(s, a).connected && !Step(s, a).otStarted && NoNewStart(s.stack, Step(s, a).stack)
  {
  }

  lemma {:induction false} StaysStopped(s: State, later: seq<Action>)
    requires !s.connected && !s.otStarted
    requires forall k :: 0 <= k < |later| ==> !(later[k].Event? && later[k].bus.Connected?)
    ensures
      var t := Exec(Step, s, later);
      !t.connected && !t.otStarted && NoNewStart(s.stack, t.stack)
    decreases |later|
  {
    if later != [] {
      var before := later[..|later| - 1];
      StaysStopped(s, before);
      StoppedStep(Exec(Step, s, before), later[|later| - 1]);
    }
  }

  // ---------- The same, when the work queue may run inside the UNSYNCHRONIZED branch ----------

  /** The work queue runs for |results| steps. */
  ghost function RunWork(s: State, results: seq<(bool, bool)>): State {
    if results == [] then s
    else
      var n := |results| - 1;
      WorkStep(RunWork(s, results[..n]), results[n].0, results[n].1)
  }

  /** The UNSYNCHRONIZED branch statement by statement: submit the stop, let the queue run, clear the flag. */
  ghost function UnsyncSplit(s: State, gap: seq<(bool, bool)>): State {
    RunWork(s.(queue := Submit(s.queue, StopWork)), gap).(connected := false)
  }

  /**
   Every branch statement by statement, with the work queue running at its one gap: between setting a
   flag and submitting the item that goes with it, or the other way round when sync is lost.
   */
  ghost function SplitState(s: State, bus: BusState, userOk: bool, runtimeOk: bool, gap: seq<(bool, bool)>): State {
    match bus
    case Stopped =>
      if s.configured || !userOk || !runtimeOk then NewState(s, bus, userOk, runtimeOk)
      else
        var t := RunWork(s.(configured := true, config := s.config + [UserConfig(true), RuntimeConfig(true)]), gap);
        t.(queue := Submit(t.queue, InitWork), config := t.config + [SubmitInit])
    case Connected =>
      var t := RunWork(s.(connected := true, mark := |s.stack|), gap);
      t.(queue := Submit(t.queue, StartWork))
    case Unsynchronized => UnsyncSplit(s, gap)
    case _ => s
  }

  /** Without work in the gap that is the atomic event. */
  lemma NoWorkInGap(s: State, bus: BusState, userOk: bool, runtimeOk: bool)
    ensures SplitState(s, bus, userOk, runtimeOk, []) == NewState(s, bus, userOk, runtimeOk)
  {
    assert s.config + [UserConfig(true), RuntimeConfig(true)] + [SubmitInit]
        == s.config + [UserConfig(true), RuntimeConfig(true), SubmitInit];
  }

  predicate StartBehindStop(queue: seq<WorkItem>) {
    exists i, j :: 0 <= i < j < |queue| && queue[i] == StopWork && queue[j] == StartWork
  }

  ghost predicate GapSafe(t: State) {
    (StopWork in t.queue && !StartBehindStop(t.queue)) || (!t.otStarted && StartWork !in t.queue)
  }

  lemma WorkKeepsGapSafe(t: State, ok: bool, ok2: bool)
    requires GapSafe(t)
    ensures GapSafe(WorkStep(t, ok, ok2))
  {
    if t.queue != [] {
      var u := WorkStep(t, ok, ok2);
      assert t.queue == [t.queue[0]] + u.queue;
      if StopWork in t.queue && !StartBehindStop(t.queue) && t.queue[0] == StopWork {
        assert forall j :: 0 <= j < |u.queue| ==> u.queue[j] == t.queue[j + 1];
        assert StartWork !in u.queue;
      }
    }
  }

  lemma {:induction false} GapKeepsSafe(t: State, gap: seq<(bool, bool)>)
    requires GapSafe(t)
    ensures GapSafe(RunWork(t, gap))
    decreases |gap|
  {
    if gap != [] {
      var n := |gap| - 1;
      GapKeepsSafe(t, gap[..n]);
      WorkKeepsGapSafe(RunWork(t, gap[..n]), gap[n].0, gap[n].1);
    }
  }

  lemma {:induction false} RunKeepsConnected(t: State, gap: seq<(bool, bool)>)
    ensures RunWork(t, gap).connected == t.connected
    decreases |gap|
  {
    if gap != [] { RunKeepsConnected(t, gap[..|gap| - 1]); }
  }

  lemma {:induction false} RunKeepsStopPending(t: State, gap: seq<(bool, bool)>)
    requires StopPending(t)
    ensures StopPending(RunWork(t, gap))
    decreases |gap|
  {
    if gap != [] {
      var n := |gap| - 1;
      RunKeepsStopPending(t, gap[..n]);
      WorkKeepsStopPending(RunWork(t, gap[..n]), gap[n].0, gap[n].1);
    }
  }

  /** The work queue works through the queue in order, each item exactly once. */
  lemma {:induction false} QueueConsumed(t: State, results: seq<(bool, bool)>)
    requires |results| <= |t.queue|
    ensures RunWork(t, results).queue == t.queue[|results|..] && RunWork(t, results).connected == t.connected
    decreases |results|
  {
    if results != [] {
      var n := |results| - 1;
      QueueConsumed(t, results[..n]);
      WorkTakesOldest(RunWork(t, results[..n]), results[n].0, results[n].1);
    }
  }

  lemma WorkTakesOldest(s: State, ok: bool, ok2: bool)
    requires s.queue != []
    ensures WorkStep(s, ok, ok2).queue == s.queue[1..] && WorkStep(s, ok, ok2).connected == s.connected
  {
  }

  lemma RunsItem(t: State, results: seq<(bool, bool)>, n: nat)
    requires n < |t.queue| && n < |results|
    ensures
      var u := RunWork(t, results[..n]);
      u.queue == t.queue[n..] && u.connected == t.connected
      && RunWork(t, results[..n + 1])
         == Handle(u.(queue := t.queue[n + 1..]), t.queue[n], results[n].0, results[n].1)
  {
    assert results[..n + 1][..n] == results[..n];
    QueueConsumed(t, results[..n]);
  }

  function AllOk(n: nat): seq<(bool, bool)> {
    seq(n, _ => (true, true))
  }

  /**
   With the queue allowed to run between submitting the stop and clearing rnb_connected, losing sync
   leaves a stop pending (or OpenThread stopped) for every gap and every result if and only if the
   event does not find the node connected with a start item queued behind a stop item.
   */
  lemma GapIsSafeIff(s: State)
    requires Distinct(s.queue)
    ensures (forall gap :: StopPending(UnsyncSplit(s, gap))) <==> !(s.connected && StartBehindStop(s.queue))
  {
    var t := s.(queue := Submit(s.queue, StopWork));
    if s.connected && StartBehindStop(s.queue) {
      var i, j :| 0 <= i < j < |s.queue| && s.queue[i] == StopWork && s.queue[j] == StartWork;
      var gap := AllOk(j + 1);
      RunsItem(t, gap, j);
      assert gap[..j + 1] == gap;
      assert t.queue == s.queue && StopWork !in t.queue[j + 1..];
      assert !StopPending(UnsyncSplit(s, gap));
    } else if s.connected {
      assert GapSafe(t);
      forall gap ensures StopPending(UnsyncSplit(s, gap)) { GapKeepsSafe(t, gap); }
    } else {
      forall gap ensures StopPending(UnsyncSplit(s, gap)) {
        RunKeepsConnected(t, gap);
        RunKeepsStopPending(t, gap);
      }
    }
  }

  /** That one situation apart, work in the gap of any event leaves the invariant of LostSyncMeansStopPending alone. */
  lemma SplitKeepsStopPending(
    s: State, bus: BusState, userOk: bool, runtimeOk: bool, gap: seq<(bool, bool)>)
    requires StopPending(s) && Distinct(s.queue)
    requires bus.Unsynchronized? ==> !(s.connected && StartBehindStop(s.queue))
    ensures StopPending(SplitState(s, bus, userOk, runtimeOk, gap))
  {
    match bus {
      case Unsynchronized => GapIsSafeIff(s);
      case Connected => RunKeepsConnected(s.(connected := true, mark := |s.stack|), gap);
      case Stopped =>
        var t := s.(configured := true, config := s.config + [UserConfig(true), RuntimeConfig(true)]);
        RunKeepsStopPending(t, gap);
      case Synchronized =>
      case Unknown =>
    }
  }

  lemma {:induction false} RunKeepsDistinct(t: State, gap: seq<(bool, bool)>)
    requires Distinct(t.queue)
    ensures Distinct(RunWork(t, gap).queue)
    decreases |gap|
  {
    if gap != [] {
      var n := |gap| - 1;
      RunKeepsDistinct(t, gap[..n]);
      WorkKeepsDistinct(RunWork(t, gap[..n]), gap[n].0, gap[n].1);
    }
  }

  lemma SplitKeepsDistinct(
    s: State, bus: BusState, userOk: bool, runtimeOk: bool, gap: seq<(bool, bool)>)
    requires Distinct(s.queue)
    ensures Distinct(SplitState(s, bus, userOk, runtimeOk, gap).queue)
  {
    match bus {
      case Unsynchronized => RunKeepsDistinct(s.(queue := Submit(s.queue, StopWork)), gap);
      case Connected => RunKeepsDistinct(s.(connected := true, mark := |s.stack|), gap);
      case Stopped =>
        var t := s.(configured := true, config := s.config + [UserConfig(true), RuntimeConfig(true)]);
        RunKeepsDistinct(t, gap);
      case Synchronized =>
      case Unknown =>
    }
  }

  /** An event with the work that runs in its gap, or any other step. */
  datatype SplitAction = Split(bus: BusState, userOk: bool, runtimeOk: bool, gap: seq<(bool, bool)>) | Whole(a: Action)

  ghost function SplitStep(s: State, a: SplitAction): State {
    match a
    case Split(bus, userOk, runtimeOk, gap) => SplitState(s, bus, userOk, runtimeOk, gap)
    case Whole(b) => Step(s, b)
  }

  /** The event that loses sync finds the node connected with a start item queued behind a stop item. */
  ghost predicate Unlucky(s: State, a: SplitAction) {
    a.Split? && a.bus.Unsynchronized? && s.connected && StartBehindStop(s.queue)
  }

  /**
   For all runs whose events let the work queue run in their gaps: if none is unlucky, then in every
   reachable state not connected and ot_started means a stop item is pending.
   */
  lemma {:induction false} GapsAreHarmless(acts: seq<SplitAction>)
    requires forall k :: 0 <= k < |acts| ==> !Unlucky(Exec(SplitStep, BOOT, acts[..k]), acts[k])
    ensures
      var s := Exec(SplitStep, BOOT, acts);
      Distinct(s.queue) && (!s.connected && s.otStarted ==> StopWork in s.queue)
    decreases |acts|
  {
    if acts != [] {
      var n := |acts| - 1;
      var before, s := acts[..n], Exec(SplitStep, BOOT, acts[..n]);
      forall k | 0 <= k < n ensures !Unlucky(Exec(SplitStep, BOOT, before[..k]), before[k]) {
        assert before[..k] == acts[..k] && before[k] == acts[k];
      }
      GapsAreHarmless(before);
      assert !Unlucky(s, acts[n]);
      SplitStepKeeps(s, acts[n]);
    }
  }

  lemma {:induction false} RunKeepsPromise(t: State, gap: seq<(bool, bool)>)
    requires InitPromised(t)
    ensures InitPromised(RunWork(t, gap))
    decreases |gap|
  {
    if gap != [] {
      var n := |gap| - 1;
      RunKeepsPromise(t, gap[..n]);
      WorkKeepsPromise(RunWork(t, gap[..n]), gap[n].0, gap[n].1);
    }
  }

  lemma RunKeepsStarted(t: State, gap: seq<(bool, bool)>)
    requires t.started ==> HasEnable(t.stack)
    ensures RunWork(t, gap).started ==> HasEnable(RunWork(t, gap).stack)
    ensures HasEnable(t.stack) ==> HasEnable(RunWork(t, gap).stack)
    decreases |gap|
  {
    if gap != [] {
      var n := |gap| - 1;
      RunKeepsStarted(t, gap[..n]);
      WorkKeepsStarted(RunWork(t, gap[..n]), gap[n].0, gap[n].1);
    }
  }

  lemma WorkKeepsStarted(s: State, ok: bool, ok2: bool)
    requires s.started ==> HasEnable(s.stack)
    ensures WorkStep(s, ok, ok2).started ==> HasEnable(WorkStep(s, ok, ok2).stack)
    ensures HasEnable(s.stack) ==> HasEnable(WorkStep(s, ok, ok2).stack)
  {
    HasEnableGrows(s.stack, [EnableIp6(ok)]);
    HasEnableGrows(s.stack, [StartThread(ok)]);
    HasEnableGrows(s.stack, [StopThread(ok, false)]);
    HasEnableGrows(s.stack, [StopThread(ok, true), DisableIp6(ok2)]);
  }

  lemma SplitKeepsPromise(s: State, bus: BusState, userOk: bool, runtimeOk: bool, gap: seq<(bool, bool)>)
    requires InitPromised(s)
    ensures InitPromised(SplitState(s, bus, userOk, runtimeOk, gap))
  {
    match bus {
      case Unsynchronized => RunKeepsPromise(s.(queue := Submit(s.queue, StopWork)), gap);
      case Connected => RunKeepsPromise(s.(connected := true, mark := |s.stack|), gap);
      case Stopped =>
        RunKeepsStarted(s.(configured := true, config := s.config + [UserConfig(true), RuntimeConfig(true)]), gap);
      case Synchronized =>
      case Unknown =>
    }
  }

  /** The same for all runs in which the work queue may run inside the events. */
  lemma {:induction false} ConfiguredMeansInitSplit(acts: seq<SplitAction>)
    ensures InitPromised(Exec(SplitStep, BOOT, acts))
    decreases |acts|
  {
    if acts != [] {
      var before, a := acts[..|acts| - 1], acts[|acts| - 1];
      ConfiguredMeansInitSplit(before);
      match a {
        case Split(bus, userOk, runtimeOk, gap) =>
          SplitKeepsPromise(Exec(SplitStep, BOOT, before), bus, userOk, runtimeOk, gap);
        case Whole(b) => StepKeepsPromise(Exec(SplitStep, BOOT, before), b);
      }
    }
  }

  lemma SplitStepKeeps(s: State, a: SplitAction)
    requires StopPending(s) && Distinct(s.queue) && !Unlucky(s, a)
    ensures StopPending(SplitStep(s, a)) && Distinct(SplitStep(s, a).queue)
  {
    match a {
      case Split(bus, userOk, runtimeOk, gap) =>
        SplitKeepsStopPending(s, bus, userOk, runtimeOk, gap);
        SplitKeepsDistinct(s, bus, userOk, runtimeOk, gap);
      case Whole(b) =>
        StepKeepsStopPending(s, b);
        StepKeepsDistinct(s, b);
    }
  }

  /** The unsafe situation is reachable: two bus events while the work queue is held up. */
  lemma GapCanGoWrong()
    ensures
      var s := Exec(Step, BOOT, [Event(Unsynchronized, true, true)] + [Event(Connected, true, true)]);
      s.connected && StartBehindStop(s.queue)
  {
    var unsync, conn := Event(Unsynchronized, true, true), Event(Connected, true, true);
    FirstStep(unsync);
    ExecSnoc(Step, BOOT, [unsync], conn);
    var q := Exec(Step, BOOT, [unsync] + [conn]).queue;
    assert q[0] == StopWork && q[1] == StartWork;
  }

  lemma FirstStep(a: Action)
    ensures Exec(Step, BOOT, [a]) == Step(BOOT, a)
  {
    assert [] + [a] == [a];
    ExecSnoc(Step, BOOT, [], a);
  }

  // ---------- A backlog of work: what is left running when the queue has drained ----------

  // `results` holds, for each pending item, what its calls will return.

  /** IPv6 is enabled before the item at index k runs, if no deinit item has run by then. */
  ghost predicate StartedBy(s: State, results: seq<(bool, bool)>, k: nat)
    requires k <= |s.queue| == |results|
  {
    s.started || exists i :: 0 <= i < k && s.queue[i] == InitWork && results[i].0
  }

  /** The item at index k leaves ot_started false: a stop always, a deinit that stops Thread. */
  ghost predicate StopsAt(s: State, results: seq<(bool, bool)>, k: nat)
    requires k < |s.queue| == |results|
  {
    s.queue[k] == StopWork || (s.queue[k] == DeinitWork && results[k].0 && StartedBy(s, results, k))
  }

  predicate StartsAt(s: State, results: seq<(bool, bool)>, k: nat)
    requires k < |s.queue| == |results|
  {
    s.connected && s.queue[k] == StartWork && results[k].0
  }

  /** Nothing from index `from` up to n clears ot_started. */
  ghost predicate NoStopFrom(s: State, results: seq<(bool, bool)>, from: nat, n: nat)
    requires n <= |s.queue| == |results|
  {
    forall k :: from <= k < n ==> !StopsAt(s, results, k)
  }

  /** A start among the first n succeeds with nothing stopping it behind, or nothing stops a running OpenThread. */
  ghost predicate LeftRunning(s: State, results: seq<(bool, bool)>, n: nat)
    requires n <= |s.queue| == |results|
  {
    || (exists j :: 0 <= j < n && StartsAt(s, results, j) && NoStopFrom(s, results, j + 1, n))
    || (s.otStarted && NoStopFrom(s, results, 0, n))
  }

  /** Until the deinit item runs, IPv6 is enabled if it was or if the init item has succeeded. */
  lemma {:induction false} StartedSoFar(s: State, results: seq<(bool, bool)>, n: nat)
    requires n <= |s.queue| == |results| && DeinitWork !in s.queue[..n]
    ensures RunWork(s, results[..n]).started <==> StartedBy(s, results, n)
  {
    if n > 0 {
      assert s.queue[..n] == s.queue[..n - 1] + [s.queue[n - 1]];
      StartedSoFar(s, results, n - 1);
      RunsItem(s, results, n - 1);
      StartedByStep(s, results, n - 1);
    }
  }

  lemma StartedByStep(s: State, results: seq<(bool, bool)>, n: nat)
    requires n < |s.queue| == |results|
    ensures StartedBy(s, results, n + 1) <==>
            StartedBy(s, results, n) || (s.queue[n] == InitWork && results[n].0)
  {
  }

  lemma RunsOneMore(s: State, results: seq<(bool, bool)>, n: nat)
    requires Distinct(s.queue) && n < |s.queue| == |results|
    ensures RunWork(s, results[..n + 1]).otStarted <==>
            StartsAt(s, results, n) || (RunWork(s, results[..n]).otStarted && !StopsAt(s, results, n))
  {
    RunsItem(s, results, n);
    if s.queue[n] == DeinitWork { StartedSoFar(s, results, n); }
  }

  lemma {:induction false} LeftRunningAfter(s: State, results: seq<(bool, bool)>, n: nat)
    requires Distinct(s.queue) && n <= |s.queue| == |results|
    ensures RunWork(s, results[..n]).otStarted <==> LeftRunning(s, results, n)
  {
    if n > 0 {
      LeftRunningAfter(s, results, n - 1);
      RunsOneMore(s, results, n - 1);
      LeftRunningStep(s, results, n - 1);
    }
  }

  lemma LeftRunningStep(s: State, results: seq<(bool, bool)>, n: nat)
    requires n < |s.queue| == |results|
    ensures LeftRunning(s, results, n + 1) <==>
            StartsAt(s, results, n) || (LeftRunning(s, results, n) && !StopsAt(s, results, n))
  {
    if StartsAt(s, results, n) {
      assert NoStopFrom(s, results, n + 1, n + 1);
    } else if LeftRunning(s, results, n) && !StopsAt(s, results, n) {
      if j :| 0 <= j < n && StartsAt(s, results, j) && NoStopFrom(s, results, j + 1, n) {
        assert NoStopFrom(s, results, j + 1, n + 1);
      } else {
        assert NoStopFrom(s, results, 0, n + 1);
      }
    }
  }

  /**
   Whatever the calls return: once everything pending has run, ot_started holds if and only if the queue
   leaves it so: a start of a connected node that succeeds, or the flag before, with nothing stopping it later.
   */
  lemma ThreadAfterDrain(s: State, results: seq<(bool, bool)>)
    requires Distinct(s.queue) && |results| == |s.queue|
    ensures
      var t := RunWork(s, results);
      t.queue == [] && (t.otStarted <==> LeftRunning(s, results, |s.queue|))
  {
    QueueConsumed(s, results);
    LeftRunningAfter(s, results, |s.queue|);
    assert results[..|s.queue|] == results;
  }

  // The same for rnb_started: init items set it, deinit items whose second call succeeds clear it.

  ghost predicate NoClearFrom(s: State, results: seq<(bool, bool)>, from: nat, n: nat)
    requires n <= |s.queue| == |results|
  {
    forall k :: from <= k < n ==> !(s.queue[k] == DeinitWork && results[k].1)
  }

  ghost predicate LeftStarted(s: State, results: seq<(bool, bool)>, n: nat)
    requires n <= |s.queue| == |results|
  {
    || (exists j :: 0 <= j < n && s.queue[j] == InitWork && results[j].0 && NoClearFrom(s, results, j + 1, n))
    || (s.started && NoClearFrom(s, results, 0, n))
  }

  lemma LeftStartedStep(s: State, results: seq<(bool, bool)>, n: nat)
    requires n < |s.queue| == |results|
    ensures LeftStarted(s, results, n + 1) <==>
            || (s.queue[n] == InitWork && results[n].0)
            || (LeftStarted(s, results, n) && !(s.queue[n] == DeinitWork && results[n].1))
  {
    if s.queue[n] == InitWork && results[n].0 {
      assert NoClearFrom(s, results, n + 1, n + 1);
    } else if LeftStarted(s, results, n) && !(s.queue[n] == DeinitWork && results[n].1) {
      if j :| 0 <= j < n && s.queue[j] == InitWork && results[j].0 && NoClearFrom(s, results, j + 1, n) {
        assert NoClearFrom(s, results, j + 1, n + 1);
      } else {
        assert NoClearFrom(s, results, 0, n + 1);
      }
    }
  }

  lemma {:induction false} LeftStartedAfter(s: State, results: seq<(bool, bool)>, n: nat)
    requires n <= |s.queue| == |results|
    ensures RunWork(s, results[..n]).started <==> LeftStarted(s, results, n)
  {
    if n > 0 {
      LeftStartedAfter(s, results, n - 1);
      RunsItem(s, results, n - 1);
      LeftStartedStep(s, results, n - 1);
    }
  }

  /**
   Once everything pending has run, IPv6 counts as enabled if and only if an init that succeeds, or the
   flag before, has no deinit behind it that disables IPv6.
   */
  lemma StartedAfterDrain(s: State, results: seq<(bool, bool)>)
    requires |results| == |s.queue|
    ensures RunWork(s, results).started <==> LeftStarted(s, results, |s.queue|)
  {
    LeftStartedAfter(s, results, |s.queue|);
    assert results[..|s.queue|] == results;
  }

  predicate Behind(queue: seq<WorkItem>, first: WorkItem, second: WorkItem) {
    exists i, j :: 0 <= i < j < |queue| && queue[i] == first && queue[j] == second
  }

  lemma AllOkAt(n: nat)
    ensures |AllOk(n)| == n && forall k :: 0 <= k < n ==> AllOk(n)[k] == (true, true)
  {
  }

  /** After a start request, calls succeeding, the node ends started unless a deinit waits behind the init. */
  lemma StartRequestTakesEffect(s: State)
    requires Distinct(s.queue)
    ensures
      var t := Step(s, StartRequest);
      RunWork(t, AllOk(|t.queue|)).started <==> !Behind(t.queue, InitWork, DeinitWork)
  {
    var t := Step(s, StartRequest);
    var n := |t.queue|;
    AllOkAt(n);
    StartedAfterDrain(t, AllOk(n));
    var j :| 0 <= j < n && t.queue[j] == InitWork;
    assert NoClearFrom(t, AllOk(n), j + 1, n) <==> !Behind(t.queue, InitWork, DeinitWork);
    assert NoClearFrom(t, AllOk(n), 0, n) ==> NoClearFrom(t, AllOk(n), j + 1, n);
  }

  /** After a stop request, calls succeeding, the node ends stopped unless an init waits behind the deinit. */
  lemma StopRequestTakesEffect(s: State)
    requires Distinct(s.queue)
    ensures
      var t := Step(s, StopRequest);
      RunWork(t, AllOk(|t.queue|)).started <==> Behind(t.queue, DeinitWork, InitWork)
  {
    var t := Step(s, StopRequest);
    var n := |t.queue|;
    AllOkAt(n);
    StartedAfterDrain(t, AllOk(n));
    var d :| 0 <= d < n && t.queue[d] == DeinitWork;
    assert !NoClearFrom(t, AllOk(n), 0, n);
    if i, j :| 0 <= i < j < n && t.queue[i] == DeinitWork && t.queue[j] == InitWork {
      assert NoClearFrom(t, AllOk(n), j + 1, n);
    }
  }

  /** With start and stop pending, a further CONNECTED coalesces, and the drained queue leaves OpenThread stopped. */
  lemma CoalescedStartIsLost(s: State, results: seq<(bool, bool)>)
    requires s.queue == [StartWork, StopWork] && |results| == 2
    ensures
      var t := NewState(s, Connected, true, true);
      t.queue == s.queue && t.connected && !RunWork(t, results).otStarted
  {
    var t := NewState(s, Connected, true, true);
    ThreadAfterDrain(t, results);
    assert StopsAt(t, results, 1);
  }

  /** Three bus events while the work queue is held up. */
  function Backlog(): seq<Action> {
    [Event(Connected, true, true)] + [Event(Unsynchronized, true, true)] + [Event(Connected, true, true)]
  }

  lemma AfterBacklog()
    ensures Exec(Step, BOOT, Backlog()) == State(false, false, true, false, [StartWork, StopWork], [], [], 0)
  {
    var conn, unsync := Event(Connected, true, true), Event(Unsynchronized, true, true);
    FirstStep(conn);
    ExecSnoc(Step, BOOT, [conn], unsync);
    ExecSnoc(Step, BOOT, [conn] + [unsync], conn);
  }

  /** So connected and idle does not mean started: this run ends that way, every call successful and no deinit. */
  lemma IdleWithoutOpenThread()
    ensures
      var s := Exec(Step, BOOT, Backlog() + [Work(true, true)] + [Work(true, true)]);
      && s.connected && s.queue == [] && !s.otStarted
      && s.stack == [StartThread(true), StopThread(true, false)]
  {
    AfterBacklog();
    var acts, s, work := Backlog(), Exec(Step, BOOT, Backlog()), Work(true, true);
    ExecSnoc(Step, BOOT, acts, work);
    ExecSnoc(Step, BOOT, acts + [work], work);
    var t := Step(s, work);
    assert t.queue == [StopWork] && t.otStarted && t.stack == [StartThread(true)];
  }

  // ---------- Events processed with the queue drained ----------

  /** What the calls since a CONNECTED event, which asks for a running OpenThread, leave behind. */
  function ThreadUp(calls: seq<StackCall>): bool {
    if calls == [] then true
    else
      var before := ThreadUp(calls[..|calls| - 1]);
      match calls[|calls| - 1]
      case StartThread(ok) => ok
      case StopThread(ok, _) => before && !ok
      case _ => before
  }

  /** Every event of the run is processed with nothing pending. */
  ghost predicate Serial(acts: seq<Action>) {
    forall k :: 0 <= k < |acts| && acts[k].Event? ==> Exec(Step, BOOT, acts[..k]).queue == []
  }

  /** The calls since the CONNECTED event account for the flag, once the start item has run. */
  ghost predicate Accounted(since: seq<StackCall>, otStarted: bool, startPending: bool) {
    && (forall k :: 0 <= k < |since| && since[k].StopThread? ==> since[k].byDeinit)
    && (!startPending || otStarted ==> otStarted == ThreadUp(since))
  }

  ghost predicate SerialInv(s: State) {
    && s.mark <= |s.stack|
    && (s.connected ==>
          StopWork !in s.queue && Accounted(s.stack[s.mark..], s.otStarted, StartWork in s.queue))
  }

  lemma ThreadUpSnoc(calls: seq<StackCall>, c: StackCall)
    ensures ThreadUp(calls + [c]) ==
            (match c
             case StartThread(ok) => ok
             case StopThread(ok, _) => ThreadUp(calls) && !ok
             case _ => ThreadUp(calls))
  {
    assert (calls + [c])[..|calls|] == calls;
  }

  lemma SinceSnoc(stack: seq<StackCall>, mark: nat, c: StackCall)
    requires mark <= |stack|
    ensures (stack + [c])[mark..] == stack[mark..] + [c]
  {
  }

  lemma DeinitAccounted(s: State, ok: bool, ok2: bool)
    requires s.mark <= |s.stack| && s.started
    requires Accounted(s.stack[s.mark..], s.otStarted, StartWork in s.queue)
    ensures
      var t := Handle(s, DeinitWork, ok, ok2);
      Accounted(t.stack[s.mark..], t.otStarted, StartWork in t.queue)
  {
    var stop, disable := StopThread(ok, true), DisableIp6(ok2);
    var since := s.stack[s.mark..];
    assert s.stack + [stop, disable] == (s.stack + [stop]) + [disable];
    SinceSnoc(s.stack, s.mark, stop);
    SinceSnoc(s.stack + [stop], s.mark, disable);
    ThreadUpSnoc(since, stop);
    ThreadUpSnoc(since + [stop], disable);
  }

  lemma StartAccounted(s: State, ok: bool, ok2: bool)
    requires s.mark <= |s.stack| && s.connected && StartWork !in s.queue
    requires Accounted(s.stack[s.mark..], s.otStarted, true)
    ensures
      var t := Handle(s, StartWork, ok, ok2);
      Accounted(t.stack[s.mark..], t.otStarted, false)
  {
    SinceSnoc(s.stack, s.mark, StartThread(ok));
    ThreadUpSnoc(s.stack[s.mark..], StartThread(ok));
  }

  lemma InitAccounted(s: State, ok: bool, ok2: bool)
    requires s.mark <= |s.stack|
    requires Accounted(s.stack[s.mark..], s.otStarted, StartWork in s.queue)
    ensures
      var t := Handle(s, InitWork, ok, ok2);
      Accounted(t.stack[s.mark..], t.otStarted, StartWork in t.queue)
  {
    SinceSnoc(s.stack, s.mark, EnableIp6(ok));
    ThreadUpSnoc(s.stack[s.mark..], EnableIp6(ok));
  }

  lemma QueueTail(q: seq<WorkItem>)
    requires q != [] && Distinct(q)
    ensures q[0] !in q[1..] && forall x :: x in q <==> x == q[0] || x in q[1..]
  {
    var rest := q[1..];
    assert q == [q[0]] + rest;
    assert forall k :: 0 <= k < |rest| ==> rest[k] == q[k + 1];
  }

  lemma WorkKeepsSerialInv(s: State, ok: bool, ok2: bool)
    requires SerialInv(s) && Distinct(s.queue) && s.queue != []
    ensures SerialInv(WorkStep(s, ok, ok2))
  {
    QueueTail(s.queue);
    if s.connected {
      var r := s.(queue := s.queue[1..]);
      match s.queue[0] {
        case InitWork => InitAccounted(r, ok, ok2);
        case DeinitWork => if s.started { DeinitAccounted(r, ok, ok2); }
        case StartWork => StartAccounted(r, ok, ok2);
        case StopWork =>
      }
    }
  }

  lemma StepKeepsSerialInv(s: State, a: Action)
    requires SerialInv(s) && Distinct(s.queue)
    requires a.Event? ==> s.queue == []
    ensures SerialInv(Step(s, a))
  {
    match a {
      case Event(bus, userOk, runtimeOk) =>
        if bus.Connected? { assert s.stack[|s.stack|..] == []; }
      case StartRequest =>
      case StopRequest =>
      case Work(ok, ok2) =>
        if s.queue != [] { WorkKeepsSerialInv(s, ok, ok2); }
    }
  }

  lemma {:induction false} SerialReachable(acts: seq<Action>)
    requires Serial(acts)
    ensures SerialInv(Exec(Step, BOOT, acts))
    decreases |acts|
  {
    if acts != [] {
      var before := acts[..|acts| - 1];
      forall k | 0 <= k < |before| && before[k].Event? ensures Exec(Step, BOOT, before[..k]).queue == [] {
        assert before[..k] == acts[..k] && acts[k].Event?;
      }
      SerialReachable(before);
      QueueDistinct(before);
      StepKeepsSerialInv(Exec(Step, BOOT, before), acts[|acts| - 1]);
    }
  }

  lemma {:induction false} WhyDown(calls: seq<StackCall>) returns (k: nat)
    requires !ThreadUp(calls)
    ensures k < |calls|
    ensures calls[k] == StartThread(false) || (calls[k].StopThread? && calls[k].ok)
    ensures forall j :: k < j < |calls| ==> calls[j] != StartThread(true)
    decreases |calls|
  {
    k := |calls| - 1;
    if calls[k] != StartThread(false) && !(calls[k].StopThread? && calls[k].ok) {
      k := WhyDown(calls[..|calls| - 1]);
    }
  }

  /**
   If every event is processed with the work queue drained, then whenever the node is connected and the
   queue has drained again, OpenThread is started, unless since the last CONNECTED event
   openthread_start failed or a deinit stopped it, and no start has succeeded after that.
   */
  lemma {:induction false} ConnectedAndIdle(acts: seq<Action>)
    requires Serial(acts)
    requires Exec(Step, BOOT, acts).connected && Exec(Step, BOOT, acts).queue == []
    ensures
      var s := Exec(Step, BOOT, acts);
      && s.mark <= |s.stack|
      && s.otStarted == ThreadUp(s.stack[s.mark..])
      && (!s.otStarted ==>
            exists k :: s.mark <= k < |s.stack|
              && (s.stack[k] == StartThread(false) || s.stack[k] == StopThread(true, true))
              && forall j :: k < j < |s.stack| ==> s.stack[j] != StartThread(true))
  {
    SerialReachable(acts);
    var s := Exec(Step, BOOT, acts);
    if !s.otStarted { WhyStopped(s); }
  }

  lemma WhyStopped(s: State)
    requires s.mark <= |s.stack| && Accounted(s.stack[s.mark..], false, false)
    ensures exists k :: s.mark <= k < |s.stack|
              && (s.stack[k] == StartThread(false) || s.stack[k] == StopThread(true, true))
              && forall j :: k < j < |s.stack| ==> s.stack[j] != StartThread(true)
  {
    var since := s.stack[s.mark..];
    var k := WhyDown(since);
    assert s.stack[s.mark + k] == since[k];
    forall j | s.mark + k < j < |s.stack| ensures s.stack[j] != StartThread(true) {
      assert s.stack[j] == since[j - s.mark];
    }
  }
}
