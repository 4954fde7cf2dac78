/**
 What the calls of rnb_utils.c leave behind in OpenThread and in the radio driver, compared with the
 flags it keeps about them.
 */
module StackCalls {
  import opened Runs
  import opened Lifecycle

  // ---------- OpenThread, as its own calls and results say ----------

  /** Whether IPv6 is enabled after these calls. */
  function Ip6Enabled(calls: seq<StackCall>): bool {
    if calls == [] then false
    else
      var before := Ip6Enabled(calls[..|calls| - 1]);
      match calls[|calls| - 1]
      case EnableIp6(ok) => before || ok
      case DisableIp6(ok) => before && !ok
      case _ => before
  }

  /** Whether the Thread protocol is enabled after these calls. */
  function ThreadEnabled(calls: seq<StackCall>): bool {
    if calls == [] then false
    else
      var before := ThreadEnabled(calls[..|calls| - 1]);
      match calls[|calls| - 1]
      case StartThread(ok) => before || ok
      case StopThread(ok, _) => before && !ok
      case _ => before
  }

  /** Whether a stop item failed to disable a running Thread, and neither a start nor a stop has succeeded since. */
  function Stale(calls: seq<StackCall>): bool {
    if calls == [] then false
    else
      var prefix := calls[..|calls| - 1];
      match calls[|calls| - 1]
      case StartThread(ok) => Stale(prefix) && !ok
      case StopThread(ok, byDeinit) => !ok && (if byDeinit then Stale(prefix) else ThreadEnabled(prefix))
      case _ => Stale(prefix)
  }

  /** How each call relates to what the stack was doing when it was made. */
  ghost predicate CallAllowed(before: seq<StackCall>, call: StackCall) {
    match call
    case EnableIp6(_) => !Ip6Enabled(before)
    case DisableIp6(_) => Ip6Enabled(before)
    case StartThread(_) => ThreadEnabled(before) ==> Stale(before)
    case StopThread(_, byDeinit) => if byDeinit then Ip6Enabled(before) else ThreadEnabled(before) && !Stale(before)
  }

  ghost predicate CallsAllowed(calls: seq<StackCall>) {
    forall i :: 0 <= i < |calls| ==> CallAllowed(calls[..i], calls[i])
  }

  ghost predicate FlagsAgree(s: State) {
    && s.started == Ip6Enabled(s.stack)
    && s.otStarted == (ThreadEnabled(s.stack) && !Stale(s.stack))
    && CallsAllowed(s.stack)
  }

  lemma Snoc(calls: seq<StackCall>, call: StackCall)
    ensures
      var all := calls + [call];
      match call
      case EnableIp6(ok) =>
        && Ip6Enabled(all) == (Ip6Enabled(calls) || ok)
        && ThreadEnabled(all) == ThreadEnabled(calls) && Stale(all) == Stale(calls)
      case DisableIp6(ok) =>
        && Ip6Enabled(all) == (Ip6Enabled(calls) && !ok)
        && ThreadEnabled(all) == ThreadEnabled(calls) && Stale(all) == Stale(calls)
      case StartThread(ok) =>
        && Ip6Enabled(all) == Ip6Enabled(calls)
        && ThreadEnabled(all) == (ThreadEnabled(calls) || ok) && Stale(all) == (Stale(calls) && !ok)
      case StopThread(ok, byDeinit) =>
        && Ip6Enabled(all) == Ip6Enabled(calls)
        && ThreadEnabled(all) == (ThreadEnabled(calls) && !ok)
        && Stale(all) == (!ok && (if byDeinit then Stale(calls) else ThreadEnabled(calls)))
  {
    assert (calls + [call])[..|calls|] == calls;
  }

  lemma AllowedSnoc(calls: seq<StackCall>, call: StackCall)
    requires CallsAllowed(calls) && CallAllowed(calls, call)
    ensures CallsAllowed(calls + [call])
  {
    var all := calls + [call];
    forall i | 0 <= i < |all| ensures CallAllowed(all[..i], all[i]) {
      assert all[..i] == calls[..i];
    }
  }

  lemma HandleKeepsFlags(s: State, item: WorkItem, ok: bool, ok2: bool)
    requires FlagsAgree(s)
    ensures FlagsAgree(Handle(s, item, ok, ok2))
  {
    match item {
      case InitWork =>
        Snoc(s.stack, EnableIp6(ok));
        if !s.started { AllowedSnoc(s.stack, EnableIp6(ok)); }
      case StartWork =>
        Snoc(s.stack, StartThread(ok));
        if !s.otStarted { AllowedSnoc(s.stack, StartThread(ok)); }
      case StopWork =>
        Snoc(s.stack, StopThread(ok, false));
        if s.otStarted { AllowedSnoc(s.stack, StopThread(ok, false)); }
      case DeinitWork =>
        if s.started { DeinitKeepsFlags(s, ok, ok2); }
    }
  }

  lemma DeinitKeepsFlags(s: State, ok: bool, ok2: bool)
    requires FlagsAgree(s) && s.started
    ensures FlagsAgree(Handle(s, DeinitWork, ok, ok2))
  {
    var stop, disable := StopThread(ok, true), DisableIp6(ok2);
    var stopped := s.stack + [stop];
    Snoc(s.stack, stop);
    AllowedSnoc(s.stack, stop);
    Snoc(stopped, disable);
    AllowedSnoc(stopped, disable);
    assert stopped + [disable] == s.stack + [stop, disable];
  }

  lemma StepKeepsFlags(s: State, a: Action)
    requires FlagsAgree(s)
    ensures FlagsAgree(Step(s, a))
  {
    if a.Work? && s.queue != [] {
      HandleKeepsFlags(s.(queue := s.queue[1..]), s.queue[0], a.ok, a.ok2);
    }
  }

  /**
   For every run and all results: rnb_started is the IPv6 state of the stack, IPv6 is enabled only while
   disabled and disabled only while enabled, and openthread_start is called only while ot_started is
   false.  ot_started itself is the Thread state of the stack except after a stop item whose call failed.
   */
  lemma {:induction false} FlagsMatchStack(acts: seq<Action>)
    ensures
      var s := Exec(Step, BOOT, acts);
      && s.started == Ip6Enabled(s.stack)
      && s.otStarted == (ThreadEnabled(s.stack) && !Stale(s.stack))
      && CallsAllowed(s.stack)
    decreases |acts|
  {
    if acts != [] {
      var before := acts[..|acts| - 1];
      FlagsMatchStack(before);
      StepKeepsFlags(Exec(Step, BOOT, before), acts[|acts| - 1]);
    }
  }

  lemma StaleIsEnabled(calls: seq<StackCall>)
    ensures Stale(calls) ==> ThreadEnabled(calls)
  {
  }

  /** The flag differs from the stack exactly when stale, and then only by claiming a running Thread stopped. */
  lemma FlagIsWrongIff(acts: seq<Action>)
    ensures
      var s := Exec(Step, BOOT, acts);
      && (s.otStarted != ThreadEnabled(s.stack) <==> Stale(s.stack))
      && (s.otStarted ==> ThreadEnabled(s.stack))
  {
    FlagsMatchStack(acts);
    StaleIsEnabled(Exec(Step, BOOT, acts).stack);
  }

  /** Any run that rests with OpenThread started can go on to a wrong flag: sync is lost and the stop call fails. */
  lemma {:induction false} FailedStopGoesUnnoticed(acts: seq<Action>)
    requires var s := Exec(Step, BOOT, acts); s.otStarted && s.queue == []
    ensures
      var t := Exec(Step, BOOT, acts + [Event(Unsynchronized, true, true)] + [Work(false, false)]);
      !t.connected && !t.otStarted && ThreadEnabled(t.stack) && t.queue == []
  {
    var s, unsync := Exec(Step, BOOT, acts), Event(Unsynchronized, true, true);
    FlagsMatchStack(acts);
    ExecSnoc(Step, BOOT, acts, unsync);
    ExecSnoc(Step, BOOT, acts + [unsync], Work(false, false));
    Snoc(s.stack, StopThread(false, false));
  }

  /** A run that comes to rest like that: connect, and let the start item succeed. */
  lemma StartsAndRests()
    ensures
      var s := Exec(Step, BOOT, [Event(Connected, true, true)] + [Work(true, true)]);
      s.otStarted && s.queue == []
  {
    var conn, work := Event(Connected, true, true), Work(true, true);
    FirstStep(conn);
    ExecSnoc(Step, BOOT, [conn], work);
    var s := Step(BOOT, conn);
    assert s.queue == [StartWork] && s.connected && !s.otStarted;
    assert Exec(Step, BOOT, [conn] + [work]) == Step(s, work);
  }

  /**
   In any state of any run a handler whose calls succeed brings the stack where its name says: init
   enables IPv6, deinit disables it and Thread, start enables Thread on a connected node, and stop
   disables a Thread that is marked started.
   */
  lemma {:induction false} HandlersTakeEffect(acts: seq<Action>)
    ensures
      var s := Exec(Step, BOOT, acts);
      && Ip6Enabled(Handle(s, InitWork, true, true).stack)
      && !Ip6Enabled(Handle(s, DeinitWork, true, true).stack)
      && (s.started ==> !ThreadEnabled(Handle(s, DeinitWork, true, true).stack))
      && (s.connected ==> ThreadEnabled(Handle(s, StartWork, true, true).stack))
      && (s.otStarted ==> !ThreadEnabled(Handle(s, StopWork, true, true).stack))
  {
    FlagsMatchStack(acts);
    HandlersAgree(Exec(Step, BOOT, acts));
  }

  lemma HandlersAgree(s: State)
    requires FlagsAgree(s)
    ensures Ip6Enabled(Handle(s, InitWork, true, true).stack)
    ensures !Ip6Enabled(Handle(s, DeinitWork, true, true).stack)
    ensures s.started ==> !ThreadEnabled(Handle(s, DeinitWork, true, true).stack)
    ensures s.connected ==> ThreadEnabled(Handle(s, StartWork, true, true).stack)
    ensures s.otStarted ==> !ThreadEnabled(Handle(s, StopWork, true, true).stack)
  {
    var stopped := s.stack + [StopThread(true, true)];
    assert stopped + [DisableIp6(true)] == s.stack + [StopThread(true, true), DisableIp6(true)];
    Snoc(s.stack, EnableIp6(true));
    Snoc(s.stack, StopThread(true, true));
    Snoc(stopped, DisableIp6(true));
    Snoc(s.stack, StartThread(true));
    Snoc(s.stack, StopThread(true, false));
  }

  // ---------- Configuration of the radio driver ----------

  /** Part of an attempt that has not succeeded: a runtime configuration only follows a good user configuration. */
  predicate AttemptAt(log: seq<ConfigCall>, i: nat)
    requires i < |log|
  {
    && log[i] != SubmitInit && log[i] != RuntimeConfig(true)
    && (log[i].RuntimeConfig? ==> i > 0 && log[i - 1] == UserConfig(true))
  }

  ghost predicate Attempts(log: seq<ConfigCall>) {
    forall i :: 0 <= i < |log| ==> AttemptAt(log, i)
  }

  const SUCCESS := [UserConfig(true), RuntimeConfig(true), SubmitInit]

  /** Failed attempts, then, once configured, one successful one, which submits the init work; nothing after it. */
  ghost predicate ConfigInv(s: State) {
    if !s.configured then Attempts(s.config)
    else
      var n := |s.config| - 3;
      n >= 0 && s.config[n..] == SUCCESS && Attempts(s.config[..n])
  }

  lemma AttemptsSnoc(log: seq<ConfigCall>, call: ConfigCall)
    requires Attempts(log) && AttemptAt(log + [call], |log|)
    ensures Attempts(log + [call])
  {
    forall i | 0 <= i < |log| ensures AttemptAt(log + [call], i) {
      assert AttemptAt(log, i);
    }
  }

  lemma AttemptFails(log: seq<ConfigCall>)
    requires Attempts(log)
    ensures Attempts(log + [UserConfig(false)]) && Attempts(log + [UserConfig(true), RuntimeConfig(false)])
  {
    AttemptsSnoc(log, UserConfig(false));
    AttemptsSnoc(log, UserConfig(true));
    AttemptsSnoc(log + [UserConfig(true)], RuntimeConfig(false));
    assert log + [UserConfig(true)] + [RuntimeConfig(false)] == log + [UserConfig(true), RuntimeConfig(false)];
  }

  lemma OthersKeepConfig(s: State, a: Action)
    requires !(a.Event? && a.bus.Stopped?) || s.configured
    ensures Step(s, a).config == s.config && Step(s, a).configured == s.configured
  {
  }

  lemma StepKeepsConfig(s: State, a: Action)
    requires ConfigInv(s)
    ensures ConfigInv(Step(s, a))
  {
    if a.Event? && a.bus.Stopped? && !s.configured {
      AttemptFails(s.config);
      var all := s.config + SUCCESS;
      assert all[|all| - 3..] == SUCCESS && all[..|all| - 3] == s.config;
    } else {
      OthersKeepConfig(s, a);
    }
  }

  /**
   For every run and all driver results: the runtime configuration is only ever sent right after a user
   configuration that succeeded, nothing is sent once both succeeded in one STOPPED event, and the
   dispatcher submits the init work exactly once, at that event.
   */
  lemma {:induction false} ConfiguredOnce(acts: seq<Action>)
    ensures
      var s := Exec(Step, BOOT, acts);
      if !s.configured then Attempts(s.config)
      else
        var n := |s.config| - 3;
        n >= 0 && s.config[n..] == SUCCESS && Attempts(s.config[..n])
    decreases |acts|
  {
    if acts != [] {
      var before := acts[..|acts| - 1];
      ConfiguredOnce(before);
      StepKeepsConfig(Exec(Step, BOOT, before), acts[|acts| - 1]);
    }
  }

  /** What the STOPPED events of a run ask of the driver, up to the first that configures. */
  function Attempted(acts: seq<Action>): seq<ConfigCall> {
    if acts == [] then []
    else
      var before, a := acts[..|acts| - 1], acts[|acts| - 1];
      if !(a.Event? && a.bus.Stopped?) || exists k :: 0 <= k < |before| && Configures(before[k]) then Attempted(before)
      else if !a.userOk then Attempted(before) + [UserConfig(false)]
      else if !a.runtimeOk then Attempted(before) + [UserConfig(true), RuntimeConfig(false)]
      else Attempted(before) + [UserConfig(true), RuntimeConfig(true), SubmitInit]
  }

  /** Exactly these calls are made. */
  lemma {:induction false} ConfigReadOff(acts: seq<Action>)
    ensures Exec(Step, BOOT, acts).config == Attempted(acts)
    decreases |acts|
  {
    if acts != [] {
      var before, a := acts[..|acts| - 1], acts[|acts| - 1];
      ConfigReadOff(before);
      ConfiguredReadOff(before);
      if !(a.Event? && a.bus.Stopped?) { OthersKeepConfig(Exec(Step, BOOT, before), a); }
    }
  }

  // ---------- The code ----------

  /** The static flags of rnb_utils.c and its work queue. */
  class Runtime {
    var rnbConfigured: bool
    var rnbStarted: bool
    var rnbConnected: bool
    var otStarted: bool
    var queue: seq<WorkItem>
    ghost var stack: seq<StackCall>
    ghost var config: seq<ConfigCall>
    ghost var mark: nat

    ghost function Model(): State
      reads this
    {
      State(rnbConfigured, rnbStarted, rnbConnected, otStarted, queue, stack, config, mark)
    }

    constructor ()
      ensures Model() == BOOT
    {
      rnbConfigured, rnbStarted, rnbConnected, otStarted := false, false, false, false;
      queue, stack, config, mark := [], [], [], 0;
    }

    method SubmitWork(item: WorkItem)
      modifies this`queue
      ensures queue == Submit(old(queue), item)
    {
      if item !in queue {
        queue := queue + [item];
      }
    }

    method OtInitWorkHandler(ok: bool)
      modifies this
      ensures Model() == Handle(old(Model()), InitWork, ok, ok)
    {
      if rnbStarted { return; }
      stack := stack + [EnableIp6(ok)];
      if ok { rnbStarted := true; }
    }

    method OtDeinitWorkHandler(ok: bool, ok2: bool)
      modifies this
      ensures Model() == Handle(old(Model()), DeinitWork, ok, ok2)
    {
      if !rnbStarted { return; }
      stack := stack + [StopThread(ok, true)];
      if ok { otStarted := false; }
      stack := stack + [DisableIp6(ok2)];
      if ok2 { rnbStarted := false; }
      assert stack == old(stack) + [StopThread(ok, true), DisableIp6(ok2)];
    }

    method OtStartWorkHandler(ok: bool)
      modifies this
      ensures Model() == Handle(old(Model()), StartWork, ok, ok)
    {
      if rnbConnected && !otStarted {
        stack := stack + [StartThread(ok)];
        if ok { otStarted := true; }
      }
    }

    method OtStopWorkHandler(ok: bool)
      modifies this
      ensures Model() == Handle(old(Model()), StopWork, ok, ok)
    {
      if otStarted {
        stack := stack + [StopThread(ok, false)];
        otStarted := false;
      }
    }

    /** One turn of the work queue thread. */
    method RunOldestWork(ok: bool, ok2: bool)
      modifies this
      ensures Model() == Step(old(Model()), Work(ok, ok2))
    {
      if queue != [] {
        var item := queue[0];
        queue := queue[1..];
        match item {
          case InitWork => OtInitWorkHandler(ok);
          case DeinitWork => OtDeinitWorkHandler(ok, ok2);
          case StartWork => OtStartWorkHandler(ok);
          case StopWork => OtStopWorkHandler(ok);
        }
      }
    }

    method RnbUtilsStart()
      modifies this
      ensures Model() == Step(old(Model()), StartRequest)
    {
      SubmitWork(InitWork);
    }

    method RnbUtilsStop()
      modifies this
      ensures Model() == Step(old(Model()), StopRequest)
    {
      SubmitWork(DeinitWork);
    }

    /** The work queue thread runs for |gap| turns. */
    method RunGap(gap: seq<(bool, bool)>)
      modifies this
      ensures Model() == RunWork(old(Model()), gap)
    {
      for i := 0 to |gap|
        invariant Model() == RunWork(old(Model()), gap[..i])
      {
        assert gap[..i + 1][..i] == gap[..i];
        RunOldestWork(gap[i].0, gap[i].1);
      }
      assert gap[..|gap|] == gap;
    }

    /**
     The NEW_STATE branch of process_rnb_utils_event; `gap` is what the work queue thread gets done in
     between.  NoWorkInGap says that with nothing in between it is the atomic event.
     */
    method ProcessNewState(bus: BusState, userOk: bool, runtimeOk: bool, gap: seq<(bool, bool)>)
      modifies this
      ensures Model() == SplitState(old(Model()), bus, userOk, runtimeOk, gap)
    {
      if bus.Stopped? {
        if !rnbConfigured { Configure(userOk, runtimeOk, gap); }
      } else if bus.Connected? {
        rnbConnected, mark := true, |stack|;
        RunGap(gap);
        SubmitWork(StartWork);
      } else if bus.Unsynchronized? {
        SubmitWork(StopWork);
        RunGap(gap);
        rnbConnected := false;
      }
    }

    /** The STOPPED branch of a node that is not configured. */
    method Configure(userOk: bool, runtimeOk: bool, gap: seq<(bool, bool)>)
      requires !rnbConfigured
      modifies this
      ensures Model() == SplitState(old(Model()), Stopped, userOk, runtimeOk, gap)
    {
      config := config + [UserConfig(userOk)];
      if !userOk { return; }
      config := config + [RuntimeConfig(runtimeOk)];
      if !runtimeOk {
        assert config == old(config) + [UserConfig(true), RuntimeConfig(false)];
        return;
      }
      assert config == old(config) + [UserConfig(true), RuntimeConfig(true)];
      rnbConfigured := true;
      RunGap(gap);
      config := config + [SubmitInit];
      RnbUtilsStart();
    }
  }
}
