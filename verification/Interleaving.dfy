/**
 The lifecycle statement by statement: the dispatcher between the two statements of a state event, and the
 work queue thread between the check, the call and the flag of a handler, take turns in any order.
 */
module Interleaving {
  import opened Runs
  import opened Lifecycle
  import opened StackCalls

  /** Where the work queue thread stands in a handler; the deinit handler makes a second call. */
  datatype Worker =
    | Free
    | Took(item: WorkItem)                  // no longer pending, not yet checked
    | Checked(item: WorkItem)               // about to call
    | Returned(item: WorkItem, ok: bool)    // about to set or clear the flag
    | Disabling
    | Disabled(ok: bool)

  /** Where the dispatcher stands: before its next event, or between the two statements of one. */
  datatype Dispatcher = Ready | Between(bus: BusState)

  datatype Fine = Fine(s: State, worker: Worker, disp: Dispatcher)

  datatype FineAction =
    | Begin(bus: BusState, userOk: bool, runtimeOk: bool)
    | Finish
    | Request(start: bool)
    | Turn(ok: bool)

  const START := Fine(BOOT, Free, Ready)

  function FineStep(f: Fine, a: FineAction): Fine {
    match a
    case Begin(bus, userOk, runtimeOk) => if f.disp.Ready? then BeginEvent(f, bus, userOk, runtimeOk) else f
    case Finish => if f.disp.Between? then FinishEvent(f) else f
    case Request(start) => f.(s := f.s.(queue := Submit(f.s.queue, if start then InitWork else DeinitWork)))
    case Turn(ok) => f.(s := Effect(f, ok), worker := Next(f, ok))
  }

  function BeginEvent(f: Fine, bus: BusState, userOk: bool, runtimeOk: bool): Fine {
    var s := f.s;
    match bus
    case Stopped =>
      if s.configured || !userOk || !runtimeOk then f.(s := NewState(s, bus, userOk, runtimeOk))
      else
        f.(s := s.(configured := true, config := s.config + [UserConfig(true), RuntimeConfig(true)]),
           disp := Between(bus))
    case Connected => f.(s := s.(connected := true, mark := |s.stack|), disp := Between(bus))
    case Unsynchronized => f.(s := s.(queue := Submit(s.queue, StopWork)), disp := Between(bus))
    case _ => f
  }

  function FinishEvent(f: Fine): Fine
    requires f.disp.Between?
  {
    var s := f.s;
    match f.disp.bus
    case Stopped =>
      f.(s := s.(queue := Submit(s.queue, InitWork), config := s.config + [SubmitInit]), disp := Ready)
    case Connected => f.(s := s.(queue := Submit(s.queue, StartWork)), disp := Ready)
    case Unsynchronized => f.(s := s.(connected := false), disp := Ready)
    case _ => f.(disp := Ready)
  }

  /** The test at the top of a handler. */
  predicate Passes(s: State, item: WorkItem) {
    match item
    case InitWork => !s.started
    case DeinitWork => s.started
    case StartWork => s.connected && !s.otStarted
    case StopWork => s.otStarted
  }

  function FirstCall(item: WorkItem, ok: bool): StackCall {
    match item
    case InitWork => EnableIp6(ok)
    case DeinitWork => StopThread(ok, true)
    case StartWork => StartThread(ok)
    case StopWork => StopThread(ok, false)
  }

  /** The flag after the first call. */
  function Flagged(s: State, item: WorkItem, ok: bool): State {
    match item
    case InitWork => s.(started := s.started || ok)
    case DeinitWork => s.(otStarted := s.otStarted && !ok)
    case StartWork => s.(otStarted := s.otStarted || ok)
    case StopWork => s.(otStarted := false)
  }

  function Effect(f: Fine, ok: bool): State {
    var s := f.s;
    match f.worker
    case Free => if s.queue == [] then s else s.(queue := s.queue[1..])
    case Took(_) => s
    case Checked(item) => s.(stack := s.stack + [FirstCall(item, ok)])
    case Returned(item, callOk) => Flagged(s, item, callOk)
    case Disabling => s.(stack := s.stack + [DisableIp6(ok)])
    case Disabled(callOk) => s.(started := s.started && !callOk)
  }

  function Next(f: Fine, ok: bool): Worker {
    match f.worker
    case Free => if f.s.queue == [] then Free else Took(f.s.queue[0])
    case Took(item) => if Passes(f.s, item) then Checked(item) else Free
    case Checked(item) => Returned(item, ok)
    case Returned(item, _) => if item.DeinitWork? then Disabling else Free
    case Disabling => Disabled(ok)
    case Disabled(_) => Free
  }

  // ---------- What holds in every reachable state ----------

  predicate InHandler(w: Worker, item: WorkItem) {
    (w.Took? || w.Checked? || w.Returned?) && w.item == item
  }

  /** The start handler has passed its test. */
  predicate Starting(w: Worker) {
    InHandler(w, StartWork) && !w.Took?
  }

  /** Not connected, and started or starting: a stop is pending or running. */
  predicate Settled(f: Fine) {
    !f.s.connected && (f.s.otStarted || Starting(f.worker)) ==>
      StopWork in f.s.queue || InHandler(f.worker, StopWork)
  }

  predicate Losing(f: Fine) {
    f.disp == Between(Unsynchronized) && f.s.connected
  }

  /** Clearing rnb_connected will be safe, now and after any work. */
  predicate GapSafe(f: Fine) {
    var q := f.s.queue;
    || (StopWork in q && !StartBehindStop(q))
    || (InHandler(f.worker, StopWork) && StartWork !in q)
    || (!f.s.otStarted && !InHandler(f.worker, StartWork) && StartWork !in q)
  }

  ghost predicate Inv(f: Fine) {
    Distinct(f.s.queue) && Settled(f) && (Losing(f) ==> GapSafe(f))
  }

  /** The event that loses sync finds the node connected with a start item queued behind a stop item. */
  predicate Unlucky(f: Fine, a: FineAction) {
    a.Begin? && a.bus.Unsynchronized? && f.disp.Ready? && f.s.connected && StartBehindStop(f.s.queue)
  }

  lemma Head(q: seq<WorkItem>)
    requires q != []
    ensures forall x :: x in q <==> x == q[0] || x in q[1..]
    ensures Distinct(q) ==> Distinct(q[1..])
    ensures !StartBehindStop(q) ==> !StartBehindStop(q[1..])
    ensures !StartBehindStop(q) && q[0] == StopWork ==> StartWork !in q[1..]
  {
    var rest := q[1..];
    assert q == [q[0]] + rest;
    assert forall k :: 0 <= k < |rest| ==> rest[k] == q[k + 1];
  }

  lemma TurnKeepsGapSafe(f: Fine, ok: bool)
    requires GapSafe(f)
    ensures GapSafe(FineStep(f, Turn(ok)))
  {
    if f.worker.Free? && f.s.queue != [] { Head(f.s.queue); }
  }

  lemma TurnKeepsSettled(f: Fine, ok: bool)
    requires Settled(f)
    ensures Settled(FineStep(f, Turn(ok)))
  {
    if f.worker.Free? && f.s.queue != [] { Head(f.s.queue); }
  }

  lemma TurnKeepsRest(f: Fine, ok: bool)
    requires Distinct(f.s.queue)
    ensures
      var g := FineStep(f, Turn(ok));
      Distinct(g.s.queue) && g.disp == f.disp && g.s.connected == f.s.connected
  {
    if f.worker.Free? && f.s.queue != [] { Head(f.s.queue); }
  }

  lemma TurnKeepsInv(f: Fine, ok: bool)
    requires Inv(f)
    ensures Inv(FineStep(f, Turn(ok)))
  {
    var g := FineStep(f, Turn(ok));
    TurnKeepsSettled(f, ok);
    TurnKeepsRest(f, ok);
    if Losing(f) { TurnKeepsGapSafe(f, ok); }
    assert Losing(g) == Losing(f);
  }

  lemma SubmitKeeps(q: seq<WorkItem>, item: WorkItem)
    ensures forall x :: x in Submit(q, item) <==> x in q || x == item
    ensures item != StartWork && !StartBehindStop(q) ==> !StartBehindStop(Submit(q, item))
  {
  }

  lemma RequestKeepsInv(f: Fine, start: bool)
    requires Inv(f)
    ensures Inv(FineStep(f, Request(start)))
  {
    SubmitKeeps(f.s.queue, if start then InitWork else DeinitWork);
  }

  lemma BeginKeepsInv(f: Fine, bus: BusState, userOk: bool, runtimeOk: bool)
    requires Inv(f) && f.disp.Ready? && !Unlucky(f, Begin(bus, userOk, runtimeOk))
    ensures Inv(BeginEvent(f, bus, userOk, runtimeOk))
  {
    SubmitKeeps(f.s.queue, StopWork);
  }

  lemma FinishSubmitKeepsInv(f: Fine)
    requires Inv(f) && (f.disp == Between(Stopped) || f.disp == Between(Connected))
    ensures Inv(FinishEvent(f))
  {
    SubmitKeeps(f.s.queue, if f.disp.bus.Stopped? then InitWork else StartWork);
  }

  lemma FinishKeepsInv(f: Fine)
    requires Inv(f) && f.disp.Between?
    ensures Inv(FinishEvent(f))
  {
    if f.disp.bus.Stopped? || f.disp.bus.Connected? { FinishSubmitKeepsInv(f); }
  }

  lemma StepKeepsInv(f: Fine, a: FineAction)
    requires Inv(f) && !Unlucky(f, a)
    ensures Inv(FineStep(f, a))
  {
    match a {
      case Begin(bus, userOk, runtimeOk) => if f.disp.Ready? { BeginKeepsInv(f, bus, userOk, runtimeOk); }
      case Finish => if f.disp.Between? { FinishKeepsInv(f); }
      case Request(start) => RequestKeepsInv(f, start);
      case Turn(ok) => TurnKeepsInv(f, ok);
    }
  }

  ghost predicate NeverUnlucky(acts: seq<FineAction>) {
    forall k :: 0 <= k < |acts| ==> !Unlucky(Exec(FineStep, START, acts[..k]), acts[k])
  }

  lemma {:induction false} Reachable(acts: seq<FineAction>)
    requires NeverUnlucky(acts)
    ensures Inv(Exec(FineStep, START, acts))
    decreases |acts|
  {
    if acts != [] {
      var n := |acts| - 1;
      var before := acts[..n];
      forall k | 0 <= k < n ensures !Unlucky(Exec(FineStep, START, before[..k]), before[k]) {
        assert before[..k] == acts[..k] && before[k] == acts[k];
      }
      Reachable(before);
      assert !Unlucky(Exec(FineStep, START, before), acts[n]);
      StepKeepsInv(Exec(FineStep, START, before), acts[n]);
    }
  }

  // ---------- Main results ----------

  /**
   Under every interleaving of single statements in which no event is unlucky: not connected with
   ot_started set, or about to be, means a stop is pending or running.  So once the queue has drained and
   the work queue thread rests, ot_started is false.
   */
  lemma {:induction false} LostSyncStopsThread(acts: seq<FineAction>)
    requires NeverUnlucky(acts)
    ensures
      var f := Exec(FineStep, START, acts);
      && Settled(f)
      && (!f.s.connected && f.s.queue == [] && f.worker.Free? ==> !f.s.otStarted)
  {
    Reachable(acts);
  }

  ghost function Turns(f: Fine, oks: seq<bool>): Fine {
    if oks == [] then f else FineStep(Turns(f, oks[..|oks| - 1]), Turn(oks[|oks| - 1]))
  }

  /** Losing sync with the work queue thread making any turns between the two statements. */
  ghost function LoseSync(f: Fine, oks: seq<bool>): Fine {
    FineStep(Turns(FineStep(f, Begin(Unsynchronized, true, true)), oks), Finish)
  }

  lemma {:induction false} TurnsKeepInv(f: Fine, oks: seq<bool>)
    requires Inv(f)
    ensures Inv(Turns(f, oks)) && Turns(f, oks).disp == f.disp
    decreases |oks|
  {
    if oks != [] {
      var n := |oks| - 1;
      TurnsKeepInv(f, oks[..n]);
      TurnKeepsInv(Turns(f, oks[..n]), oks[n]);
    }
  }

  lemma {:induction false} TurnsConcat(f: Fine, a: seq<bool>, b: seq<bool>)
    ensures Turns(f, a + b) == Turns(Turns(f, a), b)
    decreases |b|
  {
    if b == [] {
      assert a + b == a;
    } else {
      var n := |b| - 1;
      assert (a + b)[..|a + b| - 1] == a + b[..n];
      TurnsConcat(f, a, b[..n]);
    }
  }

  lemma OneTurn(f: Fine, ok: bool)
    ensures Turns(f, [ok]) == FineStep(f, Turn(ok))
  {
    assert [ok][..0] == [];
    assert Turns(f, []) == f;
  }

  /** Turns until the work queue thread is free again. */
  lemma {:induction false} FreeAgain(f: Fine) returns (oks: seq<bool>)
    ensures
      var g := Turns(f, oks);
      && g.worker.Free? && g.disp == f.disp && g.s.queue == f.s.queue && g.s.connected == f.s.connected
    decreases match f.worker
              case Free => 0 case Disabled(_) => 1 case Disabling => 2
              case Returned(_, _) => 3 case Checked(_) => 4 case Took(_) => 5
  {
    if f.worker.Free? {
      oks := [];
    } else {
      OneTurn(f, true);
      var rest := FreeAgain(FineStep(f, Turn(true)));
      oks := [true] + rest;
      TurnsConcat(f, [true], rest);
    }
  }

  /** The turns of one handler are the one step that Lifecycle makes of it, whatever its calls return. */
  lemma HandlerTurns(f: Fine, ok: bool, ok2: bool) returns (oks: seq<bool>)
    requires f.worker.Free? && f.s.queue != []
    ensures Turns(f, oks) == f.(s := WorkStep(f.s, ok, ok2))
  {
    var item := f.s.queue[0];
    if !Passes(f.s, item) {
      oks := [ok] + [ok];
      TwoTurns(f, ok);
    } else {
      CallTurns(f, ok);
      oks := [ok] + ([ok] + [ok] + [ok]);
      if item.DeinitWork? {
        var g := Turns(f, oks);
        DeinitTurns(f, ok, ok2, g);
        TwoTurns(g, ok2);
        TurnsConcat(f, oks, [ok2] + [ok2]);
        oks := oks + ([ok2] + [ok2]);
      }
    }
  }

  /** The turns up to the first flag, when the test passes. */
  lemma CallTurns(f: Fine, ok: bool)
    requires f.worker.Free? && f.s.queue != [] && Passes(f.s, f.s.queue[0])
    ensures
      var item, r := f.s.queue[0], f.s.(queue := f.s.queue[1..]);
      Turns(f, [ok] + ([ok] + [ok] + [ok])) ==
      f.(s := Flagged(r.(stack := r.stack + [FirstCall(item, ok)]), item, ok),
         worker := if item.DeinitWork? then Disabling else Free)
  {
    TurnsConcat(f, [ok], [ok] + [ok] + [ok]);
    OneTurn(f, ok);
    ThreeTurns(FineStep(f, Turn(ok)), ok);
  }

  lemma TwoTurns(f: Fine, ok: bool)
    ensures Turns(f, [ok] + [ok]) == FineStep(FineStep(f, Turn(ok)), Turn(ok))
  {
    TurnsConcat(f, [ok], [ok]);
    OneTurn(f, ok);
    OneTurn(FineStep(f, Turn(ok)), ok);
  }

  lemma ThreeTurns(f: Fine, ok: bool)
    ensures Turns(f, [ok] + [ok] + [ok]) == FineStep(FineStep(FineStep(f, Turn(ok)), Turn(ok)), Turn(ok))
  {
    TurnsConcat(f, [ok] + [ok], [ok]);
    TwoTurns(f, ok);
    OneTurn(FineStep(FineStep(f, Turn(ok)), Turn(ok)), ok);
  }

  lemma DeinitTurns(f: Fine, ok: bool, ok2: bool, g: Fine)
    requires f.worker.Free? && f.s.queue != [] && f.s.queue[0] == DeinitWork && f.s.started
    requires g == f.(s := f.s.(queue := f.s.queue[1..], otStarted := f.s.otStarted && !ok,
                               stack := f.s.stack + [StopThread(ok, true)]), worker := Disabling)
    ensures FineStep(FineStep(g, Turn(ok2)), Turn(ok2)) == f.(s := WorkStep(f.s, ok, ok2))
  {
    assert f.s.stack + [StopThread(ok, true)] + [DisableIp6(ok2)]
        == f.s.stack + [StopThread(ok, true), DisableIp6(ok2)];
  }

  /** So any work of Lifecycle is a number of turns. */
  lemma {:induction false} WorkTurns(f: Fine, results: seq<(bool, bool)>) returns (oks: seq<bool>)
    requires f.worker.Free? && |results| <= |f.s.queue|
    ensures Turns(f, oks) == f.(s := RunWork(f.s, results))
    decreases |results|
  {
    if results == [] {
      oks := [];
    } else {
      var n := |results| - 1;
      var first := WorkTurns(f, results[..n]);
      QueueConsumed(f.s, results[..n]);
      var last := HandlerTurns(Turns(f, first), results[n].0, results[n].1);
      oks := first + last;
      TurnsConcat(f, first, last);
    }
  }

  /** The two statements of an event, with such work in between, are the split event of Lifecycle. */
  lemma SplitIsFine(f: Fine, bus: BusState, gap: seq<(bool, bool)>) returns (oks: seq<bool>)
    requires f.worker.Free? && f.disp.Ready?
    requires bus.Connected? || bus.Unsynchronized? || (bus.Stopped? && !f.s.configured)
    requires |gap| <= |BeginEvent(f, bus, true, true).s.queue|
    ensures FineStep(Turns(FineStep(f, Begin(bus, true, true)), oks), Finish)
         == f.(s := SplitState(f.s, bus, true, true, gap))
  {
    oks := WorkTurns(FineStep(f, Begin(bus, true, true)), gap);
  }

  /**
   From every state of the invariant: losing sync is safe whatever turns the work queue thread makes in
   between and whatever its calls return, if and only if the event does not find the node connected with
   a start item queued behind a stop item.
   */
  lemma LosingSyncIsSafeIff(f: Fine)
    requires Inv(f) && f.disp.Ready?
    ensures (forall oks :: Settled(LoseSync(f, oks))) <==> !(f.s.connected && StartBehindStop(f.s.queue))
  {
    var unsync := Begin(Unsynchronized, true, true);
    var g := FineStep(f, unsync);
    if f.s.connected && StartBehindStop(f.s.queue) {
      var oks := UnluckyTurns(f, g);
      assert !Settled(LoseSync(f, oks));
    } else {
      forall oks ensures Settled(LoseSync(f, oks)) {
        StepKeepsInv(f, unsync);
        TurnsKeepInv(g, oks);
        StepKeepsInv(Turns(g, oks), Finish);
      }
    }
  }

  /** Turns that finish what is running, then run everything up to the start item, calls succeeding. */
  lemma UnluckyTurns(f: Fine, g: Fine) returns (oks: seq<bool>)
    requires Distinct(f.s.queue) && f.disp.Ready? && f.s.connected && StartBehindStop(f.s.queue)
    requires g == FineStep(f, Begin(Unsynchronized, true, true))
    ensures !Settled(FineStep(Turns(g, oks), Finish))
  {
    var i, j :| 0 <= i < j < |f.s.queue| && f.s.queue[i] == StopWork && f.s.queue[j] == StartWork;
    var first := FreeAgain(g);
    var h := Turns(g, first);
    var gap := AllOk(j + 1);
    var work := WorkTurns(h, gap);
    oks := first + work;
    TurnsConcat(g, first, work);
    RunsItem(h.s, gap, j);
    assert gap[..j + 1] == gap;
    assert h.s.queue == f.s.queue && StopWork !in h.s.queue[j + 1..];
  }

  // ---------- The flags against the stack, statement by statement ----------

  /** What the handler knows about the flags where it stands; nobody else writes these two. */
  ghost predicate FlagsInv(f: Fine) {
    match f.worker
    case Free => FlagsAgree(f.s)
    case Took(_) => FlagsAgree(f.s)
    case Checked(item) => FlagsAgree(f.s) && CallAllowed(f.s.stack, FirstCall(item, true))
    case Returned(item, ok) => FlagsAgree(Flagged(f.s, item, ok)) && (item.DeinitWork? ==> f.s.started)
    case Disabling => FlagsAgree(f.s) && f.s.started
    case Disabled(ok) => FlagsAgree(f.s.(started := f.s.started && !ok))
  }

  lemma FirstCallKeepsFlags(s: State, item: WorkItem, ok: bool)
    requires FlagsAgree(s) && CallAllowed(s.stack, FirstCall(item, true))
    ensures FlagsAgree(Flagged(s.(stack := s.stack + [FirstCall(item, ok)]), item, ok))
  {
    Snoc(s.stack, FirstCall(item, ok));
    AllowedSnoc(s.stack, FirstCall(item, ok));
  }

  lemma SecondCallKeepsFlags(s: State, ok: bool)
    requires FlagsAgree(s) && s.started
    ensures FlagsAgree(s.(stack := s.stack + [DisableIp6(ok)], started := s.started && !ok))
  {
    Snoc(s.stack, DisableIp6(ok));
    AllowedSnoc(s.stack, DisableIp6(ok));
  }

  lemma TurnKeepsFlags(f: Fine, ok: bool)
    requires FlagsInv(f)
    ensures FlagsInv(FineStep(f, Turn(ok)))
  {
    match f.worker {
      case Checked(item) => FirstCallKeepsFlags(f.s, item, ok);
      case Disabling => SecondCallKeepsFlags(f.s, ok);
      case _ =>
    }
  }

  /** Only the work queue thread calls into the stack and writes the two flags. */
  lemma OtherStepsLeaveFlags(f: Fine, a: FineAction)
    requires !a.Turn?
    ensures
      var g := FineStep(f, a);
      g.worker == f.worker && g.s.stack == f.s.stack
      && g.s.started == f.s.started && g.s.otStarted == f.s.otStarted
  {
  }

  lemma OtherStepsKeepFlags(f: Fine, a: FineAction)
    requires FlagsInv(f) && !a.Turn?
    ensures FlagsInv(FineStep(f, a))
  {
    OtherStepsLeaveFlags(f, a);
    SameFlags(f, FineStep(f, a));
  }

  lemma SameFlags(f: Fine, g: Fine)
    requires FlagsInv(f) && g.worker == f.worker && g.s.stack == f.s.stack
    requires g.s.started == f.s.started && g.s.otStarted == f.s.otStarted
    ensures FlagsInv(g)
  {
  }

  lemma {:induction false} FlagsReachable(acts: seq<FineAction>)
    ensures FlagsInv(Exec(FineStep, START, acts))
    decreases |acts|
  {
    if acts != [] {
      var before, a := acts[..|acts| - 1], acts[|acts| - 1];
      FlagsReachable(before);
      if a.Turn? {
        TurnKeepsFlags(Exec(FineStep, START, before), a.ok);
      } else {
        OtherStepsKeepFlags(Exec(FineStep, START, before), a);
      }
    }
  }

  /**
   Under every interleaving of single statements the calls keep their order: IPv6 is enabled only while
   disabled and disabled only while enabled, and openthread_start is called only while Thread is stopped
   or its last stop failed.  Whenever the work queue thread rests, the flags are those of the stack.
   */
  lemma {:induction false} CallsStayInOrder(acts: seq<FineAction>)
    ensures
      var f := Exec(FineStep, START, acts);
      && CallsAllowed(f.s.stack)
      && (f.worker.Free? ==>
            && f.s.started == Ip6Enabled(f.s.stack)
            && f.s.otStarted == (ThreadEnabled(f.s.stack) && !Stale(f.s.stack)))
  {
    FlagsReachable(acts);
  }

  // ---------- The init work of a configured node ----------

  /** A configured node is between its two statements, has the init work pending or running, or has called. */
  predicate InitPromisedFine(f: Fine) {
    && (f.s.started ==> HasEnable(f.s.stack))
    && (f.worker.Returned? && f.worker.item.InitWork? ==> HasEnable(f.s.stack))
    && (f.s.configured ==>
          || f.disp == Between(Stopped) || InitWork in f.s.queue
          || InHandler(f.worker, InitWork) || HasEnable(f.s.stack))
  }

  lemma TurnKeepsPromise(f: Fine, ok: bool)
    requires InitPromisedFine(f)
    ensures InitPromisedFine(FineStep(f, Turn(ok)))
  {
    match f.worker {
      case Free => if f.s.queue != [] { Head(f.s.queue); }
      case Checked(item) => HasEnableGrows(f.s.stack, [FirstCall(item, ok)]);
      case Disabling => HasEnableGrows(f.s.stack, [DisableIp6(ok)]);
      case _ =>
    }
  }

  predicate KeepsInit(f: Fine, g: Fine) {
    && (InitWork in f.s.queue ==> InitWork in g.s.queue)
    && (g.s.configured ==> f.s.configured || g.disp == Between(Stopped))
    && (f.disp == Between(Stopped) ==> g.disp == f.disp || InitWork in g.s.queue)
  }

  lemma BeginKeepsInit(f: Fine, bus: BusState, userOk: bool, runtimeOk: bool)
    requires f.disp.Ready?
    ensures KeepsInit(f, BeginEvent(f, bus, userOk, runtimeOk))
  {
    SubmitKeeps(f.s.queue, StopWork);
  }

  lemma FinishKeepsInit(f: Fine)
    requires f.disp.Between?
    ensures KeepsInit(f, FinishEvent(f))
  {
    SubmitKeeps(f.s.queue, InitWork);
    SubmitKeeps(f.s.queue, StartWork);
  }

  lemma OtherStepsKeepInit(f: Fine, a: FineAction)
    requires !a.Turn?
    ensures KeepsInit(f, FineStep(f, a))
  {
    match a {
      case Begin(bus, userOk, runtimeOk) => if f.disp.Ready? { BeginKeepsInit(f, bus, userOk, runtimeOk); }
      case Finish => if f.disp.Between? { FinishKeepsInit(f); }
      case Request(start) => SubmitKeeps(f.s.queue, if start then InitWork else DeinitWork);
    }
  }

  lemma SamePromise(f: Fine, g: Fine)
    requires InitPromisedFine(f) && KeepsInit(f, g)
    requires g.worker == f.worker && g.s.stack == f.s.stack && g.s.started == f.s.started
    ensures InitPromisedFine(g)
  {
  }

  lemma OtherStepsKeepPromise(f: Fine, a: FineAction)
    requires InitPromisedFine(f) && !a.Turn?
    ensures InitPromisedFine(FineStep(f, a))
  {
    OtherStepsLeaveFlags(f, a);
    OtherStepsKeepInit(f, a);
    SamePromise(f, FineStep(f, a));
  }

  /** Under every interleaving of single statements the init work of a configured node is not forgotten. */
  lemma {:induction false} ConfiguredMeansInitFine(acts: seq<FineAction>)
    ensures InitPromisedFine(Exec(FineStep, START, acts))
    decreases |acts|
  {
    if acts != [] {
      var before, a := acts[..|acts| - 1], acts[|acts| - 1];
      ConfiguredMeansInitFine(before);
      if a.Turn? {
        TurnKeepsPromise(Exec(FineStep, START, before), a.ok);
      } else {
        OtherStepsKeepPromise(Exec(FineStep, START, before), a);
      }
    }
  }

  // ---------- Every run of the lifecycle is one of single statements ----------

  function TurnActions(oks: seq<bool>): (r: seq<FineAction>)
    ensures |r| == |oks|
  {
    seq(|oks|, i requires 0 <= i < |oks| => Turn(oks[i]))
  }

  lemma {:induction false} TurnsAreActions(f: Fine, oks: seq<bool>)
    ensures Exec(FineStep, f, TurnActions(oks)) == Turns(f, oks)
    decreases |oks|
  {
    if oks != [] {
      var n := |oks| - 1;
      TurnsAreActions(f, oks[..n]);
      assert TurnActions(oks)[..n] == TurnActions(oks[..n]);
    }
  }

  /** Statements that do what one step of Lifecycle does. */
  lemma StatementsOf(f: Fine, a: Action) returns (fine: seq<FineAction>)
    requires f.worker.Free? && f.disp.Ready?
    ensures Exec(FineStep, f, fine) == f.(s := Step(f.s, a))
  {
    match a {
      case Event(bus, userOk, runtimeOk) =>
        fine := [Begin(bus, userOk, runtimeOk)] + [Finish];
        TwoStatements(f, Begin(bus, userOk, runtimeOk), Finish);
        assert f.s.config + [UserConfig(true), RuntimeConfig(true)] + [SubmitInit]
            == f.s.config + [UserConfig(true), RuntimeConfig(true), SubmitInit];
      case StartRequest =>
        fine := [Request(true)];
        OneStatement(f, Request(true));
      case StopRequest =>
        fine := [Request(false)];
        OneStatement(f, Request(false));
      case Work(ok, ok2) =>
        if f.s.queue == [] {
          fine := [];
        } else {
          var oks := HandlerTurns(f, ok, ok2);
          fine := TurnActions(oks);
          TurnsAreActions(f, oks);
        }
    }
  }

  lemma OneStatement(f: Fine, a: FineAction)
    ensures Exec(FineStep, f, [a]) == FineStep(f, a)
  {
    assert [] + [a] == [a];
    ExecSnoc(FineStep, f, [], a);
  }

  lemma TwoStatements(f: Fine, a: FineAction, b: FineAction)
    ensures Exec(FineStep, f, [a] + [b]) == FineStep(FineStep(f, a), b)
  {
    OneStatement(f, a);
    ExecSnoc(FineStep, f, [a], b);
  }

  /** So what single statements keep in every run, the steps of Lifecycle keep, and each of its runs is possible. */
  lemma {:induction false} RunsAreFine(acts: seq<Action>) returns (fine: seq<FineAction>)
    ensures Exec(FineStep, START, fine) == Fine(Exec(Step, BOOT, acts), Free, Ready)
    decreases |acts|
  {
    if acts == [] {
      fine := [];
    } else {
      var before := RunsAreFine(acts[..|acts| - 1]);
      var f := Exec(FineStep, START, before);
      var more := StatementsOf(f, acts[|acts| - 1]);
      fine := before + more;
      ExecConcat(FineStep, START, before, more);
    }
  }
}
