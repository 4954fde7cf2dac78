/**
 The event pool of rnb_utils.c: a fixed array of event slots, filled by the radio callback,
 linked through a FIFO of slot pointers and drained by the dispatcher thread.

 The first half is the transition system of every interleaving of the callback with the
 dispatcher.  The second half, class Pool, is the code itself.
 */
module EventPool {
  import opened Machine
  import opened Runs

  /** What the radio hands to the callback. `params` starts with its own length byte. */
  datatype Event = Event(dev: int, kind: int, params: seq<byte>)

  /** The parameters are exactly as long as they say, fit a slot, and their size fits uint8_t. */
  predicate Fits(ev: Event, cap: nat) {
    && |ev.params| > 0
    && |ev.params| == 1 + ev.params[0] as int
    && |ev.params| <= cap
    && |ev.params| <= 255
  }

  datatype Slot = Slot(inUse: bool, dev: int, kind: int, buffer: seq<byte>)

  /** The event the dispatcher reads out of a slot: it trusts the length byte. */
  function View(slot: Slot): Event {
    if |slot.buffer| > 0 && 1 + slot.buffer[0] as int <= |slot.buffer|
    then Event(slot.dev, slot.kind, slot.buffer[..1 + slot.buffer[0] as int])
    else Event(slot.dev, slot.kind, slot.buffer)
  }

  /** memcpy of the parameters into the slot: what lies behind them stays. */
  function Copied(buffer: seq<byte>, params: seq<byte>): seq<byte> {
    if |params| <= |buffer| then params + buffer[|params|..] else buffer
  }

  /** Where the callback stands. `busy` remembers which slots were in use when the scan began. */
  datatype Producer =
    | Idle
    | Scan(i: nat, ev: Event, busy: seq<bool>)
    | Found(i: nat, ev: Event)     // slot i was seen free
    | Claimed(i: nat, ev: Event)   // in_use set
    | Headed(i: nat, ev: Event)    // device and event id written
    | Filled(i: nat, ev: Event)    // parameters copied

  /** Where the dispatcher thread stands. */
  datatype Consumer = Waiting | Holding(i: nat) | Processed(i: nat)

  /** How a call of the callback ended. */
  datatype Outcome = Accepted(ev: Event) | Dropped(ev: Event, busy: seq<bool>)

  /** `calls`, `log` and `delivered` record the run; the code does not read them. */
  datatype State = State(
    cap: nat,
    slots: seq<Slot>,
    fifo: seq<nat>,
    prod: Producer,
    cons: Consumer,
    calls: seq<Event>,
    log: seq<Outcome>,
    delivered: seq<Event>)

  datatype Action = Call(ev: Event) | Produce | Dispatch

  function BusyMask(slots: seq<Slot>): (r: seq<bool>)
    ensures |r| == |slots| && forall j :: 0 <= j < |slots| ==> r[j] == slots[j].inUse
  {
    seq(|slots|, j requires 0 <= j < |slots| => slots[j].inUse)
  }

  function SetSlot(slots: seq<Slot>, i: nat, slot: Slot): seq<Slot> {
    if i < |slots| then slots[i := slot] else slots
  }

  function SlotAt(slots: seq<Slot>, i: nat): Slot {
    if i < |slots| then slots[i] else Slot(false, 0, 0, [])
  }

  function Init(n: nat, cap: nat): State {
    State(cap, seq(n, _ => Slot(false, 0, 0, seq(cap, _ => 0))), [], Idle, Waiting, [], [], [])
  }

  function Step(s: State, a: Action): State {
    match a
    case Call(ev) =>
      if s.prod.Idle? && Fits(ev, s.cap)
      then s.(prod := Scan(0, ev, BusyMask(s.slots)), calls := s.calls + [ev])
      else s
    case Produce => ProduceStep(s)
    case Dispatch => DispatchStep(s)
  }

  function ProduceStep(s: State): State {
    match s.prod
    case Idle => s
    case Scan(i, ev, busy) =>
      if i >= |s.slots| then s.(prod := Idle, log := s.log + [Dropped(ev, busy)])
      else if s.slots[i].inUse then s.(prod := Scan(i + 1, ev, busy))
      else s.(prod := Found(i, ev))
    case Found(i, ev) =>
      s.(prod := Claimed(i, ev),
         slots := SetSlot(s.slots, i, SlotAt(s.slots, i).(inUse := true)),
         log := s.log + [Accepted(ev)])
    case Claimed(i, ev) =>
      s.(prod := Headed(i, ev),
         slots := SetSlot(s.slots, i, SlotAt(s.slots, i).(dev := ev.dev, kind := ev.kind)))
    case Headed(i, ev) =>
      s.(prod := Filled(i, ev),
         slots := SetSlot(s.slots, i,
                          SlotAt(s.slots, i).(buffer := Copied(SlotAt(s.slots, i).buffer, ev.params))))
    case Filled(i, ev) =>
      s.(prod := Idle, fifo := s.fifo + [i])
  }

  function DispatchStep(s: State): State {
    match s.cons
    case Waiting =>
      if s.fifo == [] then s else s.(cons := Holding(s.fifo[0]), fifo := s.fifo[1..])
    case Holding(i) =>
      s.(cons := Processed(i), delivered := s.delivered + [View(SlotAt(s.slots, i))])
    case Processed(i) =>
      s.(cons := Waiting, slots := SetSlot(s.slots, i, SlotAt(s.slots, i).(inUse := false)))
  }

  // ---------- What holds in every reachable state ----------

  /** The events of the calls that found a slot, in call order. */
  function AcceptedEvents(log: seq<Outcome>): seq<Event> {
    if log == [] then []
    else
      var last := log[|log| - 1];
      AcceptedEvents(log[..|log| - 1]) + (if last.Accepted? then [last.ev] else [])
  }

  function EventsOf(log: seq<Outcome>): seq<Event> {
    seq(|log|, k requires 0 <= k < |log| => log[k].ev)
  }

  /** The slots with an owner: the one being processed, the queued ones, the one being filled. */
  function Owners(s: State): seq<nat> {
    Held(s.cons)
    + s.fifo
    + (match s.prod
       case Claimed(i, _) => [i]
       case Headed(i, _) => [i]
       case Filled(i, _) => [i]
       case _ => [])
  }

  function Queued(slots: seq<Slot>, q: seq<nat>): (r: seq<Event>)
    ensures |r| == |q|
  {
    seq(|q|, k requires 0 <= k < |q| => View(SlotAt(slots, q[k])))
  }

  /** The event the dispatcher holds and has not processed yet. */
  function InProcessing(s: State): seq<Event> {
    match s.cons case Holding(i) => [View(SlotAt(s.slots, i))] case _ => []
  }

  /** The event the callback has a slot for and has not queued yet. */
  function BeingFilled(s: State): seq<Event> {
    match s.prod
    case Claimed(_, ev) => [ev]
    case Headed(_, ev) => [ev]
    case Filled(_, ev) => [ev]
    case _ => []
  }

  /** The event the callback is still looking for a slot for. */
  function Searching(s: State): seq<Event> {
    match s.prod
    case Scan(_, ev, _) => [ev]
    case Found(_, ev) => [ev]
    case _ => []
  }

  predicate NoDuplicates<T(==)>(q: seq<T>) {
    forall i, j :: 0 <= i < j < |q| ==> q[i] != q[j]
  }

  /** Every slot has at most one owner, and exactly the owned slots are marked in use. */
  ghost predicate Owned(s: State) {
    && NoDuplicates(Owners(s))
    && (forall i :: i in Owners(s) ==> i < |s.slots|)
    && (forall i :: 0 <= i < |s.slots| ==> (s.slots[i].inUse <==> i in Owners(s)))
  }

  /** Accepted and not yet delivered: in processing, queued, being filled. */
  function Pending(s: State): seq<Event> {
    InProcessing(s) + Queued(s.slots, s.fifo) + BeingFilled(s)
  }

  /** Accepted events are delivered or pending: in call order, bytes intact. */
  ghost predicate Conserved(s: State) {
    && AcceptedEvents(s.log) == s.delivered + Pending(s)
    && s.calls == EventsOf(s.log) + Searching(s)
  }

  /** Every dropped event saw every slot in use when its scan began. */
  ghost predicate Drops(s: State) {
    forall k :: 0 <= k < |s.log| && s.log[k].Dropped? ==>
      |s.log[k].busy| == |s.slots| && AllTrue(s.log[k].busy)
  }

  ghost predicate AllTrue(bits: seq<bool>) {
    forall j :: 0 <= j < |bits| ==> bits[j]
  }

  /** The callback's own bookkeeping. */
  ghost predicate ProducerInv(s: State) {
    match s.prod
    case Idle => true
    case Scan(i, ev, busy) =>
      && Fits(ev, s.cap) && |busy| == |s.slots| && i <= |s.slots|
      && (forall j :: 0 <= j < i ==> busy[j])
      && (forall j :: 0 <= j < |s.slots| && s.slots[j].inUse ==> busy[j])
    case Found(i, ev) => Fits(ev, s.cap) && i < |s.slots| && !s.slots[i].inUse
    case Claimed(i, ev) => Fits(ev, s.cap)
    case Headed(i, ev) => Fits(ev, s.cap) && SlotAt(s.slots, i).dev == ev.dev && SlotAt(s.slots, i).kind == ev.kind
    case Filled(i, ev) => View(SlotAt(s.slots, i)) == ev
  }

  /** Everything that concerns the callback alone. */
  ghost predicate Local(s: State) {
    && (forall j :: 0 <= j < |s.slots| ==> |s.slots[j].buffer| == s.cap)
    && ProducerInv(s)
    && Drops(s)
  }

  ghost predicate Inv(s: State) {
    Local(s) && Owned(s) && Conserved(s)
  }

  lemma LogSnoc(log: seq<Outcome>, o: Outcome)
    ensures AcceptedEvents(log + [o]) == AcceptedEvents(log) + (if o.Accepted? then [o.ev] else [])
    ensures EventsOf(log + [o]) == EventsOf(log) + [o.ev]
  {
    assert (log + [o])[..|log|] == log;
  }

  /** Writing a slot leaves the events queued in other slots alone. */
  lemma QueuedFrame(slots: seq<Slot>, i: nat, slot: Slot, q: seq<nat>)
    requires i !in q
    ensures Queued(SetSlot(slots, i, slot), q) == Queued(slots, q)
  {
  }

  lemma HeadElsewhere<T>(x: T, q: seq<T>)
    requires NoDuplicates([x] + q)
    ensures x !in q && NoDuplicates(q)
  {
    var xq := [x] + q;
    assert xq[0] == x && forall k :: 0 <= k < |q| ==> xq[k + 1] == q[k];
  }

  lemma LastElsewhere<T>(q: seq<T>, x: T)
    requires NoDuplicates(q + [x])
    ensures x !in q
  {
    var qx := q + [x];
    assert qx[|q|] == x && forall k :: 0 <= k < |q| ==> qx[k] == q[k];
  }

  function Held(cons: Consumer): seq<nat> {
    match cons case Waiting => [] case Holding(i) => [i] case Processed(i) => [i]
  }

  /** The slot being filled is neither queued nor held by the dispatcher. */
  lemma FillingAlone(s: State)
    requires Owned(s)
    requires s.prod.Claimed? || s.prod.Headed? || s.prod.Filled?
    ensures s.prod.i < |s.slots| && s.slots[s.prod.i].inUse
    ensures s.prod.i !in s.fifo && s.prod.i !in Held(s.cons)
  {
    var others := Held(s.cons) + s.fifo;
    assert Owners(s) == others + [s.prod.i];
    LastElsewhere(others, s.prod.i);
    assert Owners(s)[|others|] in Owners(s);
  }

  /** The slot the dispatcher holds is neither queued nor being filled. */
  lemma HeldAlone(s: State)
    requires Owned(s) && !s.cons.Waiting?
    ensures s.cons.i < |s.slots| && s.cons.i !in s.fifo
    ensures s.prod.Claimed? || s.prod.Headed? || s.prod.Filled? ==> s.prod.i != s.cons.i
  {
    var others := Owners(s.(cons := Waiting));
    assert Owners(s) == [s.cons.i] + others;
    HeadElsewhere(s.cons.i, others);
    assert Owners(s)[0] in Owners(s);
    assert forall k :: k in s.fifo ==> k in others;
    if s.prod.Claimed? || s.prod.Headed? || s.prod.Filled? {
      assert others[|others| - 1] == s.prod.i;
    }
  }

  /** A slot that was seen free is nobody's. */
  lemma FreeAlone(s: State, i: nat)
    requires Owned(s) && i < |s.slots| && !s.slots[i].inUse
    ensures i !in Owners(s) && i !in s.fifo && i !in Held(s.cons)
  {
    assert i !in Owners(s);
    assert forall k :: k in s.fifo ==> k in Owners(s);
    assert forall k :: k in Held(s.cons) ==> k in Owners(s);
  }

  lemma ProduceLocal(s: State)
    requires Local(s) && Owned(s)
    ensures Local(ProduceStep(s))
  {
    if s.prod.Claimed? || s.prod.Headed? { FillingAlone(s); }
  }

  lemma ProduceOwned(s: State)
    requires Local(s) && Owned(s)
    ensures Owned(ProduceStep(s))
  {
    var q, q' := Owners(s), Owners(ProduceStep(s));
    if s.prod.Found? {
      FreeAlone(s, s.prod.i);
      assert q' == q + [s.prod.i];
      assert forall k :: k in q' <==> k in q || k == s.prod.i;
    } else {
      if s.prod.Claimed? || s.prod.Headed? { FillingAlone(s); }
      assert q' == q;
    }
  }

  lemma ProducePending(s: State)
    requires Local(s) && Owned(s)
    ensures Pending(ProduceStep(s)) == Pending(s) + (if s.prod.Found? then [s.prod.ev] else [])
  {
    var t := ProduceStep(s);
    if s.prod.Found? || s.prod.Claimed? || s.prod.Headed? {
      var i := s.prod.i;
      if s.prod.Found? { FreeAlone(s, i); } else { FillingAlone(s); }
      QueuedFrame(s.slots, i, SlotAt(t.slots, i), s.fifo);
      assert t.slots == SetSlot(s.slots, i, SlotAt(t.slots, i));
      assert s.cons.Holding? ==> s.cons.i in Held(s.cons);
      assert InProcessing(t) == InProcessing(s);
    } else if s.prod.Filled? {
      assert Queued(t.slots, t.fifo) == Queued(s.slots, s.fifo) + [s.prod.ev];
    }
  }

  /** What a step of the callback adds to the log. */
  function Logged(s: State): seq<Outcome> {
    match s.prod
    case Scan(i, ev, busy) => if i >= |s.slots| then [Dropped(ev, busy)] else []
    case Found(_, ev) => [Accepted(ev)]
    case _ => []
  }

  lemma ProduceLog(s: State)
    ensures
      var t := ProduceStep(s);
      && t.log == s.log + Logged(s) && t.delivered == s.delivered && t.calls == s.calls
      && AcceptedEvents(t.log) == AcceptedEvents(s.log) + (if s.prod.Found? then [s.prod.ev] else [])
      && EventsOf(t.log) + Searching(t) == EventsOf(s.log) + Searching(s)
  {
    if Logged(s) != [] { LogSnoc(s.log, Logged(s)[0]); }
  }

  lemma ProduceConserved(s: State)
    requires Inv(s)
    ensures Conserved(ProduceStep(s))
  {
    ProducePending(s);
    ProduceLog(s);
  }

  lemma ProduceInv(s: State)
    requires Inv(s)
    ensures Inv(ProduceStep(s))
  {
    ProduceLocal(s);
    ProduceOwned(s);
    ProduceConserved(s);
  }

  lemma DispatchLocal(s: State)
    requires Local(s) && Owned(s)
    ensures Local(DispatchStep(s))
  {
    if !s.cons.Waiting? { HeldAlone(s); }
    if s.prod.Headed? || s.prod.Filled? { FillingAlone(s); }
  }

  lemma DispatchOwned(s: State)
    requires Owned(s)
    ensures Owned(DispatchStep(s))
  {
    var q, q' := Owners(s), Owners(DispatchStep(s));
    if s.cons.Processed? {
      assert q == [s.cons.i] + q';
      HeadElsewhere(s.cons.i, q');
      assert forall k :: k in q <==> k == s.cons.i || k in q';
    } else {
      assert q' == q;
    }
  }

  lemma GetPending(s: State)
    requires s.cons.Waiting? && s.fifo != []
    ensures Pending(DispatchStep(s)) == Pending(s)
  {
    var t := DispatchStep(s);
    assert Queued(s.slots, s.fifo) == InProcessing(t) + Queued(t.slots, t.fifo);
  }

  lemma ReleasePending(s: State)
    requires Owned(s) && s.cons.Processed?
    ensures Pending(DispatchStep(s)) == Pending(s)
  {
    HeldAlone(s);
    QueuedFrame(s.slots, s.cons.i, SlotAt(s.slots, s.cons.i).(inUse := false), s.fifo);
  }

  lemma ProcessConserved(s: State)
    requires Conserved(s) && s.cons.Holding?
    ensures Conserved(DispatchStep(s))
  {
    var t, v := DispatchStep(s), InProcessing(s);
    assert Pending(s) == v + Pending(t);
    assert t.delivered + Pending(t) == s.delivered + (v + Pending(t));
  }

  lemma DispatchConserved(s: State)
    requires Owned(s) && Conserved(s)
    ensures Conserved(DispatchStep(s))
  {
    if s.cons.Holding? {
      ProcessConserved(s);
    } else if s.cons.Processed? {
      ReleasePending(s);
    } else if s.fifo != [] {
      GetPending(s);
    }
  }

  lemma DispatchInv(s: State)
    requires Inv(s)
    ensures Inv(DispatchStep(s))
  {
    DispatchLocal(s);
    DispatchOwned(s);
    DispatchConserved(s);
  }

  lemma StepInv(s: State, a: Action)
    requires Inv(s)
    ensures Inv(Step(s, a))
  {
    match a {
      case Call(ev) => assert Owners(Step(s, a)) == Owners(s);
      case Produce => ProduceInv(s);
      case Dispatch => DispatchInv(s);
    }
  }

  lemma InitInv(n: nat, cap: nat)
    ensures Inv(Init(n, cap))
  {
  }

  /** The invariant, for a pool of n slots. */
  ghost predicate PoolInv(n: nat, cap: nat, s: State) {
    Inv(s) && |s.slots| == n && s.cap == cap
  }

  lemma StepShape(s: State, a: Action)
    ensures |Step(s, a).slots| == |s.slots| && Step(s, a).cap == s.cap
  {
  }

  lemma {:induction false} Reachable(n: nat, cap: nat, acts: seq<Action>)
    ensures PoolInv(n, cap, Exec(Step, Init(n, cap), acts))
    decreases |acts|
  {
    if acts == [] {
      InitInv(n, cap);
    } else {
      var before, a := acts[..|acts| - 1], acts[|acts| - 1];
      Reachable(n, cap, before);
      StepInv(Exec(Step, Init(n, cap), before), a);
      StepShape(Exec(Step, Init(n, cap), before), a);
    }
  }

  // ---------- Main results ----------

  /** Conservation: no accepted event is lost, duplicated, reordered or altered, at any point of any run. */
  lemma {:induction false} DeliveredInCallOrder(n: nat, cap: nat, acts: seq<Action>)
    ensures
      var s := Exec(Step, Init(n, cap), acts);
      && AcceptedEvents(s.log) == s.delivered + Pending(s)
      && s.calls == EventsOf(s.log) + Searching(s)
  {
    Reachable(n, cap, acts);
  }

  lemma {:induction false} Pigeonhole(q: seq<nat>, n: nat)
    requires NoDuplicates(q) && forall k :: 0 <= k < |q| ==> q[k] < n
    ensures |q| <= n
  {
    assert q != [] ==> q[0] < n;
    if n == 0 {
    } else if k :| 0 <= k < |q| && q[k] == n - 1 {
      var r := q[..k] + q[k + 1..];
      assert forall j :: 0 <= j < |r| ==> r[j] == q[if j < k then j else j + 1];
      Pigeonhole(r, n - 1);
    } else {
      Pigeonhole(q, n - 1);
    }
  }

  /** A slot is in use exactly while it is being filled, queued (once) or processed; at most n are owned. */
  lemma SlotOwnership(n: nat, cap: nat, acts: seq<Action>)
    ensures
      var s := Exec(Step, Init(n, cap), acts);
      && |s.slots| == n
      && NoDuplicates(Owners(s))
      && |Owners(s)| <= n
      && (forall i :: 0 <= i < n ==> (s.slots[i].inUse <==> i in Owners(s)))
  {
    Reachable(n, cap, acts);
    var q := Owners(Exec(Step, Init(n, cap), acts));
    assert forall k :: 0 <= k < |q| ==> q[k] in q;
    Pigeonhole(q, n);
  }

  /** How far one call of the callback has come: still scanning, or with exactly one outcome. */
  ghost predicate CallProgress(start: State, ev: Event, s: State) {
    var busy := BusyMask(start.slots);
    || (s.log == start.log && (s.prod.Found? || (s.prod.Scan? && s.prod.busy == busy)) && s.prod.ev == ev)
    || (s.log == start.log + [Accepted(ev)] && !s.prod.Scan? && !s.prod.Found?)
    || (s.log == start.log + [Dropped(ev, busy)] && s.prod.Idle?
        && forall j :: 0 <= j < |start.slots| ==> start.slots[j].inUse)
  }

  lemma CallStep(start: State, ev: Event, s: State, a: Action)
    requires Local(s) && !a.Call? && CallProgress(start, ev, s) && |s.slots| == |start.slots|
    ensures CallProgress(start, ev, Step(s, a)) && |Step(s, a).slots| == |start.slots|
  {
  }

  lemma {:induction false} OneCall(start: State, ev: Event, acts: seq<Action>)
    requires Inv(start) && start.prod.Idle? && Fits(ev, start.cap)
    requires NoCalls(acts)
    ensures
      var s := Exec(Step, Step(start, Call(ev)), acts);
      Inv(s) && CallProgress(start, ev, s) && |s.slots| == |start.slots|
    decreases |acts|
  {
    if acts == [] {
      StepInv(start, Call(ev));
    } else {
      var before, a := acts[..|acts| - 1], acts[|acts| - 1];
      OneCall(start, ev, before);
      var s := Exec(Step, Step(start, Call(ev)), before);
      StepInv(s, a);
      CallStep(start, ev, s, a);
    }
  }

  /**
   An event is dropped only if every slot was in use when its scan began, however the dispatcher
   frees slots meanwhile: from any reachable state, along any interleaving.
   */
  lemma DroppedOnlyWhenFull(start: State, ev: Event, acts: seq<Action>)
    requires Inv(start) && start.prod.Idle? && Fits(ev, start.cap)
    requires NoCalls(acts)
    ensures
      var s := Exec(Step, Step(start, Call(ev)), acts);
      && (s.prod.Idle? ==> |s.log| == |start.log| + 1)
      && ((exists j :: 0 <= j < |start.slots| && !start.slots[j].inUse) && s.prod.Idle?
          ==> s.log == start.log + [Accepted(ev)])
  {
    OneCall(start, ev, acts);
  }

  /** Dispatcher steps left until nothing is queued and nothing is held. */
  function Backlog(s: State): nat {
    3 * |s.fifo| + match s.cons case Waiting => 0 case Holding(_) => 2 case Processed(_) => 1
  }

  ghost predicate Drained(s: State, t: State) {
    t.log == s.log && t.prod == s.prod && t.cons.Waiting? && t.fifo == []
  }

  lemma DispatchProgress(s: State)
    requires Backlog(s) > 0
    ensures
      var u := Step(s, Dispatch);
      Backlog(u) == Backlog(s) - 1 && u.log == s.log && u.prod == s.prod
  {
  }

  lemma {:induction false} DrainRun(s: State, n: nat)
    requires n == Backlog(s)
    ensures Drained(s, Exec(Step, s, Repeat(Dispatch, n)))
    decreases n
  {
    if n > 0 {
      DispatchProgress(s);
      DrainRun(Step(s, Dispatch), n - 1);
      ExecRepeat(Step, s, Dispatch, n - 1);
    }
  }

  lemma {:induction false} RunKeepsInv(s: State, acts: seq<Action>)
    requires Inv(s)
    ensures Inv(Exec(Step, s, acts))
    decreases |acts|
  {
    if acts != [] {
      RunKeepsInv(s, acts[..|acts| - 1]);
      StepInv(Exec(Step, s, acts[..|acts| - 1]), acts[|acts| - 1]);
    }
  }

  /** Left alone, the dispatcher delivers everything accepted so far and frees every slot but one being filled. */
  lemma Drain(s: State)
    requires Inv(s)
    ensures
      var t := Exec(Step, s, Repeat(Dispatch, Backlog(s)));
      && AcceptedEvents(s.log) == t.delivered + BeingFilled(s)
      && (s.prod.Idle? ==> forall i :: 0 <= i < |t.slots| ==> !t.slots[i].inUse)
  {
    DrainRun(s, Backlog(s));
    RunKeepsInv(s, Repeat(Dispatch, Backlog(s)));
    var t := Exec(Step, s, Repeat(Dispatch, Backlog(s)));
    assert Queued(t.slots, t.fifo) == [];
    if s.prod.Idle? { assert Owners(t) == []; }
  }

  // ---------- The code ----------

  /** The module state of rnb_utils.c that the callback and the dispatcher thread share. */
  class Pool {
    const slots: array<Slot>
    const cap: nat
    var fifo: seq<nat>
    var cons: Consumer
    ghost var prod: Producer
    ghost var calls: seq<Event>
    ghost var log: seq<Outcome>
    ghost var delivered: seq<Event>

    ghost function Model(): State
      reads this, slots
    {
      State(cap, slots[..], fifo, prod, cons, calls, log, delivered)
    }

    constructor (n: nat, cap: nat)
      ensures fresh(slots) && Model() == Init(n, cap)
    {
      var empty: Slot := Slot(false, 0, 0, seq(cap, _ => 0));
      slots := new Slot[n](_ => empty);
      this.cap := cap;
      fifo, cons := [], Waiting;
      prod, calls, log, delivered := Idle, [], [], [];
    }

    /** One step of the dispatcher thread's endless loop: get, process or release. */
    method DispatcherStep()
      requires InBounds(Model())
      modifies this`fifo, this`cons, this`delivered, slots
      ensures Model() == DispatchStep(old(Model())) && InBounds(Model())
    {
      match cons {
        case Waiting =>
          if fifo != [] {
            cons, fifo := Holding(fifo[0]), fifo[1..];
          }
        case Holding(i) =>
          delivered := delivered + [View(slots[i])];
          cons := Processed(i);
        case Processed(i) =>
          slots[i] := slots[i].(inUse := false);
          cons := Waiting;
      }
    }

    /** The dispatcher thread runs for as long as the scheduler lets it. */
    method Preempt(ghost start: State, ghost steps: seq<Action>) returns (ghost steps': seq<Action>)
      requires InBounds(Model()) && Model() == Exec(Step, start, steps) && NoCalls(steps)
      modifies this`fifo, this`cons, this`delivered, slots
      ensures InBounds(Model()) && Model() == Exec(Step, start, steps') && NoCalls(steps')
    {
      steps' := steps;
      var budget: nat := *;
      while budget > 0
        invariant InBounds(Model()) && Model() == Exec(Step, start, steps') && NoCalls(steps')
      {
        ExecSnoc(Step, start, steps', Dispatch);
        steps' := steps' + [Dispatch];
        DispatcherStep();
        budget := budget - 1;
      }
    }

    /** handle_rnb_user_event, preempted by the dispatcher wherever the scheduler likes. */
    method HandleRnbUserEvent(ev: Event) returns (queued: bool, ghost trace: seq<Action>)
      requires Inv(Model()) && prod.Idle? && Fits(ev, cap)
      modifies this, slots
      ensures Inv(Model()) && prod.Idle?
      ensures trace != [] && trace[0] == Call(ev) && NoCalls(trace[1..])
      ensures Model() == Exec(Step, old(Model()), trace)
      ensures log == old(log) + [if queued then Accepted(ev) else Dropped(ev, BusyMask(old(slots[..])))]
      ensures calls == old(calls) + [ev]
      ensures !queued ==> forall j :: 0 <= j < slots.Length ==> old(slots[j].inUse)
    {
      ghost var start := Model();
      InvInBounds(start);
      ghost var steps: seq<Action>;
      queued, steps := ScanSlots(ev);
      trace := [Call(ev)] + steps;
      assert trace[1..] == steps;
      CallRun(start, ev, trace);
    }

    /** The scan loop. */
    method ScanSlots(ev: Event) returns (queued: bool, ghost steps: seq<Action>)
      requires InBounds(Model()) && prod.Idle? && Fits(ev, cap)
      modifies this, slots
      ensures NoCalls(steps) && Model() == Exec(Step, Step(old(Model()), Call(ev)), steps)
      ensures prod.Idle? && calls == old(calls) + [ev]
      ensures log == old(log) + [if queued then Accepted(ev) else Dropped(ev, BusyMask(old(slots[..])))]
    {
      ghost var busy := BusyMask(slots[..]);
      calls, prod := calls + [ev], Scan(0, ev, busy);
      ghost var start := Model();
      steps := [];

      for i := 0 to slots.Length
        invariant InBounds(Model()) && Model() == Exec(Step, start, steps) && NoCalls(steps)
        invariant prod == Scan(i, ev, busy) && calls == start.calls && log == start.log
      {
        queued, steps := TrySlot(i, ev, start, steps);
        if queued { return; }
      }

      steps := Advance(start, steps);
      prod, log := Idle, log + [Dropped(ev, busy)];
      return false, steps;
    }

    /** The body of the scan loop. */
    method TrySlot(i: nat, ev: Event, ghost start: State, ghost steps: seq<Action>)
      returns (queued: bool, ghost steps': seq<Action>)
      requires i < slots.Length && prod.Scan? && prod == Scan(i, ev, prod.busy)
      requires InBounds(Model()) && Model() == Exec(Step, start, steps) && NoCalls(steps)
      modifies this`fifo, this`cons, this`delivered, this`prod, this`log, slots
      ensures InBounds(Model()) && Model() == Exec(Step, start, steps') && NoCalls(steps')
      ensures if queued then prod.Idle? && log == old(log) + [Accepted(ev)]
              else prod == Scan(i + 1, ev, old(prod.busy)) && log == old(log)
    {
      var free: bool;
      free, steps' := TestSlot(i, ev, start, steps);
      queued := free;
      if free { steps' := Fill(i, ev, start, steps'); }
    }

    /** The test for a free slot. */
    method TestSlot(i: nat, ev: Event, ghost start: State, ghost steps: seq<Action>)
      returns (free: bool, ghost steps': seq<Action>)
      requires i < slots.Length && prod.Scan? && prod == Scan(i, ev, prod.busy)
      requires InBounds(Model()) && Model() == Exec(Step, start, steps) && NoCalls(steps)
      modifies this`fifo, this`cons, this`delivered, this`prod, slots
      ensures InBounds(Model()) && Model() == Exec(Step, start, steps') && NoCalls(steps')
      ensures prod == if free then Found(i, ev) else Scan(i + 1, ev, old(prod.busy))
    {
      steps' := Preempt(start, steps);
      steps' := Advance(start, steps');
      free := ReadInUse(i, ev);
    }

    /** in_use is read. */
    method ReadInUse(i: nat, ev: Event) returns (free: bool)
      requires i < slots.Length && prod.Scan? && prod == Scan(i, ev, prod.busy)
      modifies this`prod
      ensures Model() == ProduceStep(old(Model()))
      ensures prod == if free then Found(i, ev) else Scan(i + 1, ev, old(prod.busy))
    {
      free := !slots[i].inUse;
      prod := if free then Found(i, ev) else Scan(i + 1, ev, prod.busy);
    }

    /** The body of the scan loop once a free slot is found. */
    method Fill(i: nat, ev: Event, ghost start: State, ghost steps: seq<Action>) returns (ghost steps': seq<Action>)
      requires i < slots.Length && prod == Found(i, ev)
      requires InBounds(Model()) && Model() == Exec(Step, start, steps) && NoCalls(steps)
      modifies this`fifo, this`cons, this`delivered, this`prod, this`log, slots
      ensures InBounds(Model()) && Model() == Exec(Step, start, steps') && NoCalls(steps')
      ensures prod.Idle? && log == old(log) + [Accepted(ev)]
    {
      steps' := MarkInUse(i, ev, start, steps);
      steps' := WriteHeader(i, ev, start, steps');
      steps' := CopyParams(i, ev, start, steps');
      steps' := PutSlot(i, ev, start, steps');
    }

    method MarkInUse(i: nat, ev: Event, ghost start: State, ghost steps: seq<Action>)
      returns (ghost steps': seq<Action>)
      requires i < slots.Length && prod == Found(i, ev)
      requires InBounds(Model()) && Model() == Exec(Step, start, steps) && NoCalls(steps)
      modifies this`fifo, this`cons, this`delivered, this`prod, this`log, slots
      ensures InBounds(Model()) && Model() == Exec(Step, start, steps') && NoCalls(steps')
      ensures prod == Claimed(i, ev) && log == old(log) + [Accepted(ev)]
    {
      steps' := Preempt(start, steps);
      steps' := Advance(start, steps');
      slots[i] := slots[i].(inUse := true);
      prod, log := Claimed(i, ev), log + [Accepted(ev)];
    }

    method WriteHeader(i: nat, ev: Event, ghost start: State, ghost steps: seq<Action>)
      returns (ghost steps': seq<Action>)
      requires i < slots.Length && prod == Claimed(i, ev)
      requires InBounds(Model()) && Model() == Exec(Step, start, steps) && NoCalls(steps)
      modifies this`fifo, this`cons, this`delivered, this`prod, slots
      ensures InBounds(Model()) && Model() == Exec(Step, start, steps') && NoCalls(steps')
      ensures prod == Headed(i, ev)
    {
      steps' := Preempt(start, steps);
      steps' := Advance(start, steps');
      slots[i] := slots[i].(dev := ev.dev, kind := ev.kind);
      prod := Headed(i, ev);
    }

    method CopyParams(i: nat, ev: Event, ghost start: State, ghost steps: seq<Action>)
      returns (ghost steps': seq<Action>)
      requires i < slots.Length && prod == Headed(i, ev)
      requires InBounds(Model()) && Model() == Exec(Step, start, steps) && NoCalls(steps)
      modifies this`fifo, this`cons, this`delivered, this`prod, slots
      ensures InBounds(Model()) && Model() == Exec(Step, start, steps') && NoCalls(steps')
      ensures prod == Filled(i, ev)
    {
      steps' := Preempt(start, steps);
      steps' := Advance(start, steps');
      slots[i] := slots[i].(buffer := Copied(slots[i].buffer, ev.params));
      prod := Filled(i, ev);
    }

    method PutSlot(i: nat, ev: Event, ghost start: State, ghost steps: seq<Action>)
      returns (ghost steps': seq<Action>)
      requires i < slots.Length && prod == Filled(i, ev)
      requires InBounds(Model()) && Model() == Exec(Step, start, steps) && NoCalls(steps)
      modifies this`fifo, this`cons, this`delivered, this`prod, slots
      ensures InBounds(Model()) && Model() == Exec(Step, start, steps') && NoCalls(steps')
      ensures prod.Idle?
    {
      steps' := Preempt(start, steps);
      steps' := Advance(start, steps');
      fifo := fifo + [i];
      prod := Idle;
    }

    /** Bookkeeping for one step of the callback that is about to happen. */
    ghost method Advance(start: State, steps: seq<Action>) returns (steps': seq<Action>)
      requires Model() == Exec(Step, start, steps) && NoCalls(steps)
      ensures steps' == steps + [Produce] && NoCalls(steps')
      ensures Exec(Step, start, steps') == ProduceStep(Model())
    {
      ExecSnoc(Step, start, steps, Produce);
      steps' := steps + [Produce];
    }
  }

  predicate NoCalls(steps: seq<Action>) {
    forall k :: 0 <= k < |steps| ==> !steps[k].Call?
  }

  lemma {:induction false} CallRun(start: State, ev: Event, trace: seq<Action>)
    requires Inv(start) && start.prod.Idle? && Fits(ev, start.cap)
    requires trace != [] && trace[0] == Call(ev) && NoCalls(trace[1..])
    ensures
      var s := Exec(Step, Step(start, Call(ev)), trace[1..]);
      s == Exec(Step, start, trace) && Inv(s) && CallProgress(start, ev, s)
  {
    OneCall(start, ev, trace[1..]);
    ExecSnoc(Step, start, [], Call(ev));
    assert [] + [Call(ev)] == [Call(ev)] && trace == [Call(ev)] + trace[1..];
    ExecConcat(Step, start, [Call(ev)], trace[1..]);
  }

  /** Every slot index in circulation is a real one. */
  ghost predicate InBounds(s: State) {
    && (forall k :: 0 <= k < |s.fifo| ==> s.fifo[k] < |s.slots|)
    && (s.cons.Waiting? || s.cons.i < |s.slots|)
  }

  lemma InvInBounds(s: State)
    requires Inv(s)
    ensures InBounds(s)
  {
    forall k | 0 <= k < |s.fifo| ensures s.fifo[k] < |s.slots| {
      assert Owners(s)[if s.cons.Waiting? then k else k + 1] == s.fifo[k];
      assert s.fifo[k] in Owners(s);
    }
    if !s.cons.Waiting? {
      assert Owners(s)[0] == s.cons.i;
      assert s.cons.i in Owners(s);
    }
  }
}
