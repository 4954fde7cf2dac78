/**
 The watchdog thread of rnb_utils.c.  Time is counted in ticks of a quarter of WATCHDOG_PERIOD; the
 hardware resets the node once four whole ticks have passed without a feed.
 */
module Watchdog {
  import opened Runs

  const MAX_WDT_CYCLES_NO_RX_SIGNAL := 4

  const TICKS_PER_PERIOD := 4

  datatype State = State(
    started: bool,        // rnb_started
    rxReceived: bool,     // rnb_rx_signal_received
    cycles: int,          // cycles_no_rx_signal, an uint8_t
    unfed: nat,           // ticks since the last feed
    reset: bool)          // the hardware has reset the node

  /** A received signal, a sent signal, a change of rnb_started, or one turn of the loop and the sleep after it. */
  datatype Action = RxSignal | TxSignal | SetStarted(on: bool) | Tick

  const BOOT := State(false, false, 0, 0, false)

  function Step(s: State, a: Action): State {
    if s.reset then s
    else
      match a
      case RxSignal => s.(rxReceived := true)
      case TxSignal => s
      case SetStarted(on) => s.(started := on)
      case Tick => Sleep(LoopBody(s))
  }

  function LoopBody(s: State): State {
    var t :=
      if s.started && !s.rxReceived then s.(cycles := (s.cycles + 1) % 256)
      else s.(rxReceived := false, cycles := 0);
    if t.cycles < MAX_WDT_CYCLES_NO_RX_SIGNAL then t.(unfed := 0) else t
  }

  /** A tick passes; the fourth one since the last feed expires the watchdog. */
  function Sleep(s: State): State {
    s.(unfed := s.unfed + 1, reset := s.unfed + 1 >= TICKS_PER_PERIOD)
  }

  // ---------- Silence, read off the run alone ----------

  /** What rnb_started was last set to. */
  function StartedAfter(acts: seq<Action>): bool {
    if acts == [] then false
    else match acts[|acts| - 1]
         case SetStarted(on) => on
         case _ => StartedAfter(acts[..|acts| - 1])
  }

  /** Whether a signal was received since the last tick. */
  function HeardSinceTick(acts: seq<Action>): bool {
    if acts == [] then false
    else match acts[|acts| - 1]
         case RxSignal => true
         case Tick => false
         case _ => HeardSinceTick(acts[..|acts| - 1])
  }

  /** The tick at index i finds the node started and hears nothing since the tick before. */
  predicate SilentTick(acts: seq<Action>, i: nat)
    requires i < |acts|
  {
    acts[i].Tick? && StartedAfter(acts[..i]) && !HeardSinceTick(acts[..i])
  }

  /** How many ticks in a row, up to the end of the run, were silent. */
  function Streak(acts: seq<Action>): nat {
    if acts == [] then 0
    else
      var n := |acts| - 1;
      if !acts[n].Tick? then Streak(acts[..n])
      else if SilentTick(acts, n) then Streak(acts[..n]) + 1
      else 0
  }

  /** The longest streak the run has seen. */
  function LongestStreak(acts: seq<Action>): nat {
    if acts == [] then 0
    else
      var before := LongestStreak(acts[..|acts| - 1]);
      if Streak(acts) > before then Streak(acts) else before
  }

  function Max(a: int, b: int): int {
    if a < b then b else a
  }

  /** The time since the last feed, told from the counter, and whether that was too long. */
  ghost predicate Timing(s: State) {
    && 0 <= s.cycles <= 6
    && (s.reset <==> s.cycles == 6)
    && (if s.cycles == 0 then s.unfed <= 1 else s.unfed == Max(1, s.cycles - 2))
  }

  ghost predicate Inv(acts: seq<Action>, s: State) {
    && Streak(acts) <= LongestStreak(acts)
    && (s.reset <==> LongestStreak(acts) >= 6)
    && Timing(s)
    && (!s.reset ==>
          && s.started == StartedAfter(acts)
          && s.rxReceived == HeardSinceTick(acts)
          && s.cycles == Streak(acts))
  }

  lemma {:induction false} Reachable(acts: seq<Action>)
    ensures Inv(acts, Exec(Step, BOOT, acts))
    decreases |acts|
  {
    if acts != [] {
      var n := |acts| - 1;
      Reachable(acts[..n]);
    }
  }

  // ---------- Main results ----------

  /**
   In every run: until it resets the node, the counter is the current streak of silent ticks; it never
   passes 6, so the uint8_t never wraps; and the node has been reset exactly when the run has seen six
   silent ticks in a row.
   */
  lemma ResetIffSixSilentTicks(acts: seq<Action>)
    ensures
      var s := Exec(Step, BOOT, acts);
      && 0 <= s.cycles <= 6
      && (!s.reset ==> s.cycles == Streak(acts))
      && (s.reset <==> LongestStreak(acts) >= 6)
  {
    Reachable(acts);
  }

  /** A streak of n means the last n ticks were silent: nothing else ended the run in between. */
  lemma {:induction false} StreakIsSilence(acts: seq<Action>, n: nat)
    requires n <= Streak(acts)
    ensures exists from: nat ::
              && from <= |acts|
              && TicksFrom(acts, from) == n
              && forall i :: from <= i < |acts| && acts[i].Tick? ==> SilentTick(acts, i)
    decreases |acts|
  {
    if n == 0 {
      assert TicksFrom(acts, |acts|) == 0;
    } else {
      var k := |acts| - 1;
      var before := acts[..k];
      StreakIsSilence(before, if acts[k].Tick? then n - 1 else n);
      var from: nat :| from <= |before|
        && TicksFrom(before, from) == (if acts[k].Tick? then n - 1 else n)
        && forall i :: from <= i < |before| && before[i].Tick? ==> SilentTick(before, i);
      forall i | from <= i < |acts| && acts[i].Tick? ensures SilentTick(acts, i) {
        if i < k { assert before[..i] == acts[..i]; }
      }
      TicksSnoc(acts, from);
    }
  }

  /** How many ticks the run makes from index `from` on. */
  function TicksFrom(acts: seq<Action>, from: nat): nat
    requires from <= |acts|
    decreases |acts|
  {
    if from == |acts| then 0
    else
      var n := |acts| - 1;
      TicksFrom(acts[..n], from) + (if acts[n].Tick? then 1 else 0)
  }

  lemma TicksSnoc(acts: seq<Action>, from: nat)
    requires from < |acts|
    ensures TicksFrom(acts, from) == TicksFrom(acts[..|acts| - 1], from) + (if acts[|acts| - 1].Tick? then 1 else 0)
  {
  }

  /** How many more silent ticks a started node survives. */
  function TicksLeft(s: State): nat
    requires 0 <= s.cycles <= 6
  {
    if s.reset then 0 else if s.rxReceived then 7 else 6 - s.cycles
  }

  lemma SilentTickCounts(s: State)
    requires !s.reset && s.started && Timing(s)
    ensures
      var t := Step(s, Tick);
      Timing(t) && t.started && TicksLeft(t) == TicksLeft(s) - 1 && (t.reset <==> TicksLeft(t) == 0)
  {
  }

  lemma {:induction false} SilenceFrom(s: State, n: nat)
    requires s.started && Timing(s)
    ensures Exec(Step, s, Repeat(Tick, n)).reset <==> n >= TicksLeft(s)
    decreases n
  {
    if n > 0 {
      ExecRepeat(Step, s, Tick, n - 1);
      if s.reset {
        StaysReset(s, Repeat(Tick, n));
      } else {
        SilentTickCounts(s);
        SilenceFrom(Step(s, Tick), n - 1);
      }
    }
  }

  lemma {:induction false} StaysReset(s: State, acts: seq<Action>)
    requires s.reset
    ensures Exec(Step, s, acts) == s
    decreases |acts|
  {
    if acts != [] { StaysReset(s, acts[..|acts| - 1]); }
  }

  /**
   From any reachable state of a started node, n ticks of continued silence reset it if and only if
   n is at least 6 less the streak so far, or 7 if a signal was just heard: never more than 7.
   */
  lemma SilenceResets(acts: seq<Action>, n: nat)
    requires !Exec(Step, BOOT, acts).reset && Exec(Step, BOOT, acts).started
    ensures
      var s := Exec(Step, BOOT, acts);
      && 0 <= s.cycles <= 6 && TicksLeft(s) <= 7
      && (Exec(Step, BOOT, acts + Repeat(Tick, n)).reset <==> n >= TicksLeft(s))
  {
    var s := Exec(Step, BOOT, acts);
    Reachable(acts);
    ExecConcat(Step, BOOT, acts, Repeat(Tick, n));
    SilenceFrom(s, n);
  }

  // ---------- The code ----------

  class WatchdogThread {
    var rnbStarted: bool
    var rnbRxSignalReceived: bool
    var cyclesNoRxSignal: int
    var unfed: nat
    var expired: bool

    ghost function Model(): State
      reads this
    {
      State(rnbStarted, rnbRxSignalReceived, cyclesNoRxSignal, unfed, expired)
    }

    constructor ()
      ensures Model() == BOOT
    {
      rnbStarted, rnbRxSignalReceived, cyclesNoRxSignal, unfed, expired := false, false, 0, 0, false;
    }

    /** handle_rnb_user_rxtx_signal */
    method HandleSignal(rx: bool)
      requires !expired
      modifies this
      ensures Model() == Step(old(Model()), if rx then RxSignal else TxSignal)
    {
      if rx { rnbRxSignalReceived := true; }
    }

    /** What happens between two turns of the loop. */
    method Between(signals: seq<Action>)
      requires !expired && forall k :: 0 <= k < |signals| ==> !signals[k].Tick?
      modifies this
      ensures !expired && Model() == Exec(Step, old(Model()), signals)
    {
      for i := 0 to |signals|
        invariant !expired && Model() == Exec(Step, old(Model()), signals[..i])
      {
        assert signals[..i + 1] == signals[..i] + [signals[i]];
        ExecSnoc(Step, old(Model()), signals[..i], signals[i]);
        match signals[i] {
          case SetStarted(on) => rnbStarted := on;
          case RxSignal => HandleSignal(true);
          case TxSignal => HandleSignal(false);
        }
      }
      assert signals[..|signals|] == signals;
    }

    /** One turn of the loop, and the sleep after it. */
    method Turn()
      requires !expired
      modifies this
      ensures Model() == Step(old(Model()), Tick)
    {
      if rnbStarted && !rnbRxSignalReceived {
        cyclesNoRxSignal := (cyclesNoRxSignal + 1) % 256;
      } else {
        rnbRxSignalReceived := false;
        cyclesNoRxSignal := 0;
      }
      if cyclesNoRxSignal < MAX_WDT_CYCLES_NO_RX_SIGNAL {
        unfed := 0;
      }
      unfed := unfed + 1;
      expired := unfed >= TICKS_PER_PERIOD;
    }

    /**
     rnb_wdt_process_thread: the endless loop, up to a reset or to the end of what is known of the
     outside: `world[i]` is what happens before turn i.
     */
    method ProcessThread(world: seq<seq<Action>>) returns (turns: nat, ghost run: seq<Action>)
      requires !expired
      requires forall i, k :: 0 <= i < |world| && 0 <= k < |world[i]| ==> !world[i][k].Tick?
      modifies this
      ensures turns <= |world| && run == Interleaved(world[..turns])
      ensures Model() == Exec(Step, old(Model()), run)
      ensures !expired ==> turns == |world|
    {
      turns := 0;
      run := [];
      while turns < |world| && !expired
        invariant turns <= |world| && run == Interleaved(world[..turns])
        invariant Model() == Exec(Step, old(Model()), run)
      {
        assert world[..turns + 1][..turns] == world[..turns];
        ExecConcat(Step, old(Model()), run, world[turns]);
        ExecSnoc(Step, old(Model()), run + world[turns], Tick);
        Between(world[turns]);

        Turn();
        run := run + world[turns] + [Tick];
        turns := turns + 1;
      }
    }
  }

  /** The run in which a tick follows each stretch of outside events. */
  ghost function Interleaved(world: seq<seq<Action>>): seq<Action> {
    if world == [] then []
    else Interleaved(world[..|world| - 1]) + world[|world| - 1] + [Tick]
  }
}
