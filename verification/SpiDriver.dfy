/**
 The SPI driver of rnb_ranging_spi.c.  A transfer is a sequence of small steps; between any two of
 them an interrupt may run driver calls of its own to completion.
 */
module SpiDriver {
  import opened Machine

  /** NRF_SPI_FREQ_*, in Hz. */
  const SUPPORTED := {125_000, 250_000, 500_000, 1_000_000, 2_000_000, 4_000_000, 8_000_000}

  function GetNrfSpiFrequency(frequency: nat): nat {
    if frequency < 250_000 then 125_000
    else if frequency < 500_000 then 250_000
    else if frequency < 1_000_000 then 500_000
    else if frequency < 2_000_000 then 1_000_000
    else if frequency < 4_000_000 then 2_000_000
    else if frequency < 8_000_000 then 4_000_000
    else 8_000_000
  }

  /**
   The chosen frequency is supported, and no supported frequency that does not exceed the request is
   higher.  It does not exceed the request itself if and only if the request is at least 125 kHz.
   */
  lemma HighestSupported(frequency: nat)
    ensures
      var f := GetNrfSpiFrequency(frequency);
      && f in SUPPORTED
      && (f <= frequency <==> frequency >= 125_000)
      && forall g :: g in SUPPORTED && g <= frequency ==> g <= f
  {
  }

  datatype ChipSelect = Disconnected | Inactive | Active

  /** Who drives the chip select: activate_cs/deactivate_cs, or one transfer. */
  datatype Owner = Manual | Transfer(id: nat)

  /** What a device on the bus sees. */
  datatype BusOp =
    | Select(owner: Owner)
    | Deselect(owner: Owner)
    | Header(id: nat, bytes: seq<byte>, ok: bool)
    | Body(id: nat, write: bool, bytes: seq<byte>, ok: bool)

  /**
   A driver call, with what the hardware answers and, for a transfer, the calls that interrupts make
   after the lock is taken, after chip select, after the header, after the body and after deselect.
   */
  datatype Call =
    | Open(initOk: bool)
    | Close
    | SpeedSlow
    | SpeedFast
    | ActivateCs
    | DeactivateCs
    | Xfer(write: bool, header: seq<byte>, body: seq<byte>, headerOk: bool, bodyOk: bool,
           locked: seq<Call>, selected: seq<Call>, afterHeader: seq<Call>, afterBody: seq<Call>, released: seq<Call>)

  datatype State = State(
    fastHz: nat,              // spi-max-frequency of the device tree
    initialized: bool,        // spi_initialized
    busy: bool,               // spi_busy
    cfg: nat,                 // spi_cfg, as an index into spi_cfgs
    busHz: nat,               // the frequency register
    cs: ChipSelect,
    transfers: nat,           // how many transfers have taken the lock
    trace: seq<BusOp>)

  function Boot(fastHz: nat): State {
    State(fastHz, false, false, 0, 0, Disconnected, 0, [])
  }

  /** The frequency chosen for a configuration. */
  function BusHz(s: State, cfg: nat): nat {
    GetNrfSpiFrequency(if cfg == 0 then 2_000_000 else s.fastHz)
  }

  /** set_spi_speed_slow/fast; a driver that does not trust its cache would write every time. */
  function SetSpeed(s: State, cfg: nat, trustCache: bool): State {
    if !s.initialized || s.busy then s
    else if trustCache && s.cfg == cfg then s
    else s.(cfg := cfg, busHz := BusHz(s, cfg))
  }

  function Do(s: State, cs: ChipSelect, op: BusOp): State {
    s.(cs := cs, trace := s.trace + [op])
  }

  function Put(s: State, op: BusOp): State {
    s.(trace := s.trace + [op])
  }

  function Exec(s: State, c: Call, trustCache: bool): (State, int)
    decreases c, 1
  {
    match c
    case Open(initOk) =>
      if s.busy || s.initialized then (s, -EIO)
      else if !initOk then (s.(cfg := 0), -EIO)
      else (s.(cfg := 0, busHz := BusHz(s, 0), cs := Inactive, initialized := true), 0)
    case Close =>
      if s.busy then (s, -EIO)
      else if s.initialized then (s.(cs := Disconnected, initialized := false), 0)
      else (s, 0)
    case SpeedSlow => (SetSpeed(s, 0, trustCache), 0)
    case SpeedFast => (SetSpeed(s, 1, trustCache), 0)
    case ActivateCs =>
      if !s.initialized || s.busy then (s, -EIO) else (Do(s, Active, Select(Manual)), 0)
    case DeactivateCs =>
      if !s.initialized || s.busy then (s, -EIO) else (Do(s, Inactive, Deselect(Manual)), 0)
    case Xfer(_, _, _, headerOk, bodyOk, locked, selected, _, _, released) =>
      if !s.initialized || s.busy then (s, -EIO)
      else
        var id := s.transfers;
        var s1 := ExecAll(s.(busy := true, transfers := id + 1), locked, trustCache);
        var s2 := ExecAll(Do(s1, Active, Select(Transfer(id))), selected, trustCache);
        var s5 := ExecAll(Do(Exchanged(s2, c, id, trustCache), Inactive, Deselect(Transfer(id))), released, trustCache);
        (s5.(busy := false), if headerOk && bodyOk then 0 else -EIO)
  }

  /** The part of a transfer under chip select: the header, and the body unless the header failed. */
  function Exchanged(s: State, c: Call, id: nat, trustCache: bool): State
    requires c.Xfer?
    decreases c, 0
  {
    var t := ExecAll(Put(s, Header(id, c.header, c.headerOk)), c.afterHeader, trustCache);
    if c.headerOk then ExecAll(Put(t, Body(id, c.write, c.body, c.bodyOk)), c.afterBody, trustCache) else t
  }

  /** Calls one after the other. */
  function ExecAll(s: State, calls: seq<Call>, trustCache: bool): State
    decreases calls, 0
  {
    if calls == [] then s
    else
      var n := |calls| - 1;
      Exec(ExecAll(s, calls[..n], trustCache), calls[n], trustCache).0
  }

  // ---------- Nested calls ----------

  /** What a call made while a transfer holds the lock returns: the speed calls return nothing. */
  function Refusal(c: Call): int {
    if c.SpeedSlow? || c.SpeedFast? then 0 else -EIO
  }

  /** A call made while the lock is held is refused and changes nothing. */
  lemma NestedRefused(s: State, c: Call, trustCache: bool)
    requires s.busy
    ensures Exec(s, c, trustCache) == (s, Refusal(c))
  {
  }

  lemma {:induction false} AllNestedRefused(s: State, calls: seq<Call>, trustCache: bool)
    requires s.busy
    ensures ExecAll(s, calls, trustCache) == s
    decreases |calls|
  {
    if calls != [] {
      AllNestedRefused(s, calls[..|calls| - 1], trustCache);
      NestedRefused(s, calls[|calls| - 1], trustCache);
    }
  }

  /** What one transfer puts on the bus. */
  function Frame(id: nat, c: Call): seq<BusOp>
    requires c.Xfer?
  {
    [Select(Transfer(id)), Header(id, c.header, c.headerOk)]
    + (if c.headerOk then [Body(id, c.write, c.body, c.bodyOk)] else [])
    + [Deselect(Transfer(id))]
  }

  /**
   Whatever interrupts attempt after the lock is taken, a transfer puts its header and body next to each
   other under one chip select, and leaves with the chip deselected and the lock free on every path.
   */
  lemma TransferIsAtomic(s: State, c: Call, trustCache: bool)
    requires c.Xfer? && s.initialized && !s.busy
    ensures
      && Exec(s, c, trustCache) ==
         (s.(cs := Inactive, transfers := s.transfers + 1, trace := s.trace + Frame(s.transfers, c)),
          if c.headerOk && c.bodyOk then 0 else -EIO)
      && Frame(s.transfers, c) ==
         [Select(Transfer(s.transfers)), Header(s.transfers, c.header, c.headerOk)]
         + (if c.headerOk then [Body(s.transfers, c.write, c.body, c.bodyOk)] else [])
         + [Deselect(Transfer(s.transfers))]
  {
    var id := s.transfers;
    var s1 := s.(busy := true, transfers := id + 1);
    AllNestedRefused(s1, c.locked, trustCache);
    var s2 := Do(s1, Active, Select(Transfer(id)));
    AllNestedRefused(s2, c.selected, trustCache);
    var s3 := Put(s2, Header(id, c.header, c.headerOk));
    AllNestedRefused(s3, c.afterHeader, trustCache);
    var s4 := if c.headerOk then Put(s3, Body(id, c.write, c.body, c.bodyOk)) else s3;
    AllNestedRefused(s4, c.afterBody, trustCache);
    var s5 := Do(s4, Inactive, Deselect(Transfer(id)));
    AllNestedRefused(s5, c.released, trustCache);
    assert s5.trace == s.trace + Frame(id, c);
  }

  // ---------- Whole runs ----------

  /** Every header and body sits inside the chip select of its own transfer, in its place. */
  ghost predicate Framed(trace: seq<BusOp>, i: nat)
    requires i < |trace|
  {
    match trace[i]
    case Header(id, _, ok) =>
      && 0 < i && trace[i - 1] == Select(Transfer(id))
      && i + 1 < |trace|
      && (if ok then trace[i + 1].Body? && trace[i + 1].id == id else trace[i + 1] == Deselect(Transfer(id)))
    case Body(id, _, _, _) =>
      && 1 < i && trace[i - 1].Header? && trace[i - 1].id == id && trace[i - 1].ok
      && i + 1 < |trace| && trace[i + 1] == Deselect(Transfer(id))
    case _ => true
  }

  ghost predicate WellFramed(s: State) {
    && (forall i :: 0 <= i < |s.trace| ==> Framed(s.trace, i))
    && (forall i :: 0 <= i < |s.trace| && s.trace[i].Header? ==> s.trace[i].id < s.transfers)
    && (forall i, j :: 0 <= i < j < |s.trace| && s.trace[i].Header? && s.trace[j].Header? ==>
          s.trace[i].id != s.trace[j].id)
  }

  ghost predicate Inv(s: State) {
    && !s.busy
    && s.cfg <= 1
    && (s.initialized ==> s.busHz == BusHz(s, s.cfg))
    && (s.initialized <==> s.cs != Disconnected)
    && WellFramed(s)
  }

  /** Appending to the trace leaves what is framed framed. */
  lemma FramedPrefix(trace: seq<BusOp>, more: seq<BusOp>, i: nat)
    requires i < |trace| && Framed(trace, i)
    ensures Framed(trace + more, i)
  {
    assert forall k :: 0 <= k < |trace| ==> (trace + more)[k] == trace[k];
  }

  /** The frame of one transfer is framed wherever it stands. */
  lemma FrameIsFramed(trace: seq<BusOp>, id: nat, c: Call, i: nat)
    requires c.Xfer? && i < |Frame(id, c)|
    ensures Framed(trace + Frame(id, c), |trace| + i)
    ensures Frame(id, c)[i].Header? ==> i == 1 && Frame(id, c)[i].id == id
  {
    var n, all := |trace|, trace + Frame(id, c);
    assert all[n] == Select(Transfer(id)) && all[n + 1] == Header(id, c.header, c.headerOk);
    if c.headerOk {
      assert all[n + 2] == Body(id, c.write, c.body, c.bodyOk) && all[n + 3] == Deselect(Transfer(id));
    } else {
      assert all[n + 2] == Deselect(Transfer(id));
    }
  }

  lemma AppendFrame(s: State, c: Call)
    requires WellFramed(s) && c.Xfer?
    ensures WellFramed(s.(transfers := s.transfers + 1, trace := s.trace + Frame(s.transfers, c)))
  {
    var frame := Frame(s.transfers, c);
    var n, all := |s.trace|, s.trace + frame;
    forall i | 0 <= i < |all|
      ensures Framed(all, i)
      ensures all[i].Header? ==> if i < n then all[i] == s.trace[i] else i == n + 1 && all[i].id == s.transfers
    {
      if i < n { FramedPrefix(s.trace, frame, i); } else { FrameIsFramed(s.trace, s.transfers, c, i - n); }
    }
  }

  lemma AppendManual(s: State, op: BusOp)
    requires WellFramed(s) && !op.Header? && !op.Body?
    ensures WellFramed(Put(s, op))
  {
    var all := s.trace + [op];
    forall i | 0 <= i < |all| ensures Framed(all, i) {
      if i < |s.trace| { FramedPrefix(s.trace, [op], i); }
    }
  }

  lemma CallKeepsInv(s: State, c: Call, trustCache: bool)
    requires Inv(s)
    ensures Inv(Exec(s, c, trustCache).0)
  {
    match c {
      case ActivateCs => AppendManual(s, Select(Manual));
      case DeactivateCs => AppendManual(s, Deselect(Manual));
      case Xfer(_, _, _, _, _, _, _, _, _, _) =>
        if s.initialized {
          TransferIsAtomic(s, c, trustCache);
          AppendFrame(s, c);
        }
      case _ =>
    }
  }

  lemma {:induction false} Reachable(fastHz: nat, calls: seq<Call>)
    ensures Inv(ExecAll(Boot(fastHz), calls, true))
    decreases |calls|
  {
    if calls != [] {
      Reachable(fastHz, calls[..|calls| - 1]);
      CallKeepsInv(ExecAll(Boot(fastHz), calls[..|calls| - 1], true), calls[|calls| - 1], true);
    }
  }

  /** For every run, interrupts nesting calls in every transfer: the bus trace is well framed and the lock free. */
  lemma EveryRunIsFramed(fastHz: nat, calls: seq<Call>)
    ensures var s := ExecAll(Boot(fastHz), calls, true); !s.busy && WellFramed(s)
  {
    Reachable(fastHz, calls);
  }

  /** For every run, failed opens included: an initialised bus runs at the frequency chosen for spi_cfg. */
  lemma CachedSpeedIsBusSpeed(fastHz: nat, calls: seq<Call>)
    ensures var s := ExecAll(Boot(fastHz), calls, true); s.cfg <= 1 && (s.initialized ==> s.busHz == BusHz(s, s.cfg))
  {
    Reachable(fastHz, calls);
  }

  lemma SameCall(s: State, c: Call)
    requires Inv(s)
    ensures Exec(s, c, true) == Exec(s, c, false)
  {
    if c.Xfer? && s.initialized {
      TransferIsAtomic(s, c, true);
      TransferIsAtomic(s, c, false);
    }
  }

  /** Skipping the hardware write when the configuration is unchanged is safe: no run can tell the difference. */
  lemma {:induction false} CacheIsTransparent(fastHz: nat, calls: seq<Call>)
    ensures ExecAll(Boot(fastHz), calls, true) == ExecAll(Boot(fastHz), calls, false)
    decreases |calls|
  {
    if calls != [] {
      var before := calls[..|calls| - 1];
      CacheIsTransparent(fastHz, before);
      Reachable(fastHz, before);
      SameCall(ExecAll(Boot(fastHz), before, true), calls[|calls| - 1]);
    }
  }

  // ---------- The driver's state, read off the calls ----------

  /** Open since an open that the hardware accepted. */
  function IsOpen(calls: seq<Call>): bool {
    if calls == [] then false
    else
      var before := IsOpen(calls[..|calls| - 1]);
      match calls[|calls| - 1]
      case Open(initOk) => before || initOk
      case Close => false
      case _ => before
  }

  /** The fast configuration was the last one selected: opening a closed bus selects the slow one. */
  function IsFast(calls: seq<Call>): bool {
    if calls == [] then false
    else
      var before, open := IsFast(calls[..|calls| - 1]), IsOpen(calls[..|calls| - 1]);
      match calls[|calls| - 1]
      case Open(_) => before && open
      case SpeedSlow => before && !open
      case SpeedFast => before || open
      case _ => before
  }

  /** The chip was selected by hand, and neither deselected since, nor left deselected by a transfer or a new open. */
  function IsSelected(calls: seq<Call>): bool {
    if calls == [] then false
    else
      var before, open := IsSelected(calls[..|calls| - 1]), IsOpen(calls[..|calls| - 1]);
      match calls[|calls| - 1]
      case Open(_) => before && open
      case Close => false
      case ActivateCs => open
      case DeactivateCs => false
      case Xfer(_, _, _, _, _, _, _, _, _, _) => false
      case _ => before
  }

  /** How many transfers found the bus open. */
  function TransfersIn(calls: seq<Call>): nat {
    if calls == [] then 0
    else
      var before := calls[..|calls| - 1];
      TransfersIn(before) + if calls[|calls| - 1].Xfer? && IsOpen(before) then 1 else 0
  }

  /** What a device on the bus sees of one more call. */
  function SeenOf(before: seq<Call>, c: Call): seq<BusOp> {
    if !IsOpen(before) then []
    else
      var id := TransfersIn(before);
      match c
      case ActivateCs => [Select(Manual)]
      case DeactivateCs => [Deselect(Manual)]
      case Xfer(write, header, body, headerOk, bodyOk, _, _, _, _, _) =>
        if headerOk
        then [Select(Transfer(id)), Header(id, header, true), Body(id, write, body, bodyOk), Deselect(Transfer(id))]
        else [Select(Transfer(id)), Header(id, header, false), Deselect(Transfer(id))]
      case _ => []
  }

  function SeenOnBus(calls: seq<Call>): seq<BusOp> {
    if calls == [] then []
    else SeenOnBus(calls[..|calls| - 1]) + SeenOf(calls[..|calls| - 1], calls[|calls| - 1])
  }

  /** The state that these calls should leave behind. */
  ghost predicate ReadsOff(s: State, fastHz: nat, calls: seq<Call>) {
    && s.fastHz == fastHz && !s.busy
    && s.initialized == IsOpen(calls)
    && s.cfg == (if IsFast(calls) then 1 else 0)
    && (IsOpen(calls) ==> s.busHz == if IsFast(calls) then GetNrfSpiFrequency(fastHz) else 2_000_000)
    && s.cs == (if !IsOpen(calls) then Disconnected else if IsSelected(calls) then Active else Inactive)
    && s.transfers == TransfersIn(calls)
    && s.trace == SeenOnBus(calls)
  }

  lemma CallReadsOff(s: State, fastHz: nat, before: seq<Call>, c: Call)
    requires ReadsOff(s, fastHz, before) && !c.Xfer?
    ensures ReadsOff(Exec(s, c, true).0, fastHz, before + [c])
  {
    assert (before + [c])[..|before|] == before;
  }

  lemma TransferReadsOff(s: State, fastHz: nat, before: seq<Call>, c: Call)
    requires ReadsOff(s, fastHz, before) && c.Xfer?
    ensures ReadsOff(Exec(s, c, true).0, fastHz, before + [c])
  {
    assert (before + [c])[..|before|] == before;
    if s.initialized { TransferIsAtomic(s, c, true); }
  }

  /**
   Over every run, interrupts nesting calls in every transfer: whether the bus is open, at which speed it
   runs, whether the chip is selected and what a device has seen follow from the outer calls alone.  An
   open bus runs at 2 MHz, or after an accepted SpeedFast at the frequency chosen for the device.
   */
  lemma {:induction false} RunReadsOff(fastHz: nat, calls: seq<Call>)
    ensures
      var s := ExecAll(Boot(fastHz), calls, true);
      && !s.busy
      && s.initialized == IsOpen(calls)
      && (IsOpen(calls) ==> s.busHz == if IsFast(calls) then GetNrfSpiFrequency(fastHz) else 2_000_000)
      && s.cs == (if !IsOpen(calls) then Disconnected else if IsSelected(calls) then Active else Inactive)
      && s.trace == SeenOnBus(calls)
    decreases |calls|
  {
    StateReadsOff(fastHz, calls);
  }

  lemma {:induction false} StateReadsOff(fastHz: nat, calls: seq<Call>)
    ensures ReadsOff(ExecAll(Boot(fastHz), calls, true), fastHz, calls)
    decreases |calls|
  {
    if calls != [] {
      var before, c := calls[..|calls| - 1], calls[|calls| - 1];
      StateReadsOff(fastHz, before);
      assert calls == before + [c];
      if c.Xfer? {
        TransferReadsOff(ExecAll(Boot(fastHz), before, true), fastHz, before, c);
      } else {
        CallReadsOff(ExecAll(Boot(fastHz), before, true), fastHz, before, c);
      }
    }
  }

  /** And every call returns 0 or -EIO according to the calls before it and the hardware's own answers. */
  lemma ReturnsReadOff(fastHz: nat, calls: seq<Call>, c: Call)
    ensures
      var ret := Exec(ExecAll(Boot(fastHz), calls, true), c, true).1;
      var good :=
        match c
        case Open(initOk) => !IsOpen(calls) && initOk
        case Close => true
        case SpeedSlow => true
        case SpeedFast => true
        case ActivateCs => IsOpen(calls)
        case DeactivateCs => IsOpen(calls)
        case Xfer(_, _, _, headerOk, bodyOk, _, _, _, _, _) => IsOpen(calls) && headerOk && bodyOk;
      ret == if good then 0 else -EIO
  {
    StateReadsOff(fastHz, calls);
    var s := ExecAll(Boot(fastHz), calls, true);
    if c.Xfer? && s.initialized { TransferIsAtomic(s, c, true); }
  }

  // ---------- The code ----------

  class Driver {
    const fastHz: nat
    var spiInitialized: bool
    var spiBusy: bool
    var spiCfg: nat
    var busHz: nat
    var cs: ChipSelect
    ghost var transfers: nat
    ghost var trace: seq<BusOp>

    ghost function Model(): State
      reads this
    {
      State(fastHz, spiInitialized, spiBusy, spiCfg, busHz, cs, transfers, trace)
    }

    constructor (fastHz: nat)
      ensures Model() == Boot(fastHz)
    {
      this.fastHz := fastHz;
      spiInitialized, spiBusy, spiCfg, busHz, cs := false, false, 0, 0, Disconnected;
      transfers, trace := 0, [];
    }

    method OpenSpi(initOk: bool) returns (ret: int)
      modifies this
      ensures (Model(), ret) == Exec(old(Model()), Open(initOk), true)
    {
      if spiBusy { return -EIO; }
      if spiInitialized { return -EIO; }
      spiCfg := 0;
      if !initOk { return -EIO; }
      busHz := GetNrfSpiFrequency(2_000_000);
      cs := Inactive;
      spiInitialized := true;
      return 0;
    }

    method CloseSpi() returns (ret: int)
      modifies this
      ensures (Model(), ret) == Exec(old(Model()), Close, true)
    {
      if spiBusy { return -EIO; }
      if spiInitialized {
        cs := Disconnected;
        spiInitialized := false;
      }
      return 0;
    }

    method SetSpiSpeedSlow()
      modifies this`spiCfg, this`busHz
      ensures Model() == SetSpeed(old(Model()), 0, true)
    {
      if !spiInitialized || spiBusy { return; }
      if spiCfg != 0 {
        spiCfg := 0;
        busHz := GetNrfSpiFrequency(2_000_000);
      }
    }

    method SetSpiSpeedFast()
      modifies this`spiCfg, this`busHz
      ensures Model() == SetSpeed(old(Model()), 1, true)
    {
      if !spiInitialized || spiBusy { return; }
      if spiCfg != 1 {
        spiCfg := 1;
        busHz := GetNrfSpiFrequency(fastHz);
      }
    }

    /** gpio_pin_set_dt on the chip select. */
    method SetCs(active: bool, ghost owner: Owner)
      modifies this`cs, this`trace
      ensures Model() == if active then Do(old(Model()), Active, Select(owner))
                         else Do(old(Model()), Inactive, Deselect(owner))
    {
      cs := if active then Active else Inactive;
      trace := trace + [if active then Select(owner) else Deselect(owner)];
    }

    method ActivateCs() returns (ret: int)
      modifies this`cs, this`trace
      ensures (Model(), ret) == Exec(old(Model()), Call.ActivateCs, true)
    {
      if !spiInitialized || spiBusy { return -EIO; }
      SetCs(true, Manual);
      return 0;
    }

    method DeactivateCs() returns (ret: int)
      modifies this`cs, this`trace
      ensures (Model(), ret) == Exec(old(Model()), Call.DeactivateCs, true)
    {
      if !spiInitialized || spiBusy { return -EIO; }
      SetCs(false, Manual);
      return 0;
    }

    /** writetospi and readfromspi, with the interrupts that hit them. */
    method TransferSpi(c: Call) returns (ret: int)
      requires c.Xfer?
      modifies this
      ensures (Model(), ret) == Exec(old(Model()), c, true)
      decreases c, 1
    {
      // interrupts disabled
      if !spiInitialized || spiBusy { return -EIO; }
      spiBusy := true;
      // interrupts enabled
      ghost var id := transfers;
      transfers := transfers + 1;
      Interrupt(c.locked);
      SetCs(true, Transfer(id));
      Interrupt(c.selected);
      ret := Exchange(c, id);
      SetCs(false, Transfer(id));
      Interrupt(c.released);
      spiBusy := false;
    }

    /** The part under chip select: the header, and the body unless the header failed. */
    method Exchange(c: Call, ghost id: nat) returns (ret: int)
      requires c.Xfer?
      modifies this
      ensures Model() == Exchanged(old(Model()), c, id, true)
      ensures ret == if c.headerOk && c.bodyOk then 0 else -EIO
      decreases c, 0
    {
      trace := trace + [Header(id, c.header, c.headerOk)];
      Interrupt(c.afterHeader);
      if !c.headerOk { return -EIO; }
      trace := trace + [Body(id, c.write, c.body, c.bodyOk)];
      Interrupt(c.afterBody);
      if !c.bodyOk { return -EIO; }
      return 0;
    }

    method Perform(c: Call) returns (ret: int)
      modifies this
      ensures (Model(), ret) == Exec(old(Model()), c, true)
      decreases c, 2
    {
      match c {
        case Open(initOk) => ret := OpenSpi(initOk);
        case Close => ret := CloseSpi();
        case SpeedSlow => SetSpiSpeedSlow(); ret := 0;
        case SpeedFast => SetSpiSpeedFast(); ret := 0;
        case ActivateCs => ret := ActivateCs();
        case DeactivateCs => ret := DeactivateCs();
        case Xfer(_, _, _, _, _, _, _, _, _, _) => ret := TransferSpi(c);
      }
    }

    /** An interrupt runs its calls to completion. */
    method Interrupt(calls: seq<Call>)
      modifies this
      ensures Model() == ExecAll(old(Model()), calls, true)
      decreases calls, 0
    {
      for i := 0 to |calls|
        invariant Model() == ExecAll(old(Model()), calls[..i], true)
      {
        assert calls[..i + 1][..i] == calls[..i];
        var _ := Perform(calls[i]);
      }
      assert calls[..|calls|] == calls;
    }
  }
}
