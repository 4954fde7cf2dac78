/**
 The UDP echo client: udp.c and the thread in echo-client.c that drives it, with TCP disabled.
 The client thread, the reply timer, the connection manager and the network take turns.
 */
module EchoUdp {
  import opened Machine
  import opened Runs
  import opened EchoNet

  /**
   The client thread waits for run_app, is at the head of the inner loop with the last return value, in
   poll, or in process_udp_proto: with a datagram in recv_buf, or with one that compared equal.
   */
  datatype Thread = Waiting | Looping(ret: int) | Polling | Holding(got: seq<byte>) | Correct

  datatype State = State(
    text: seq<byte>,       // lorem_ipsum
    net: Net,
    connected: bool,
    runApp: bool,          // the permit of run_app
    mtu: nat,
    thread: Thread,
    armed: bool,           // the recv work is scheduled
    expecting: nat,
    counter: uint32,
    serving: bool,         // the socket is open and connected; not read by the code
    attempts: nat)         // calls of send so far; not read by the code

  /** What recv returns: a datagram, nothing yet, zero, or an error. */
  datatype Recv = Datagram(i: nat) | Empty | Zero | Failed(errno: int)

  datatype Action =
    | LinkUp(mtu: nat)
    | LinkDown
    | Begin(socketOk: bool, draw: nat, sendOk: bool)
    | Poll
    | Read(recv: Recv)
    | Compare
    | Answer(draw: nat, sendOk: bool)
    | End
    | Timeout(draw: nat, sendOk: bool)
    | Channel(a: NetAction)

  function Boot(text: seq<byte>): State {
    State(text, QUIET, false, false, 0, Waiting, false, 0, 0, false, 0)
  }

  /** The lengths the draw of send_udp_data accepts. */
  predicate Accepted(text: seq<byte>, mtu: nat, draw: nat) {
    0 < draw < |text| && draw <= mtu
  }

  /** Some number in the random stream is accepted: the draw loop ends. */
  predicate DrawEnds(text: seq<byte>, mtu: nat, rands: seq<uint32>) {
    |text| > 0 && exists k :: 0 <= k < |rands| && Accepted(text, mtu, rands[k] % |text|)
  }

  /** Some length is accepted at all; otherwise the draw goes on for ever. */
  predicate CanDraw(text: seq<byte>, mtu: nat) {
    |text| > 1 && mtu > 0
  }

  /** send_udp_data, without its return value. */
  function SendData(s: State, draw: nat, sendOk: bool): State {
    s.(expecting := draw,
       net := if sendOk then Send(s.net, if draw <= |s.text| then s.text[..draw] else []) else s.net,
       armed := true,
       attempts := s.attempts + 1)
  }

  function Ret(sendOk: bool): int {
    if sendOk then 0 else -EIO
  }

  /** What recv leaves in recv_buf: a longer datagram is cut. */
  function Received(datagram: seq<byte>): seq<byte> {
    if |datagram| <= RECV_BUF_SIZE then datagram else datagram[..RECV_BUF_SIZE]
  }

  /** compare_udp_data */
  predicate Matches(s: State, got: seq<byte>) {
    |got| == s.expecting && |got| <= |s.text| && got == s.text[..|got|]
  }

  function Step(s: State, a: Action): State {
    match a
    case LinkUp(mtu) => s.(connected := true, mtu := mtu, runApp := true)
    case LinkDown => s.(connected := false, runApp := false)
    case Begin(socketOk, draw, sendOk) => BeginStep(s, socketOk, draw, sendOk)
    case Poll =>
      if s.thread == Looping(0) && s.connected then s.(thread := Polling) else s
    case Read(recv) => if s.thread.Polling? then ReadStep(s, recv) else s
    case Compare => if s.thread.Holding? then CompareStep(s) else s
    case Answer(draw, sendOk) =>
      if s.thread.Correct? && Accepted(s.text, s.mtu, draw) then AnswerStep(s, draw, sendOk) else s
    case End =>
      if s.thread.Looping? && (!s.connected || s.thread.ret != 0)
      then s.(armed := false, serving := false, thread := Waiting)
      else s
    case Timeout(draw, sendOk) =>
      if s.armed && Accepted(s.text, s.mtu, draw) then SendData(s, draw, sendOk) else s
    case Channel(na) => s.(net := Carry(s.net, na))
  }

  /** The thread takes run_app and starts; opening the socket may fail. */
  function BeginStep(s: State, socketOk: bool, draw: nat, sendOk: bool): State {
    if !s.thread.Waiting? || !s.runApp then s
    else
      var t := s.(runApp := false, armed := false);
      if !socketOk then t.(thread := Looping(-EIO))
      else if !Accepted(s.text, s.mtu, draw) then s
      else SendData(t.(serving := true, thread := Looping(Ret(sendOk))), draw, sendOk)
  }

  /** recv; there may be nothing left to read. */
  function ReadStep(s: State, recv: Recv): State {
    match recv
    case Empty => s.(thread := Looping(0))
    case Zero => s.(thread := Looping(-EIO))
    case Failed(errno) => s.(thread := Looping(-errno))
    case Datagram(i) =>
      if i >= |s.net.replies| then s.(thread := Looping(0))
      else s.(net := Deliver(s.net, i), thread := Holding(Received(s.net.replies[i])))
  }

  function CompareStep(s: State): State
    requires s.thread.Holding?
  {
    if Matches(s, s.thread.got) then s.(thread := Correct)
    else s.(thread := Looping(0))
  }

  /** Count the reply, cancel the timer and send again. */
  function AnswerStep(s: State, draw: nat, sendOk: bool): State {
    SendData(s.(counter := Wrap32(s.counter + 1),
                armed := false,
                thread := Looping(Ret(sendOk))),
             draw, sendOk)
  }

  // ---------- What a step does, told from the state before it ----------

  /** The socket is opened and the first packet sent. */
  predicate Starts(s: State, a: Action) {
    a.Begin? && s.thread.Waiting? && s.runApp && a.socketOk && Accepted(s.text, s.mtu, a.draw)
  }

  /** A matched reply is counted and answered. */
  predicate Answers(s: State, a: Action) {
    a.Answer? && s.thread.Correct? && Accepted(s.text, s.mtu, a.draw)
  }

  /** The reply timer expires and sends again. */
  predicate Expires(s: State, a: Action) {
    a.Timeout? && s.armed && Accepted(s.text, s.mtu, a.draw)
  }

  predicate Rejects(s: State, a: Action) {
    a.Compare? && s.thread.Holding? && !Matches(s, s.thread.got)
  }

  /** How often each of these has happened in a run. */
  datatype Seen = Seen(starts: nat, answers: nat, expiries: nat, rejections: nat)

  function Bit(b: bool): nat {
    if b then 1 else 0
  }

  function Observe(n: Seen, s: State, a: Action): Seen {
    Seen(n.starts + Bit(Starts(s, a)),
         n.answers + Bit(Answers(s, a)),
         n.expiries + Bit(Expires(s, a)),
         n.rejections + Bit(Rejects(s, a)))
  }

  ghost function SeenIn(text: seq<byte>, acts: seq<Action>): Seen {
    if acts == [] then Seen(0, 0, 0, 0)
    else
      var before, a := acts[..|acts| - 1], acts[|acts| - 1];
      Observe(SeenIn(text, before), Exec(Step, Boot(text), before), a)
  }

  // ---------- What holds in every reachable state ----------

  /** A delivered datagram that is not yet counted as matched or rejected. */
  function InHand(t: Thread): nat {
    if t.Holding? || t.Correct? then 1 else 0
  }

  /** The counters of the code against what the run has seen. */
  ghost predicate Tally(s: State, n: Seen) {
    && s.attempts == n.starts + n.answers + n.expiries
    && s.counter == n.answers % 0x1_0000_0000
    && s.net.delivered == n.answers + n.rejections + InHand(s.thread)
    && s.net.sent <= s.attempts
  }

  /** The thread is between a successful start and the stop that follows, and no call has failed. */
  predicate Active(t: Thread) {
    t == Looping(0) || t.Polling? || t.Holding? || t.Correct?
  }

  ghost predicate TimerInv(s: State) {
    && (s.serving ==> s.armed)
    && (Active(s.thread) ==> s.serving)
    && (s.thread.Waiting? ==> !s.serving && !s.armed)
  }

  ghost predicate Inv(s: State) {
    && TimerInv(s)
    && NetInv(s.net, s.text)
    && (s.thread.Holding? ==> IsPrefix(s.thread.got, s.text))
  }

  // What each kind of step adds to which counter.

  lemma StepAttempts(s: State, a: Action)
    ensures Step(s, a).attempts == s.attempts + Bit(Starts(s, a)) + Bit(Answers(s, a)) + Bit(Expires(s, a))
  {
  }

  lemma SentByThread(s: State, a: Action)
    requires a.Begin? || a.Poll? || a.Read? || a.Compare? || a.Answer? || a.End?
    ensures Step(s, a).net.sent - s.net.sent <= Step(s, a).attempts - s.attempts
  {
  }

  lemma StepSent(s: State, a: Action)
    ensures Step(s, a).net.sent - s.net.sent <= Step(s, a).attempts - s.attempts
  {
    if a.Begin? || a.Poll? || a.Read? || a.Compare? || a.Answer? || a.End? { SentByThread(s, a); }
  }

  lemma StepCounter(s: State, a: Action)
    ensures Step(s, a).counter == Wrap32(s.counter + Bit(Answers(s, a)))
  {
  }

  ghost predicate DeliveryCounts(s: State, a: Action, t: State) {
    t.net.delivered + InHand(s.thread)
    == s.net.delivered + Bit(Answers(s, a)) + Bit(Rejects(s, a)) + InHand(t.thread)
  }

  lemma ReceiveDelivered(s: State, a: Action)
    requires a.Read? || a.Compare?
    ensures DeliveryCounts(s, a, Step(s, a))
  {
  }

  lemma OtherDelivered(s: State, a: Action)
    requires !a.Read? && !a.Compare?
    ensures DeliveryCounts(s, a, Step(s, a))
  {
  }

  lemma TallyStep(s: State, n: Seen, a: Action)
    requires Tally(s, n)
    ensures Tally(Step(s, a), Observe(n, s, a))
  {
    StepAttempts(s, a);
    StepSent(s, a);
    StepCounter(s, a);
    if a.Read? || a.Compare? { ReceiveDelivered(s, a); } else { OtherDelivered(s, a); }
    WrapNext(s.counter, n.answers, Bit(Answers(s, a)));
  }

  lemma WrapNext(counter: uint32, n: nat, more: nat)
    requires counter == n % 0x1_0000_0000
    ensures Wrap32(counter + more) == (n + more) % 0x1_0000_0000
  {
  }

  lemma {:induction false} CountsHold(text: seq<byte>, acts: seq<Action>)
    ensures Tally(Exec(Step, Boot(text), acts), SeenIn(text, acts))
    decreases |acts|
  {
    if acts != [] {
      var before, a := acts[..|acts| - 1], acts[|acts| - 1];
      CountsHold(text, before);
      TallyStep(Exec(Step, Boot(text), before), SeenIn(text, before), a);
      ExecSnoc(Step, Boot(text), before, a);
      assert acts == before + [a];
    }
  }

  lemma SendDataKeepsNet(s: State, draw: nat, sendOk: bool)
    requires NetInv(s.net, s.text) && Accepted(s.text, s.mtu, draw)
    ensures NetInv(SendData(s, draw, sendOk).net, s.text)
    ensures SendData(s, draw, sendOk).net.sent <= s.net.sent + 1
    ensures SendData(s, draw, sendOk).net.delivered == s.net.delivered
  {
    if sendOk { SendKeeps(s.net, s.text[..draw], s.text); }
  }

  lemma AnswerKeepsInv(s: State, draw: nat, sendOk: bool)
    requires Inv(s) && s.thread.Correct? && Accepted(s.text, s.mtu, draw)
    ensures Inv(AnswerStep(s, draw, sendOk))
  {
    SendDataKeepsNet(s.(counter := Wrap32(s.counter + 1), armed := false, thread := Looping(Ret(sendOk))),
                     draw, sendOk);
  }

  lemma ReadKeepsInv(s: State, recv: Recv)
    requires Inv(s) && s.thread.Polling?
    ensures Inv(ReadStep(s, recv))
  {
    if recv.Datagram? && recv.i < |s.net.replies| {
      DeliverKeeps(s.net, recv.i, s.text);
      var d := s.net.replies[recv.i];
      assert IsPrefix(d, s.text);
      assert Received(d) == s.text[..|Received(d)|];
    }
  }

  lemma TimeoutKeepsInv(s: State, draw: nat, sendOk: bool)
    requires Inv(s) && s.armed && Accepted(s.text, s.mtu, draw)
    ensures Inv(SendData(s, draw, sendOk))
  {
    SendDataKeepsNet(s, draw, sendOk);
  }

  lemma BeginKeepsInv(s: State, socketOk: bool, draw: nat, sendOk: bool)
    requires Inv(s)
    ensures Inv(BeginStep(s, socketOk, draw, sendOk))
  {
    if Accepted(s.text, s.mtu, draw) { SendDataKeepsNet(s, draw, sendOk); }
  }

  lemma ChannelKeepsInv(s: State, na: NetAction)
    requires Inv(s)
    ensures Inv(s.(net := Carry(s.net, na)))
  {
    CarryKeeps(s.net, na, s.text);
  }

  lemma LocalKeepsInv(s: State, a: Action)
    requires Inv(s) && (a.LinkUp? || a.LinkDown? || a.Poll? || a.Compare? || a.End?)
    ensures Inv(Step(s, a))
  {
  }

  lemma StepKeepsInv(s: State, a: Action)
    requires Inv(s)
    ensures Inv(Step(s, a))
  {
    match a {
      case Begin(socketOk, draw, sendOk) => BeginKeepsInv(s, socketOk, draw, sendOk);
      case Read(recv) =>
        if s.thread.Polling? { ReadKeepsInv(s, recv); }
      case Answer(draw, sendOk) =>
        if s.thread.Correct? && Accepted(s.text, s.mtu, draw) { AnswerKeepsInv(s, draw, sendOk); }
      case Timeout(draw, sendOk) =>
        if s.armed && Accepted(s.text, s.mtu, draw) { TimeoutKeepsInv(s, draw, sendOk); }
      case Channel(na) => ChannelKeepsInv(s, na);
      case _ => LocalKeepsInv(s, a);
    }
  }

  lemma StepKeepsText(s: State, a: Action)
    ensures Step(s, a).text == s.text
  {
  }

  lemma {:induction false} Reachable(text: seq<byte>, acts: seq<Action>)
    ensures Inv(Exec(Step, Boot(text), acts)) && Exec(Step, Boot(text), acts).text == text
    decreases |acts|
  {
    if acts != [] {
      var before := acts[..|acts| - 1];
      Reachable(text, before);
      StepKeepsInv(Exec(Step, Boot(text), before), acts[|acts| - 1]);
      StepKeepsText(Exec(Step, Boot(text), before), acts[|acts| - 1]);
    }
  }

  // ---------- Main results ----------

  /**
   Every send attempt is a start, the answer to a matched reply or an expiry of the reply timer, and
   `counter` counts the matched replies.
   */
  lemma {:induction false} AttemptsAccountedFor(text: seq<byte>, acts: seq<Action>)
    ensures
      var s, n := Exec(Step, Boot(text), acts), SeenIn(text, acts);
      && s.attempts == n.starts + n.answers + n.expiries
      && s.counter == n.answers % 0x1_0000_0000
  {
    CountsHold(text, acts);
  }

  /**
   From opening the socket to the stop, failed calls in between included, the reply timer is armed after
   every step, and its expiry sends again: no stall.
   */
  lemma NeverStalls(text: seq<byte>, acts: seq<Action>, draw: nat, sendOk: bool)
    requires Exec(Step, Boot(text), acts).serving
    requires Accepted(text, Exec(Step, Boot(text), acts).mtu, draw)
    ensures
      var s := Exec(Step, Boot(text), acts);
      var t := Step(s, Timeout(draw, sendOk));
      s.armed && t.armed && t.attempts == s.attempts + 1 && t.thread == s.thread && t.serving
  {
    Reachable(text, acts);
  }

  /**
   Every packet in flight is a prefix of the text, every packet sent is in flight, lost or delivered,
   and a delivered one is counted or rejected, so the counter never exceeds the deliveries.
   */
  lemma {:induction false} PacketsAccountedFor(text: seq<byte>, acts: seq<Action>)
    ensures
      var s, n := Exec(Step, Boot(text), acts), SeenIn(text, acts);
      && AllPrefixes(s.net.requests, text) && AllPrefixes(s.net.replies, text)
      && Conserved(s.net)
      && s.net.delivered == n.answers + n.rejections + InHand(s.thread)
      && s.counter <= s.net.delivered <= s.net.echoed <= s.net.sent <= s.attempts
  {
    Reachable(text, acts);
    CountsHold(text, acts);
    CountsChain(Exec(Step, Boot(text), acts), SeenIn(text, acts));
  }

  lemma CountsChain(s: State, n: Seen)
    requires Tally(s, n) && Conserved(s.net)
    ensures s.counter <= s.net.delivered <= s.net.echoed <= s.net.sent <= s.attempts
  {
  }

  /** A reply is rejected only for the length of what recv leaves of it, even if the timer has fired in between. */
  lemma RejectedIffWrongLength(text: seq<byte>, acts: seq<Action>)
    requires Exec(Step, Boot(text), acts).thread.Holding?
    ensures
      var s := Exec(Step, Boot(text), acts);
      Matches(s, s.thread.got) <==> |s.thread.got| == s.expecting
  {
    Reachable(text, acts);
  }

  /** Without a new permit a stopped client stays stopped and silent: only a link event can start it again. */
  lemma {:induction false} SilentUntilLinkUp(s: State, acts: seq<Action>)
    requires s.thread.Waiting? && !s.runApp && !s.armed
    requires forall k :: 0 <= k < |acts| ==> !acts[k].LinkUp?
    ensures
      var t := Exec(Step, s, acts);
      t.thread.Waiting? && !t.runApp && !t.armed && t.attempts == s.attempts
    decreases |acts|
  {
    if acts != [] {
      SilentUntilLinkUp(s, acts[..|acts| - 1]);
    }
  }

  /** The link is up, but the client has stopped or is about to, with no permit to start again. */
  predicate Stopped(s: State) {
    s.connected && !s.runApp && (s.thread.Waiting? || (s.thread.Looping? && s.thread.ret != 0))
  }

  /** How many failures the client survives, and one: the permit is good for a start, an active thread goes on. */
  function Lives(s: State): nat {
    Bit(s.runApp) + Bit(Active(s.thread))
  }

  /** A start that fails, a receive that fails or returns zero, or an answer that cannot be sent. */
  predicate Fatal(s: State, a: Action) {
    match a
    case Begin(socketOk, draw, sendOk) =>
      s.thread.Waiting? && s.runApp && (!socketOk || (Accepted(s.text, s.mtu, draw) && !sendOk))
    case Read(recv) => s.thread.Polling? && (recv.Zero? || (recv.Failed? && recv.errno != 0))
    case Answer(draw, sendOk) => s.thread.Correct? && Accepted(s.text, s.mtu, draw) && !sendOk
    case _ => false
  }

  /** How many steps of a run are fatal. */
  ghost function Fatals(s: State, acts: seq<Action>): nat {
    if acts == [] then 0
    else
      var before, a := acts[..|acts| - 1], acts[|acts| - 1];
      Fatals(s, before) + Bit(Fatal(Exec(Step, s, before), a))
  }

  lemma FatalStep(s: State, a: Action)
    requires s.connected && !a.LinkUp? && !a.LinkDown?
    ensures Step(s, a).connected && Lives(Step(s, a)) + Bit(Fatal(s, a)) == Lives(s)
  {
  }

  /** Each fatal step costs a life, and nothing else does: a packet that the timer fails to send costs none. */
  lemma {:induction false} LivesLeft(s: State, acts: seq<Action>)
    requires s.connected
    requires forall k :: 0 <= k < |acts| ==> !acts[k].LinkUp? && !acts[k].LinkDown?
    ensures
      var t := Exec(Step, s, acts);
      t.connected && Lives(t) + Fatals(s, acts) == Lives(s) <= 2
    decreases |acts|
  {
    if acts != [] {
      var before, a := acts[..|acts| - 1], acts[|acts| - 1];
      LivesLeft(s, before);
      FatalStep(Exec(Step, s, before), a);
    }
  }

  /**
   From any state with the link up, along any run without link events: the client has stopped for good
   exactly when as many starts, receives and answers have failed as it had lives.  That is one for an
   active thread and one for a permit it has not taken yet.
   */
  lemma {:induction false} StopsIff(s: State, acts: seq<Action>)
    requires s.connected
    requires forall k :: 0 <= k < |acts| ==> !acts[k].LinkUp? && !acts[k].LinkDown?
    ensures Stopped(Exec(Step, s, acts)) <==> Fatals(s, acts) == Lives(s)
    ensures Fatals(s, acts) <= Lives(s) <= 2
  {
    LivesLeft(s, acts);
  }

  /** Two lives: the link flaps while an active thread is in poll, which does not notice. */
  function Flap(): seq<Action> {
    [LinkUp(5)] + [Begin(true, 1, true)] + [Poll] + [LinkDown] + [LinkUp(5)]
  }

  ghost predicate At(s: State, text: seq<byte>, thread: Thread, connected: bool, runApp: bool) {
    && s.text == text && s.mtu == 5 && s.thread == thread
    && s.connected == connected && s.runApp == runApp
  }

  lemma UpFromBoot(text: seq<byte>)
    ensures At(Exec(Step, Boot(text), [LinkUp(5)]), text, Waiting, true, true)
  {
    ExecSnoc(Step, Boot(text), [], LinkUp(5));
    assert [] + [LinkUp(5)] == [LinkUp(5)];
  }

  lemma BeginAt(s: State, text: seq<byte>)
    requires At(s, text, Waiting, true, true) && |text| > 1
    ensures At(Step(s, Begin(true, 1, true)), text, Looping(0), true, false)
  {
  }

  lemma PollAt(s: State, text: seq<byte>)
    requires At(s, text, Looping(0), true, false)
    ensures At(Step(s, Poll), text, Polling, true, false)
  {
  }

  lemma FlapAt(s: State, text: seq<byte>)
    requires At(s, text, Polling, true, false)
    ensures At(Step(Step(s, LinkDown), LinkUp(5)), text, Polling, true, true)
  {
  }

  lemma FlapStart(text: seq<byte>)
    requires |text| > 1
    ensures At(Exec(Step, Boot(text), [LinkUp(5)] + [Begin(true, 1, true)] + [Poll]), text, Polling, true, false)
  {
    var up, begin := [LinkUp(5)], [LinkUp(5)] + [Begin(true, 1, true)];
    UpFromBoot(text);
    ExecSnoc(Step, Boot(text), up, Begin(true, 1, true));
    BeginAt(Exec(Step, Boot(text), up), text);
    ExecSnoc(Step, Boot(text), begin, Poll);
    PollAt(Exec(Step, Boot(text), begin), text);
  }

  lemma FlapEnd(text: seq<byte>)
    requires |text| > 1
    ensures At(Exec(Step, Boot(text), Flap()), text, Polling, true, true)
  {
    var poll := [LinkUp(5)] + [Begin(true, 1, true)] + [Poll];
    FlapStart(text);
    ExecSnoc(Step, Boot(text), poll, LinkDown);
    ExecSnoc(Step, Boot(text), poll + [LinkDown], LinkUp(5));
    FlapAt(Exec(Step, Boot(text), poll), text);
  }

  /** After such a run one failed receive is survived: the client takes the fresh permit and is active again. */
  lemma FlapGivesSecondLife(text: seq<byte>)
    requires |text| > 1
    ensures
      var s := Exec(Step, Boot(text), Flap());
      var t := Step(Step(Step(s, Read(Zero)), End), Begin(true, 1, true));
      Lives(s) == 2 && Fatal(s, Read(Zero)) && t.connected && Active(t.thread) && Lives(t) == 1
  {
    FlapEnd(text);
    SecondLife(Exec(Step, Boot(text), Flap()));
  }

  lemma SecondLife(s: State)
    requires s.connected && s.runApp && s.thread.Polling? && Accepted(s.text, s.mtu, 1)
    ensures
      var t := Step(Step(Step(s, Read(Zero)), End), Begin(true, 1, true));
      Lives(s) == 2 && Fatal(s, Read(Zero)) && t.connected && Active(t.thread) && Lives(t) == 1
  {
    var u := Step(s, Read(Zero));
    assert u.thread == Looping(-EIO) && u.runApp && u.connected;
    assert Step(u, End).thread.Waiting? && Step(u, End).runApp;
  }

  // ---------- A packet, its echo and its count ----------

  /** A call of send: at a start, in answer to a matched reply, or when the timer expires. */
  predicate Sends(s: State, a: Action) {
    match a
    case Begin(socketOk, draw, _) =>
      s.thread.Waiting? && s.runApp && socketOk && 0 < draw < |s.text| && draw <= s.mtu
    case Answer(draw, _) => s.thread.Correct? && 0 < draw < |s.text| && draw <= s.mtu
    case Timeout(draw, _) => s.armed && 0 < draw < |s.text| && draw <= s.mtu
    case _ => false
  }

  /** Each puts exactly the drawn length of the text on its way, unless send fails, and expects that length back. */
  lemma EachSend(s: State, a: Action)
    requires Sends(s, a)
    ensures
      var t := Step(s, a);
      && t.expecting == a.draw
      && t.net.requests == s.net.requests + (if a.sendOk then [s.text[..a.draw]] else [])
      && t.net.replies == s.net.replies
      && t.armed && t.attempts == s.attempts + 1
      && (!a.Timeout? ==> t.thread == Looping(if a.sendOk then 0 else -EIO))
      && (a.Timeout? ==> t.thread == s.thread)
  {
  }

  ghost predicate Quiet(s: State, t: State) {
    t.expecting == s.expecting && |t.net.requests| <= |s.net.requests| && t.attempts == s.attempts
  }

  lemma QuietThread(s: State, a: Action)
    requires !Sends(s, a) && (a.Begin? || a.Poll? || a.Answer? || a.End?)
    ensures Quiet(s, Step(s, a))
  {
  }

  lemma QuietReceive(s: State, a: Action)
    requires a.Read? || a.Compare?
    ensures Quiet(s, Step(s, a))
  {
  }

  lemma QuietWorld(s: State, a: Action)
    requires !Sends(s, a) && (a.LinkUp? || a.LinkDown? || a.Timeout? || a.Channel?)
    ensures Quiet(s, Step(s, a))
  {
  }

  /** Nothing else sends, or changes what is expected. */
  lemma NothingElseSends(s: State, a: Action)
    requires !Sends(s, a)
    ensures
      var t := Step(s, a);
      t.expecting == s.expecting && |t.net.requests| <= |s.net.requests| && t.attempts == s.attempts
  {
    if a.Begin? || a.Poll? || a.Answer? || a.End? {
      QuietThread(s, a);
    } else if a.Read? || a.Compare? {
      QuietReceive(s, a);
    } else {
      QuietWorld(s, a);
    }
  }

  /** The length drawn by the last send of a run. */
  ghost function LastDraw(text: seq<byte>, acts: seq<Action>): nat {
    if acts == [] then 0
    else
      var before, a := acts[..|acts| - 1], acts[|acts| - 1];
      if Sends(Exec(Step, Boot(text), before), a) then a.draw else LastDraw(text, before)
  }

  lemma {:induction false} ExpectingReadOff(text: seq<byte>, acts: seq<Action>)
    ensures Exec(Step, Boot(text), acts).expecting == LastDraw(text, acts)
    decreases |acts|
  {
    if acts != [] {
      var before, a := acts[..|acts| - 1], acts[|acts| - 1];
      var s := Exec(Step, Boot(text), before);
      ExpectingReadOff(text, before);
      if Sends(s, a) { EachSend(s, a); } else { NothingElseSends(s, a); }
    }
  }

  /** In every run a reply matches exactly when it is the echo of the last length sent, and was not cut. */
  lemma {:induction false} EchoOfLastMatches(text: seq<byte>, acts: seq<Action>, n: nat)
    requires n <= |text| && Exec(Step, Boot(text), acts).thread == Holding(Received(text[..n]))
    ensures
      var s := Exec(Step, Boot(text), acts);
      Step(s, Compare).thread.Correct? <==> (if n <= 1280 then n else 1280) == LastDraw(text, acts)
  {
    Reachable(text, acts);
    ExpectingReadOff(text, acts);
  }

  /** The network echoes the last packet sent, and the client polls and reads it. */
  function Delivered(s: State): State {
    Step(Step(Step(s, Channel(Echo(if s.net.requests == [] then 0 else |s.net.requests| - 1))), Poll),
         Read(Datagram(|s.net.replies|)))
  }

  lemma DeliveredIsHeld(s: State)
    requires s.thread == Looping(0) && s.connected && s.net.requests != []
    ensures
      var t, n := Delivered(s), |s.net.requests| - 1;
      && t.thread == Holding(Received(s.net.requests[n]))
      && t.net.requests == s.net.requests[..n] && t.net.replies == s.net.replies
      && t.text == s.text && t.mtu == s.mtu && t.expecting == s.expecting && t.counter == s.counter
      && t.connected && t.armed == s.armed
  {
    var n := |s.net.requests| - 1;
    CarryMoves(s.net, Echo(n));
    var u := Step(Step(s, Channel(Echo(n))), Poll);
    assert u.net.replies == s.net.replies + [s.net.requests[n]];
    assert Without(u.net.replies, |s.net.replies|) == s.net.replies;
  }

  /**
   A packet sent at a start, in answer or by the timer is echoed, delivered and compared with no other
   send in between: if it fits recv_buf it matches, the counter goes up by one and the answer goes out
   with a new length; a longer one is cut and rejected.
   */
  lemma EchoIsCounted(s: State, a: Action, draw: nat, sendOk: bool)
    requires Sends(s, a) && a.sendOk && s.connected && (a.Timeout? ==> s.thread == Looping(0))
    requires 0 < draw < |s.text| && draw <= s.mtu
    ensures
      var t := Step(s, a);
      var u := Step(Step(Delivered(t), Compare), Answer(draw, sendOk));
      if a.draw <= 1280 then
        && u.counter == (t.counter + 1) % 0x1_0000_0000 && u.expecting == draw && u.armed
        && u.net.requests == s.net.requests + (if sendOk then [s.text[..draw]] else [])
        && u.thread == Looping(if sendOk then 0 else -5)
      else
        u.counter == t.counter && u.thread == Looping(0) && u.net.requests == s.net.requests
  {
    var t := Step(s, a);
    EachSend(s, a);
    SendsKeepsRest(s, a);
    DeliveredIsHeld(t);
    assert t.net.requests[..|s.net.requests|] == s.net.requests;
    var v := Delivered(t);
    ComparesByLength(v, a.draw);
    var w := Step(v, Compare);
    if a.draw <= 1280 {
      EachSend(w, Answer(draw, sendOk));
      StepCounter(w, Answer(draw, sendOk));
    }
  }

  lemma SendsKeepsRest(s: State, a: Action)
    requires Sends(s, a)
    ensures Step(s, a).text == s.text && Step(s, a).mtu == s.mtu && Step(s, a).connected == s.connected
  {
  }

  lemma ComparesByLength(v: State, n: nat)
    requires 0 < n < |v.text| && v.thread == Holding(Received(v.text[..n])) && v.expecting == n
    ensures
      var w := Step(v, Compare);
      && w == v.(thread := w.thread)
      && w.thread == if n <= 1280 then Correct else Looping(0)
  {
    if n <= 1280 { assert Received(v.text[..n]) == v.text[..n]; }
  }

  /** What recv returns decides where the thread goes, and with which return value. */
  lemma ReceiveOutcome(s: State, recv: Recv)
    requires s.thread.Polling?
    ensures
      var t := Step(s, Read(recv));
      match recv
      case Empty => t == s.(thread := Looping(0))
      case Zero => t == s.(thread := Looping(-5))
      case Failed(errno) => t == s.(thread := Looping(-errno))
      case Datagram(i) =>
        if i >= |s.net.replies| then t == s.(thread := Looping(0))
        else
          && t.thread == Holding(if |s.net.replies[i]| <= 1280 then s.net.replies[i] else s.net.replies[i][..1280])
          && t.net.replies == s.net.replies[..i] + s.net.replies[i + 1..]
          && t == s.(thread := t.thread, net := t.net)
  {
  }

  /** In any state, whatever the network may have done to it, a datagram matches only if it is the expected text. */
  lemma ComparesContent(s: State, got: seq<byte>)
    requires s.thread == Holding(got)
    ensures
      var t := Step(s, Compare);
      && t == s.(thread := t.thread)
      && t.thread == if |got| == s.expecting <= |s.text| && got == s.text[..s.expecting] then Correct else Looping(0)
  {
  }

  /** At the head of the inner loop the thread either polls or stops, never both. */
  lemma PollsOrStops(s: State)
    requires s.thread.Looping?
    ensures
      var goesOn := s.connected && s.thread.ret == 0;
      && Step(s, Poll) == (if goesOn then s.(thread := Polling) else s)
      && (Step(s, End).thread.Waiting? <==> !goesOn) && (goesOn ==> Step(s, End) == s)
  {
  }

  // ---------- The link, read off the run ----------

  function LinkIsUp(acts: seq<Action>): bool {
    if acts == [] then false
    else
      var a := acts[|acts| - 1];
      if a.LinkUp? then true else if a.LinkDown? then false else LinkIsUp(acts[..|acts| - 1])
  }

  function LastMtu(acts: seq<Action>): nat {
    if acts == [] then 0
    else
      var a := acts[|acts| - 1];
      if a.LinkUp? then a.mtu else LastMtu(acts[..|acts| - 1])
  }

  /** The waiting thread takes run_app: the socket call fails, or a first length is drawn. */
  predicate TakesPermit(s: State, a: Action) {
    && a.Begin? && s.thread.Waiting? && s.runApp
    && (!a.socketOk || (0 < a.draw < |s.text| && a.draw <= s.mtu))
  }

  /** The link came up, and since then it has not gone down and the permit was not taken. */
  ghost predicate HasPermit(text: seq<byte>, acts: seq<Action>) {
    if acts == [] then false
    else
      var before, a := acts[..|acts| - 1], acts[|acts| - 1];
      || a.LinkUp?
      || (HasPermit(text, before) && !a.LinkDown? && !TakesPermit(Exec(Step, Boot(text), before), a))
  }

  lemma LinkStep(s: State, a: Action)
    ensures Step(s, a).connected == (a.LinkUp? || (s.connected && !a.LinkDown?))
    ensures Step(s, a).mtu == if a.LinkUp? then a.mtu else s.mtu
    ensures Step(s, a).runApp == (a.LinkUp? || (s.runApp && !a.LinkDown? && !TakesPermit(s, a)))
  {
  }

  /** In every run: connected and mtu are the last link event's, and run_app is the permit it gave or took. */
  lemma {:induction false} LinkReadOff(text: seq<byte>, acts: seq<Action>)
    ensures
      var s := Exec(Step, Boot(text), acts);
      s.connected == LinkIsUp(acts) && s.mtu == LastMtu(acts) && s.runApp == HasPermit(text, acts)
    decreases |acts|
  {
    if acts != [] {
      LinkReadOff(text, acts[..|acts| - 1]);
      LinkStep(Exec(Step, Boot(text), acts[..|acts| - 1]), acts[|acts| - 1]);
    }
  }

  /**
   With the link down the client ends waiting and unarmed, wherever it stands and whatever its calls
   return: it finishes what it is doing, leaves the inner loop and stops.
   */
  lemma LinkDownEndsWaiting(text: seq<byte>, acts: seq<Action>, recv: Recv, draw: nat, sendOk: bool)
    requires !LinkIsUp(acts) && 0 < draw < |text| && draw <= LastMtu(acts)
    ensures
      var s := Exec(Step, Boot(text), acts);
      var t := Step(Step(Step(Step(s, Read(recv)), Compare), Answer(draw, sendOk)), End);
      t.thread.Waiting? && !t.armed && !t.serving && !t.runApp && !t.connected
  {
    Reachable(text, acts);
    LinkReadOff(text, acts);
    NoPermitWithoutLink(text, acts);
    FinishesTurn(Exec(Step, Boot(text), acts), recv, draw, sendOk);
  }

  lemma {:induction false} NoPermitWithoutLink(text: seq<byte>, acts: seq<Action>)
    ensures HasPermit(text, acts) ==> LinkIsUp(acts)
    decreases |acts|
  {
    if acts != [] { NoPermitWithoutLink(text, acts[..|acts| - 1]); }
  }

  lemma FinishesTurn(s: State, recv: Recv, draw: nat, sendOk: bool)
    requires !s.connected && !s.runApp && Accepted(s.text, s.mtu, draw) && TimerInv(s)
    ensures
      var t := Step(Step(Step(Step(s, Read(recv)), Compare), Answer(draw, sendOk)), End);
      t.thread.Waiting? && !t.armed && !t.serving && !t.runApp && !t.connected
  {
    var u := Step(s, Read(recv));
    ThenAnswers(u, draw, sendOk);
  }

  lemma ThenAnswers(u: State, draw: nat, sendOk: bool)
    requires !u.connected && !u.runApp && Accepted(u.text, u.mtu, draw) && !u.thread.Polling?
    requires u.thread.Waiting? ==> !u.armed && !u.serving
    ensures
      var t := Step(Step(Step(u, Compare), Answer(draw, sendOk)), End);
      t.thread.Waiting? && !t.armed && !t.serving && !t.runApp && !t.connected
  {
    var v := Step(u, Compare);
    assert v.thread.Waiting? || v.thread.Looping? || v.thread.Correct?;
    var w := Step(v, Answer(draw, sendOk));
    assert w.thread.Waiting? || w.thread.Looping?;
  }

  // ---------- What the client thread gets from its calls ----------

  /** One turn of a loop of start_client: what the socket calls, or recv, returned. */
  datatype Turn = Began(socketOk: bool, sendOk: bool) | Got(recv: Recv)

  function TurnOf(s: State, a: Action): seq<Turn> {
    if a.Begin? && BeginStep(s, a.socketOk, a.draw, a.sendOk) != s then [Began(a.socketOk, a.sendOk)]
    else if a.Read? && s.thread.Polling? then [Got(a.recv)]
    else []
  }

  /** The turns a run takes. */
  ghost function Turns(start: State, acts: seq<Action>): seq<Turn> {
    if acts == [] then []
    else
      var before, a := acts[..|acts| - 1], acts[|acts| - 1];
      Turns(start, before) + TurnOf(Exec(Step, start, before), a)
  }

  lemma Extend(start: State, acts: seq<Action>, a: Action)
    ensures Exec(Step, start, acts + [a]) == Step(Exec(Step, start, acts), a)
    ensures Turns(start, acts + [a]) == Turns(start, acts) + TurnOf(Exec(Step, start, acts), a)
    ensures !a.Begin? && !a.Read? ==> Turns(start, acts + [a]) == Turns(start, acts)
  {
    assert (acts + [a])[..|acts|] == acts;
  }

  /** What the environment has ready for a turn. */
  datatype Env = Env(socketOk: bool, sendOk: bool, recv: Recv)

  /** Each turn got what the environment had ready for it. */
  predicate Follows(turns: seq<Turn>, env: seq<Env>) {
    && |turns| <= |env|
    && forall t :: 0 <= t < |turns| ==>
         turns[t] == Began(env[t].socketOk, env[t].sendOk) || turns[t] == Got(env[t].recv)
  }

  /** So many turns, and each got what was ready for it. */
  predicate Took(n: nat, env: seq<Env>, turns: seq<Turn>) {
    |turns| == n && Follows(turns, env)
  }

  lemma OneMoreTurn(n: nat, env: seq<Env>, turns: seq<Turn>, t: Turn)
    requires Took(n, env, turns) && n < |env|
    requires t == Began(env[n].socketOk, env[n].sendOk) || t == Got(env[n].recv)
    ensures Took(n + 1, env, turns + [t])
  {
  }

  /** The thread cannot take another turn: no permit, or a draw that never ends. */
  predicate Blocked(s: State) {
    if s.thread.Waiting? then !s.runApp || !CanDraw(s.text, s.mtu)
    else s.thread.Correct? && !CanDraw(s.text, s.mtu)
  }

  // ---------- The code ----------

  /** struct data of udp.c, and the variables of the client thread. */
  class Client {
    const text: seq<byte>
    var net: Net
    var connected: bool
    var runApp: bool
    var mtu: nat
    var armed: bool
    var expecting: nat
    var counter: uint32
    var thread: Thread
    ghost var serving: bool
    ghost var attempts: nat

    ghost function Model(): State
      reads this
    {
      State(text, net, connected, runApp, mtu, thread, armed, expecting, counter, serving, attempts)
    }

    constructor (text: seq<byte>)
      ensures Model() == Boot(text)
    {
      this.text := text;
      net, connected, runApp, mtu, armed, expecting, counter := QUIET, false, false, 0, false, 0, 0;
      thread := Waiting;
      serving, attempts := false, 0;
    }

    /** The do-while of send_udp_data: draws until a length is accepted. */
    method Draw(rands: seq<uint32>)
      requires DrawEnds(text, mtu, rands)
      modifies this`expecting
      ensures Accepted(text, mtu, expecting)
      ensures exists k :: 0 <= k < |rands| && expecting == rands[k] % |text|
                && forall j :: 0 <= j < k ==> rands[j] % |text| == 0 || rands[j] % |text| > mtu
    {
      var n := 0;
      expecting := rands[n] % |text|;
      while expecting == 0 || expecting > mtu
        invariant 0 <= n < |rands| && 0 <= expecting < |text| && expecting == rands[n] % |text|
        invariant exists k :: n <= k < |rands| && Accepted(text, mtu, rands[k] % |text|)
        invariant forall j :: 0 <= j < n ==> rands[j] % |text| == 0 || rands[j] % |text| > mtu
        decreases |rands| - n
      {
        n := n + 1;
        expecting := rands[n] % |text|;
      }
    }

    /** send_udp_data: arms the timer even if the send fails. */
    method SendUdpData(rands: seq<uint32>, sendOk: bool) returns (ret: int, ghost draw: nat)
      requires DrawEnds(text, mtu, rands)
      modifies this
      ensures Accepted(text, mtu, draw)
      ensures Model() == SendData(old(Model()), draw, sendOk) && ret == Ret(sendOk)
    {
      Draw(rands);
      draw := expecting;
      if sendOk { net := Send(net, text[..expecting]); }
      armed := true;
      attempts := attempts + 1;
      return if sendOk then 0 else -EIO, draw;
    }

    /** event_handler of the connection manager */
    method EventHandler(up: bool, newMtu: nat)
      modifies this
      ensures Model() == Step(old(Model()), if up then LinkUp(newMtu) else LinkDown) && thread == old(thread)
    {
      connected := up;
      runApp := up;
      if up { mtu := newMtu; }
    }

    /** wait_reply, run when the timer expires */
    method WaitReply(rands: seq<uint32>, sendOk: bool) returns (ghost draw: nat)
      requires armed
      requires DrawEnds(text, mtu, rands)
      modifies this
      ensures Accepted(text, mtu, draw) && Model() == Step(old(Model()), Timeout(draw, sendOk))
    {
      armed := false;
      var _, d := SendUdpData(rands, sendOk);
      draw := d;
    }

    /** A random stream on which the draw ends. */
    method Random() returns (rands: seq<uint32>)
      requires CanDraw(text, mtu)
      ensures DrawEnds(text, mtu, rands)
    {
      rands := *;
      if !DrawEnds(text, mtu, rands) {
        rands := [1];
        assert rands[0] % |text| == 1;
      }
    }

    /** start_udp, once run_app is taken. */
    method StartUdp(socketOk: bool, sendOk: bool) returns (ghost draw: nat)
      requires thread.Waiting? && runApp && (socketOk ==> CanDraw(text, mtu))
      modifies this
      ensures thread.Looping?
      ensures Model() == Step(old(Model()), Begin(socketOk, draw, sendOk))
    {
      runApp := false;
      armed := false;
      draw := 0;
      if !socketOk {
        thread := Looping(-EIO);
        return;
      }
      serving := true;
      var rands := Random();
      var ret, d := SendUdpData(rands, sendOk);
      draw := d;
      thread := Looping(ret);
    }

    /** recv, in the middle of process_udp_proto; ret matters only if nothing was received. */
    method Recv(recv: Recv) returns (ret: int, got: seq<byte>)
      requires thread.Polling?
      modifies this
      ensures thread.Looping? || thread == Holding(got)
      ensures Model() == Step(old(Model()), Read(recv))
    {
      ret, got := 0, [];
      match recv {
        case Empty =>
        case Zero => ret := -EIO;
        case Failed(errno) => ret := -errno;
        case Datagram(i) =>
          if i < |net.replies| {
            got := Received(net.replies[i]);
            net := Deliver(net, i);
            thread := Holding(got);
            return;
          }
      }
      thread := Looping(ret);
    }

    method CompareUdpData(got: seq<byte>) returns (equal: bool)
      requires thread == Holding(got)
      modifies this
      ensures thread == if equal then Correct else Looping(0)
      ensures Model() == Step(old(Model()), Compare)
    {
      if |got| != expecting || |got| > |text| || got != text[..|got|] {
        thread := Looping(0);
        return false;
      }
      thread := Correct;
      return true;
    }

    /** The end of process_udp_proto: count, cancel the timer, send the next packet. */
    method CorrectReply(rands: seq<uint32>, sendOk: bool) returns (ret: int, ghost draw: nat)
      requires thread.Correct? && DrawEnds(text, mtu, rands)
      modifies this
      ensures thread == Looping(ret)
      ensures Model() == Step(old(Model()), Answer(draw, sendOk))
    {
      counter := Wrap32(counter + 1);
      armed := false;
      thread := Looping(Ret(sendOk));
      ret, draw := SendUdpData(rands, sendOk);
    }

    /**
     process_udp_proto, with the world at work between its steps: what recv returns is the one turn it
     takes, and it leaves neither a datagram in hand nor, if the draw can end, a reply unanswered.
     */
    method ProcessUdp(env: Env, ghost start: State, ghost acts: seq<Action>)
      returns (ghost acts': seq<Action>)
      requires Model() == Exec(Step, start, acts) && thread.Polling?
      modifies this
      ensures Model() == Exec(Step, start, acts') && Turns(start, acts') == Turns(start, acts) + [Got(env.recv)]
      ensures thread.Looping? || (thread.Correct? && Blocked(Model()))
    {
      Extend(start, acts, Read(env.recv));
      acts' := acts + [Read(env.recv)];
      var ret, got := Recv(env.recv);
      if thread.Holding? {
        acts' := World(start, acts');
        acts' := Reply(got, env.sendOk, start, acts');
      }
    }

    /** The rest of process_udp_proto: compare, and answer if equal. */
    method Reply(got: seq<byte>, sendOk: bool, ghost start: State, ghost acts: seq<Action>)
      returns (ghost acts': seq<Action>)
      requires Model() == Exec(Step, start, acts) && thread == Holding(got)
      modifies this
      ensures Model() == Exec(Step, start, acts') && Turns(start, acts') == Turns(start, acts)
      ensures thread.Looping? || (thread.Correct? && Blocked(Model()))
    {
      Extend(start, acts, Compare);
      acts' := acts + [Compare];
      var equal := CompareUdpData(got);
      if !equal { return; }
      acts' := World(start, acts');
      if CanDraw(text, mtu) {
        var rands := Random();
        ghost var before := acts';
        var _, draw := CorrectReply(rands, sendOk);
        Extend(start, before, Answer(draw, sendOk));
        acts' := before + [Answer(draw, sendOk)];
      }
    }

    /** stop_udp, when the inner loop is left. */
    method StopUdp()
      requires thread.Looping? && (!connected || thread.ret != 0)
      modifies this
      ensures Model() == Step(old(Model()), End)
    {
      armed, serving := false, false;
      thread := Waiting;
    }

    /** Everything outside the client thread, for as long as the scheduler lets it. */
    method World(ghost start: State, ghost acts: seq<Action>) returns (ghost acts': seq<Action>)
      requires Model() == Exec(Step, start, acts)
      modifies this
      ensures Model() == Exec(Step, start, acts') && thread == old(thread)
      ensures Turns(start, acts') == Turns(start, acts)
    {
      acts' := acts;
      var budget: nat := *;
      while budget > 0
        invariant Model() == Exec(Step, start, acts') && thread == old(thread)
        invariant Turns(start, acts') == Turns(start, acts)
      {
        acts' := Elsewhere(start, acts');
        budget := budget - 1;
      }
    }

    /** The link goes up or down. */
    method Link(up: bool, newMtu: nat, ghost start: State, ghost acts: seq<Action>)
      returns (ghost acts': seq<Action>)
      requires Model() == Exec(Step, start, acts)
      modifies this
      ensures Model() == Exec(Step, start, acts') && thread == old(thread)
      ensures Turns(start, acts') == Turns(start, acts)
    {
      ghost var a := if up then LinkUp(newMtu) else LinkDown;
      Extend(start, acts, a);
      acts' := acts + [a];
      EventHandler(up, newMtu);
    }

    /** The network moves or loses a packet. */
    method Transport(na: NetAction, ghost start: State, ghost acts: seq<Action>) returns (ghost acts': seq<Action>)
      requires Model() == Exec(Step, start, acts)
      modifies this`net
      ensures Model() == Exec(Step, start, acts') && thread == old(thread)
      ensures Turns(start, acts') == Turns(start, acts)
    {
      Extend(start, acts, Channel(na));
      acts' := acts + [Channel(na)];
      net := Carry(net, na);
    }

    /** The timer expires. */
    method Expire(rands: seq<uint32>, sendOk: bool, ghost start: State, ghost acts: seq<Action>)
      returns (ghost acts': seq<Action>)
      requires Model() == Exec(Step, start, acts) && armed && DrawEnds(text, mtu, rands)
      modifies this
      ensures Model() == Exec(Step, start, acts') && thread == old(thread)
      ensures Turns(start, acts') == Turns(start, acts)
    {
      ghost var draw := WaitReply(rands, sendOk);
      Extend(start, acts, Timeout(draw, sendOk));
      acts' := acts + [Timeout(draw, sendOk)];
    }

    /** One step of the connection manager, the timer or the network. */
    method Elsewhere(ghost start: State, ghost acts: seq<Action>) returns (ghost acts': seq<Action>)
      requires Model() == Exec(Step, start, acts)
      modifies this
      ensures Model() == Exec(Step, start, acts') && thread == old(thread)
      ensures Turns(start, acts') == Turns(start, acts)
    {
      var up: bool, newMtu: nat, na: NetAction, rands: seq<uint32>, sendOk: bool := *, *, *, *, *;
      if
      case true =>
        acts' := Link(up, newMtu, start, acts);
      case armed && DrawEnds(text, mtu, rands) =>
        acts' := Expire(rands, sendOk, start, acts);
      case true =>
        acts' := Transport(na, start, acts);
    }

    /**
     start_client: the outer and the inner loop, with the world at work in between.  It takes a turn with
     everything the environment has ready, in order, unless it blocks.
     */
    method StartClient(env: seq<Env>) returns (ghost acts: seq<Action>)
      requires thread.Waiting?
      modifies this
      ensures Model() == Exec(Step, old(Model()), acts) && Follows(Turns(old(Model()), acts), env)
      ensures |Turns(old(Model()), acts)| == |env| || Blocked(Model())
    {
      ghost var start := Model();
      acts := [];
      var turn := 0;
      while turn < |env|
        invariant turn <= |env| && thread.Waiting? && Model() == Exec(Step, start, acts)
        invariant Took(turn, env, Turns(start, acts))
      {
        acts := World(start, acts);
        if !runApp || (env[turn].socketOk && !CanDraw(text, mtu)) { return; }
        turn, acts := Serve(turn, env, start, acts);
        if !thread.Waiting? { return; }
      }
    }

    /** The body of the outer loop, once the permit is there: start, run, stop. */
    method Serve(from: nat, env: seq<Env>, ghost start: State, ghost acts: seq<Action>)
      returns (turn: nat, ghost acts': seq<Action>)
      requires Model() == Exec(Step, start, acts) && thread.Waiting? && runApp
      requires Took(from, env, Turns(start, acts)) && from < |env|
      requires env[from].socketOk ==> CanDraw(text, mtu)
      modifies this
      ensures Model() == Exec(Step, start, acts')
      ensures Took(turn, env, Turns(start, acts'))
      ensures from < turn && (thread.Waiting? || turn == |env| || Blocked(Model()))
    {
      acts' := Start(env[from], start, acts);
      OneMoreTurn(from, env, Turns(start, acts), Began(env[from].socketOk, env[from].sendOk));
      acts' := World(start, acts');
      turn, acts' := InnerLoop(from + 1, env, start, acts');
      if !thread.Looping? || (connected && thread.ret == 0) { return; }
      acts' := Stop(start, acts');
    }

    /** stop */
    method Stop(ghost start: State, ghost acts: seq<Action>) returns (ghost acts': seq<Action>)
      requires Model() == Exec(Step, start, acts) && thread.Looping? && (!connected || thread.ret != 0)
      modifies this
      ensures Model() == Exec(Step, start, acts') && Turns(start, acts') == Turns(start, acts)
      ensures thread.Waiting?
    {
      Extend(start, acts, End);
      acts' := acts + [End];
      StopUdp();
    }

    /** start, once the permit is there. */
    method Start(env: Env, ghost start: State, ghost acts: seq<Action>) returns (ghost acts': seq<Action>)
      requires Model() == Exec(Step, start, acts) && thread.Waiting? && runApp
      requires env.socketOk ==> CanDraw(text, mtu)
      modifies this
      ensures Model() == Exec(Step, start, acts') && thread.Looping?
      ensures Turns(start, acts') == Turns(start, acts) + [Began(env.socketOk, env.sendOk)]
    {
      ghost var draw := StartUdp(env.socketOk, env.sendOk);
      Extend(start, acts, Begin(env.socketOk, draw, env.sendOk));
      acts' := acts + [Begin(env.socketOk, draw, env.sendOk)];
    }

    /** The inner loop; a thread whose draw never ends stays at Correct. */
    method InnerLoop(from: nat, env: seq<Env>, ghost start: State, ghost acts: seq<Action>)
      returns (turn: nat, ghost acts': seq<Action>)
      requires Model() == Exec(Step, start, acts) && thread.Looping?
      requires Took(from, env, Turns(start, acts))
      modifies this
      ensures Model() == Exec(Step, start, acts') && Took(turn, env, Turns(start, acts')) && from <= turn
      ensures (thread.Correct? && Blocked(Model()))
           || (thread.Looping? && (connected && thread.ret == 0 ==> turn == |env|))
    {
      turn, acts' := from, acts;
      while turn < |env| && connected && thread.ret == 0
        invariant Model() == Exec(Step, start, acts') && thread.Looping?
        invariant Took(turn, env, Turns(start, acts')) && from <= turn
      {
        ghost var before := acts';
        acts' := Run(env[turn], start, acts');
        OneMoreTurn(turn, env, Turns(start, before), Got(env[turn].recv));
        turn := turn + 1;
        if !thread.Looping? { return; }
        acts' := World(start, acts');
      }
    }

    /** run: polls, and processes what recv returns. */
    method Run(env: Env, ghost start: State, ghost acts: seq<Action>) returns (ghost acts': seq<Action>)
      requires Model() == Exec(Step, start, acts) && connected && thread == Looping(0)
      modifies this
      ensures Model() == Exec(Step, start, acts') && Turns(start, acts') == Turns(start, acts) + [Got(env.recv)]
      ensures thread.Looping? || (thread.Correct? && Blocked(Model()))
    {
      Extend(start, acts, Poll);
      thread := Polling;
      acts' := World(start, acts + [Poll]);
      acts' := ProcessUdp(env, start, acts');
    }
  }
}
