/**
 The echo client over RedNodeBus user payloads: rnb-user-payload.c and start_client_rnb.

 The radio callback, the client thread, the reply timer and the network take turns.  The callback
 copies a payload into the shared recv_buf byte by byte, then sets `received`, then gives the
 one-permit semaphore; the client compares byte by byte.  Both may be interrupted anywhere.
 */
module EchoRnb {
  import opened Machine
  import opened Runs
  import opened EchoNet

  /** Where rnb_utils_handle_user_payload stands. */
  datatype Radio = Idle | Copying(payload: seq<byte>, k: nat) | Stored

  /** Where the client thread stands: about to start, to take the semaphore, and inside process_rnb_proto. */
  datatype Thread = Starting | Ready | Taken | NotEmpty | Comparing(len: nat, k: nat) | Correct

  datatype State = State(
    text: seq<byte>,
    mtu: nat,
    net: Net,
    recvBuf: seq<byte>,
    received: nat,
    permit: bool,          // wait_rnb_data
    radio: Radio,
    thread: Thread,
    armed: bool,
    expecting: nat,
    counter: uint32,
    attempts: nat,         // calls of the radio driver so far; not read by the code
    high: nat)             // how much of recv_buf has ever been written; not read by the code

  datatype Action =
    | Client(draw: nat, ret: int)
    | RadioStep(i: nat)
    | Timeout(draw: nat, ret: int)
    | Channel(a: NetAction)

  function Boot(text: seq<byte>, mtu: nat): State {
    State(text, mtu, QUIET, seq(RECV_BUF_SIZE, _ => 0), 0, false, Idle, Starting, false, 0, 0, 0, 0)
  }

  /** Some number in the random stream is accepted: the draw loop ends. */
  predicate DrawEnds(mtu: nat, rands: seq<uint32>) {
    exists k :: 0 <= k < |rands| && rands[k] % (mtu + 1) != 0
  }

  /** The text is at least mtu long, and a payload fits the buffer and its length byte. */
  predicate Config(text: seq<byte>, mtu: nat) {
    0 < mtu <= |text| && mtu <= RECV_BUF_SIZE && mtu <= 255
  }

  /** send_rnb_data: ret is what the radio driver returns; only 0 means the payload is on its way. */
  function SendData(s: State, draw: nat, ret: int): State {
    s.(expecting := draw,
       net := if ret == 0 then Send(s.net, if draw <= |s.text| then s.text[..draw] else []) else s.net,
       armed := true,
       attempts := s.attempts + 1)
  }

  /** Where the thread goes with what send_rnb_data returns. */
  function AfterSend(ret: int): Thread {
    if ret < 0 then Starting else Ready
  }

  function Step(s: State, a: Action): State {
    match a
    case Client(draw, ret) => ClientStep(s, draw, ret)
    case RadioStep(i) => RadioNext(s, i)
    case Timeout(draw, ret) =>
      if s.armed && 0 < draw <= s.mtu then SendData(s.(armed := false), draw, ret) else s
    case Channel(na) => s.(net := Carry(s.net, na))
  }

  /** One byte of memcmp. */
  predicate SameByte(s: State, k: nat) {
    k < |s.recvBuf| && k < |s.text| && s.recvBuf[k] == s.text[k]
  }

  function ClientStep(s: State, draw: nat, ret: int): State {
    match s.thread
    case Starting =>
      if 0 < draw <= s.mtu
      then SendData(s.(received := 0, armed := false, thread := AfterSend(ret)), draw, ret)
      else s
    case Ready =>
      if s.permit then s.(permit := false, thread := Taken) else s
    case Taken =>
      if s.received == 0 then s.(thread := Starting) else s.(thread := NotEmpty)
    case NotEmpty =>
      if s.received != s.expecting then s.(thread := Ready)
      else s.(thread := Comparing(s.received, 0))
    case Comparing(len, k) =>
      if k >= len then s.(thread := Correct)
      else if SameByte(s, k) then s.(thread := Comparing(len, k + 1))
      else s.(thread := Ready)
    case Correct =>
      if 0 < draw <= s.mtu
      then SendData(s.(counter := Wrap32(s.counter + 1), armed := false, thread := AfterSend(ret)), draw, ret)
      else s
  }

  function RadioNext(s: State, i: nat): State {
    match s.radio
    case Idle =>
      if i < |s.net.replies| then s.(net := Deliver(s.net, i), radio := Copying(s.net.replies[i], 0)) else s
    case Copying(payload, k) =>
      if k < |payload| && k < |s.recvBuf|
      then s.(recvBuf := s.recvBuf[k := payload[k]],
              high := if s.high < k + 1 then k + 1 else s.high,
              radio := Copying(payload, k + 1))
      else s.(received := |payload|, radio := Stored)
    case Stored =>
      s.(permit := true, radio := Idle)
  }

  // ---------- What a step does, told from the state before it ----------

  predicate Drawn(s: State, draw: nat) {
    0 < draw <= s.mtu
  }

  /** The client starts, or starts over. */
  predicate Starts(s: State, a: Action) {
    a.Client? && s.thread.Starting? && Drawn(s, a.draw)
  }

  /** The client takes the permit: a round of processing begins. */
  predicate Takes(s: State, a: Action) {
    a.Client? && s.thread.Ready? && s.permit
  }

  predicate FindsNothing(s: State, a: Action) {
    a.Client? && s.thread.Taken? && s.received == 0
  }

  predicate FindsOtherLength(s: State, a: Action) {
    a.Client? && s.thread.NotEmpty? && s.received != s.expecting
  }

  predicate FindsOtherData(s: State, a: Action) {
    && a.Client? && s.thread.Comparing? && s.thread.k < s.thread.len
    && !SameByte(s, s.thread.k)
  }

  /** A matched reply is counted and answered. */
  predicate Answers(s: State, a: Action) {
    a.Client? && s.thread.Correct? && Drawn(s, a.draw)
  }

  predicate Expires(s: State, a: Action) {
    a.Timeout? && s.armed && Drawn(s, a.draw)
  }

  predicate Gives(s: State, a: Action) {
    a.RadioStep? && s.radio.Stored?
  }

  /** How often each of these has happened in a run. */
  datatype Seen = Seen(
    starts: nat, answers: nat, expiries: nat, gives: nat, rounds: nat,
    nothing: nat, otherLength: nat, otherData: nat)

  function Bit(b: bool): nat {
    if b then 1 else 0
  }

  function Observe(n: Seen, s: State, a: Action): Seen {
    Seen(n.starts + Bit(Starts(s, a)),
         n.answers + Bit(Answers(s, a)),
         n.expiries + Bit(Expires(s, a)),
         n.gives + Bit(Gives(s, a)),
         n.rounds + Bit(Takes(s, a)),
         n.nothing + Bit(FindsNothing(s, a)),
         n.otherLength + Bit(FindsOtherLength(s, a)),
         n.otherData + Bit(FindsOtherData(s, a)))
  }

  ghost function SeenIn(text: seq<byte>, mtu: nat, acts: seq<Action>): Seen {
    if acts == [] then Seen(0, 0, 0, 0, 0, 0, 0, 0)
    else
      var before, a := acts[..|acts| - 1], acts[|acts| - 1];
      Observe(SeenIn(text, mtu, before), Exec(Step, Boot(text, mtu), before), a)
  }

  // ---------- What holds in every reachable state ----------

  /** Everything ever written to recv_buf is text, and `received` counts written bytes only. */
  ghost predicate BufferInv(s: State) {
    && Config(s.text, s.mtu)
    && |s.recvBuf| == RECV_BUF_SIZE
    && s.high <= s.mtu
    && s.received <= s.high
    && (forall j :: 0 <= j < s.high ==> s.recvBuf[j] == s.text[j])
    && (s.radio.Copying? ==>
          && IsPrefix(s.radio.payload, s.text[..s.mtu])
          && s.radio.k <= |s.radio.payload| && s.radio.k <= s.high)
    && (s.thread.Comparing? ==> s.thread.k <= s.thread.len <= s.high)
  }

  function InRound(t: Thread): nat {
    if t.Starting? || t.Ready? then 0 else 1
  }

  function Busy(r: Radio): nat {
    if r.Idle? then 0 else 1
  }

  /** The counters, the timer, the mailbox and the network against what the run has seen. */
  ghost predicate Tally(s: State, n: Seen) {
    && s.attempts == n.starts + n.answers + n.expiries
    && s.counter == n.answers % 0x1_0000_0000
    && s.net.sent <= s.attempts
    && s.net.delivered == n.gives + Busy(s.radio)
    && n.rounds + Bit(s.permit) <= n.gives
    && n.rounds == n.answers + n.otherLength + n.nothing + InRound(s.thread)
    && n.otherData == 0
    && (n.starts > 0 ==> s.armed)
  }

  ghost predicate Inv(s: State) {
    && BufferInv(s)
    && NetInv(s.net, s.text[..s.mtu])
    && (!s.thread.Starting? ==> s.armed)
  }

  lemma SendDataKeepsNet(s: State, draw: nat, ret: int)
    requires Config(s.text, s.mtu) && NetInv(s.net, s.text[..s.mtu]) && 0 < draw <= s.mtu
    ensures NetInv(SendData(s, draw, ret).net, s.text[..s.mtu])
    ensures SendData(s, draw, ret).net.sent <= s.net.sent + 1
    ensures SendData(s, draw, ret).net.delivered == s.net.delivered
  {
    assert s.text[..draw] == s.text[..s.mtu][..draw];
    if ret == 0 { SendKeeps(s.net, s.text[..draw], s.text[..s.mtu]); }
  }

  lemma StartKeepsInv(s: State, draw: nat, ret: int)
    requires Inv(s) && s.thread.Starting? && 0 < draw <= s.mtu
    ensures Inv(ClientStep(s, draw, ret))
  {
    SendDataKeepsNet(s, draw, ret);
  }

  lemma CorrectKeepsInv(s: State, draw: nat, ret: int)
    requires Inv(s) && s.thread.Correct? && 0 < draw <= s.mtu
    ensures Inv(ClientStep(s, draw, ret))
  {
    SendDataKeepsNet(s, draw, ret);
  }

  lemma RoundKeepsBuffer(s: State, draw: nat, ret: int)
    requires BufferInv(s) && !s.thread.Starting? && !s.thread.Correct?
    ensures BufferInv(ClientStep(s, draw, ret))
  {
  }

  lemma RoundKeepsNet(s: State, draw: nat, ret: int)
    requires !s.thread.Starting? && !s.thread.Correct?
    ensures ClientStep(s, draw, ret).net == s.net
    ensures ClientStep(s, draw, ret).text == s.text && ClientStep(s, draw, ret).mtu == s.mtu
  {
  }

  lemma RadioKeepsBuffer(s: State, i: nat)
    requires Inv(s)
    ensures BufferInv(RadioNext(s, i))
  {
    if s.radio.Copying? && s.radio.k < |s.radio.payload| {
      var k := s.radio.k;
      assert s.radio.payload[k] == s.text[k];
    }
  }

  lemma RadioKeepsNet(s: State, i: nat)
    requires s.mtu <= |s.text| && NetInv(s.net, s.text[..s.mtu])
    ensures NetInv(RadioNext(s, i).net, s.text[..s.mtu])
  {
    DeliverKeeps(s.net, i, s.text[..s.mtu]);
  }

  lemma RadioKeepsInv(s: State, i: nat)
    requires Inv(s)
    ensures Inv(RadioNext(s, i))
  {
    RadioKeepsBuffer(s, i);
    RadioKeepsNet(s, i);
    StepKeepsConfig(s, RadioStep(i));
  }

  lemma TimeoutKeepsInv(s: State, draw: nat, ret: int)
    requires Inv(s) && s.armed && 0 < draw <= s.mtu
    ensures Inv(SendData(s.(armed := false), draw, ret))
  {
    SendDataKeepsNet(s.(armed := false), draw, ret);
  }

  lemma ChannelKeepsInv(s: State, na: NetAction)
    requires Inv(s)
    ensures Inv(s.(net := Carry(s.net, na)))
  {
    CarryKeeps(s.net, na, s.text[..s.mtu]);
  }

  lemma StepKeepsInv(s: State, a: Action)
    requires Inv(s)
    ensures Inv(Step(s, a))
  {
    match a {
      case Client(draw, ret) =>
        if s.thread.Starting? {
          if 0 < draw <= s.mtu { StartKeepsInv(s, draw, ret); }
        } else if s.thread.Correct? {
          if 0 < draw <= s.mtu { CorrectKeepsInv(s, draw, ret); }
        } else {
          RoundKeepsBuffer(s, draw, ret);
          RoundKeepsNet(s, draw, ret);
        }
      case RadioStep(i) => RadioKeepsInv(s, i);
      case Timeout(draw, ret) => if s.armed && 0 < draw <= s.mtu { TimeoutKeepsInv(s, draw, ret); }
      case Channel(na) => ChannelKeepsInv(s, na);
    }
  }

  lemma StepKeepsConfig(s: State, a: Action)
    ensures Step(s, a).text == s.text && Step(s, a).mtu == s.mtu
  {
  }

  lemma {:induction false} Reachable(text: seq<byte>, mtu: nat, acts: seq<Action>)
    requires Config(text, mtu)
    ensures var s := Exec(Step, Boot(text, mtu), acts); Inv(s) && s.text == text && s.mtu == mtu
    decreases |acts|
  {
    if acts != [] {
      var before, a := acts[..|acts| - 1], acts[|acts| - 1];
      Reachable(text, mtu, before);
      StepKeepsInv(Exec(Step, Boot(text, mtu), before), a);
      StepKeepsConfig(Exec(Step, Boot(text, mtu), before), a);
    }
  }

  // What each kind of step adds to which counter.

  lemma StepAttempts(s: State, a: Action)
    ensures Step(s, a).attempts == s.attempts + Bit(Starts(s, a)) + Bit(Answers(s, a)) + Bit(Expires(s, a))
    ensures Step(s, a).net.sent - s.net.sent <= Step(s, a).attempts - s.attempts
    ensures s.armed || Starts(s, a) ==> Step(s, a).armed
  {
  }

  lemma StepCounter(s: State, a: Action)
    ensures Step(s, a).counter == Wrap32(s.counter + Bit(Answers(s, a)))
  {
  }

  lemma StepMailbox(s: State, a: Action)
    ensures Step(s, a).net.delivered + Busy(s.radio) == s.net.delivered + Busy(Step(s, a).radio) + Bit(Gives(s, a))
    ensures Bit(Step(s, a).permit) + Bit(Takes(s, a)) <= Bit(s.permit) + Bit(Gives(s, a))
  {
  }

  lemma StepRound(s: State, a: Action)
    requires BufferInv(s)
    ensures InRound(Step(s, a).thread) + Bit(Answers(s, a)) + Bit(FindsOtherLength(s, a)) + Bit(FindsNothing(s, a))
         == InRound(s.thread) + Bit(Takes(s, a))
    ensures !FindsOtherData(s, a)
  {
  }

  lemma WrapNext(counter: uint32, n: nat, more: nat)
    requires counter == n % 0x1_0000_0000
    ensures Wrap32(counter + more) == (n + more) % 0x1_0000_0000
  {
  }

  lemma TallyStep(s: State, n: Seen, a: Action)
    requires BufferInv(s) && Tally(s, n)
    ensures Tally(Step(s, a), Observe(n, s, a))
  {
    StepAttempts(s, a);
    StepCounter(s, a);
    StepMailbox(s, a);
    StepRound(s, a);
    WrapNext(s.counter, n.answers, Bit(Answers(s, a)));
  }

  lemma {:induction false} CountsHold(text: seq<byte>, mtu: nat, acts: seq<Action>)
    requires Config(text, mtu)
    ensures Tally(Exec(Step, Boot(text, mtu), acts), SeenIn(text, mtu, acts))
    decreases |acts|
  {
    if acts != [] {
      var before, a := acts[..|acts| - 1], acts[|acts| - 1];
      CountsHold(text, mtu, before);
      Reachable(text, mtu, before);
      TallyStep(Exec(Step, Boot(text, mtu), before), SeenIn(text, mtu, before), a);
    }
  }

  // ---------- Main results ----------

  /** However copying and comparing overlap, a reply is never rejected for its content: only for its length. */
  lemma {:induction false} RejectedOnlyForLength(text: seq<byte>, mtu: nat, acts: seq<Action>)
    requires Config(text, mtu)
    ensures
      var s, n := Exec(Step, Boot(text, mtu), acts), SeenIn(text, mtu, acts);
      && n.otherData == 0
      && n.rounds == n.answers + n.otherLength + n.nothing + InRound(s.thread)
      && AllPrefixes(s.net.requests, text[..mtu]) && AllPrefixes(s.net.replies, text[..mtu])
  {
    Reachable(text, mtu, acts);
    CountsHold(text, mtu, acts);
  }

  /**
   The one-permit mailbox never yields more processing rounds than there were deliveries, so the counter
   exceeds neither the deliveries nor the echoes nor the packets sent.
   */
  lemma {:induction false} CounterBelowDeliveries(text: seq<byte>, mtu: nat, acts: seq<Action>)
    requires Config(text, mtu)
    ensures
      var s, n := Exec(Step, Boot(text, mtu), acts), SeenIn(text, mtu, acts);
      && s.counter <= n.answers <= n.rounds <= n.gives <= s.net.delivered
      && s.net.delivered <= s.net.echoed <= s.net.sent <= s.attempts
      && Conserved(s.net)
  {
    Reachable(text, mtu, acts);
    CountsHold(text, mtu, acts);
    CountsChain(Exec(Step, Boot(text, mtu), acts), SeenIn(text, mtu, acts));
  }

  lemma CountsChain(s: State, n: Seen)
    requires Tally(s, n) && Conserved(s.net)
    ensures s.counter <= n.answers <= n.rounds <= n.gives <= s.net.delivered
    ensures s.net.delivered <= s.net.echoed <= s.net.sent <= s.attempts
  {
  }

  /** Every send attempt is a start, the answer to a matched reply or an expiry of the reply timer. */
  lemma {:induction false} AttemptsAccountedFor(text: seq<byte>, mtu: nat, acts: seq<Action>)
    requires Config(text, mtu)
    ensures
      var s, n := Exec(Step, Boot(text, mtu), acts), SeenIn(text, mtu, acts);
      s.attempts == n.starts + n.answers + n.expiries && s.counter == n.answers % 0x1_0000_0000
  {
    CountsHold(text, mtu, acts);
  }

  /** From the first start on the timer is armed after every step, and its expiry sends again. */
  lemma NeverStalls(text: seq<byte>, mtu: nat, acts: seq<Action>, draw: nat, ret: int)
    requires Config(text, mtu) && SeenIn(text, mtu, acts).starts > 0 && 0 < draw <= mtu
    ensures
      var s := Exec(Step, Boot(text, mtu), acts);
      var t := Step(s, Timeout(draw, ret));
      s.armed && t.armed && t.attempts == s.attempts + 1
  {
    CountsHold(text, mtu, acts);
    Reachable(text, mtu, acts);
  }

  // ---------- A payload, its echo and its count ----------

  /** A call of the driver: at a start, in answer to a matched reply, or when the timer expires. */
  predicate Sends(s: State, a: Action) {
    match a
    case Client(draw, _) => (s.thread.Starting? || s.thread.Correct?) && 0 < draw <= s.mtu
    case Timeout(draw, _) => s.armed && 0 < draw <= s.mtu
    case _ => false
  }

  /** Each puts exactly the drawn length of the text on its way if the driver takes it, and expects it back. */
  lemma EachSend(s: State, a: Action)
    requires Sends(s, a) && s.mtu <= |s.text|
    ensures
      var t := Step(s, a);
      && t.expecting == a.draw
      && t.net.requests == s.net.requests + (if a.ret == 0 then [s.text[..a.draw]] else [])
      && t.net.replies == s.net.replies
      && t.armed && t.attempts == s.attempts + 1
      && t.received == (if a.Client? && s.thread.Starting? then 0 else s.received)
      && t.thread == (if a.Timeout? then s.thread else if a.ret < 0 then Starting else Ready)
  {
  }

  /** Nothing else sends, or changes what is expected. */
  lemma NothingElseSends(s: State, a: Action)
    requires !Sends(s, a)
    ensures
      var t := Step(s, a);
      t.expecting == s.expecting && |t.net.requests| <= |s.net.requests| && t.attempts == s.attempts
  {
  }

  /** The length drawn by the last send of a run. */
  ghost function LastDraw(text: seq<byte>, mtu: nat, acts: seq<Action>): nat {
    if acts == [] then 0
    else
      var before, a := acts[..|acts| - 1], acts[|acts| - 1];
      if Sends(Exec(Step, Boot(text, mtu), before), a) then a.draw else LastDraw(text, mtu, before)
  }

  lemma {:induction false} ExpectingReadOff(text: seq<byte>, mtu: nat, acts: seq<Action>)
    requires Config(text, mtu)
    ensures Exec(Step, Boot(text, mtu), acts).expecting == LastDraw(text, mtu, acts)
    decreases |acts|
  {
    if acts != [] {
      var before, a := acts[..|acts| - 1], acts[|acts| - 1];
      var s := Exec(Step, Boot(text, mtu), before);
      ExpectingReadOff(text, mtu, before);
      Reachable(text, mtu, before);
      if Sends(s, a) { EachSend(s, a); } else { NothingElseSends(s, a); }
    }
  }

  // ---------- The mailbox, read off the run ----------

  /** Of the gives and takes of a run, the last was a give. */
  ghost predicate LastWasGive(text: seq<byte>, mtu: nat, acts: seq<Action>) {
    if acts == [] then false
    else
      var before, a := acts[..|acts| - 1], acts[|acts| - 1];
      var s := Exec(Step, Boot(text, mtu), before);
      if Gives(s, a) then true else if Takes(s, a) then false else LastWasGive(text, mtu, before)
  }

  /** The length that the radio stored last, unless the client has started since. */
  ghost function LastStored(text: seq<byte>, mtu: nat, acts: seq<Action>): nat {
    if acts == [] then 0
    else
      var before, a := acts[..|acts| - 1], acts[|acts| - 1];
      var s := Exec(Step, Boot(text, mtu), before);
      if Starts(s, a) then 0
      else if a.RadioStep? && s.radio.Copying? && s.radio.k == |s.radio.payload| then |s.radio.payload|
      else LastStored(text, mtu, before)
  }

  lemma MailboxStep(s: State, a: Action)
    requires Inv(s)
    ensures Step(s, a).permit == (Gives(s, a) || (s.permit && !Takes(s, a)))
    ensures Step(s, a).received ==
            (if Starts(s, a) then 0
             else if a.RadioStep? && s.radio.Copying? && s.radio.k == |s.radio.payload| then |s.radio.payload|
             else s.received)
  {
  }

  /**
   In every run the semaphore is available exactly if it was given since it was last taken, and received
   is the length of the last payload stored since the client last started.
   */
  lemma {:induction false} MailboxReadOff(text: seq<byte>, mtu: nat, acts: seq<Action>)
    requires Config(text, mtu)
    ensures
      var s := Exec(Step, Boot(text, mtu), acts);
      s.permit == LastWasGive(text, mtu, acts) && s.received == LastStored(text, mtu, acts)
    decreases |acts|
  {
    if acts != [] {
      var before, a := acts[..|acts| - 1], acts[|acts| - 1];
      MailboxReadOff(text, mtu, before);
      Reachable(text, mtu, before);
      MailboxStep(Exec(Step, Boot(text, mtu), before), a);
    }
  }

  // ---------- What comes of a reply ----------

  /** The callback, uninterrupted: it fetches reply i, copies it, stores its length and gives the semaphore. */
  ghost function CallbackRun(i: nat, n: nat): seq<Action> {
    [RadioStep(i)] + Repeat(RadioStep(0), n + 2)
  }

  /** What it leaves behind. */
  ghost predicate Posted(s: State, t: State, i: nat, payload: seq<byte>)
    requires i < |s.net.replies|
  {
    && t.received == |payload| && t.permit && t.radio.Idle?
    && |t.recvBuf| == |s.recvBuf| && |payload| <= |t.recvBuf| && t.recvBuf[..|payload|] == payload
    && t.net.replies == s.net.replies[..i] + s.net.replies[i + 1..] && t.net.requests == s.net.requests
    && t.thread == s.thread && t.counter == s.counter && t.expecting == s.expecting && t.armed == s.armed
    && t.text == s.text && t.mtu == s.mtu
  }

  /** The whole payload is copied: its length is stored and the semaphore given. */
  lemma CopyEnd(s: State)
    requires s.radio.Copying? && s.radio.k == |s.radio.payload|
    ensures Exec(Step, s, Repeat(RadioStep(0), 2))
         == s.(received := |s.radio.payload|, permit := true, radio := Idle)
  {
    ExecRepeatTwice(Step, s, RadioStep(0), 0);
  }

  lemma {:induction false} CopyRun(s: State, n: nat)
    requires s.radio.Copying? && s.radio.k + n == |s.radio.payload| <= |s.recvBuf|
    requires s.recvBuf[..s.radio.k] == s.radio.payload[..s.radio.k]
    ensures
      var t, p := Exec(Step, s, Repeat(RadioStep(0), n + 2)), s.radio.payload;
      && t == s.(recvBuf := t.recvBuf, received := |p|, permit := true, radio := Idle, high := t.high)
      && |t.recvBuf| == |s.recvBuf| && t.recvBuf[..|p|] == p
    decreases n
  {
    if n == 0 {
      CopyEnd(s);
      assert s.radio.payload[..s.radio.k] == s.radio.payload;
    } else {
      var u := Step(s, RadioStep(0));
      CopyByte(s);
      CopyRun(u, n - 1);
      ExecRepeat(Step, s, RadioStep(0), n + 1);
    }
  }

  lemma CopyByte(s: State)
    requires s.radio.Copying? && s.radio.k < |s.radio.payload| <= |s.recvBuf|
    requires s.recvBuf[..s.radio.k] == s.radio.payload[..s.radio.k]
    ensures
      var u, k := Step(s, RadioStep(0)), s.radio.k + 1;
      && u == s.(recvBuf := u.recvBuf, high := u.high, radio := Copying(s.radio.payload, k))
      && |u.recvBuf| == |s.recvBuf| && u.recvBuf[..k] == s.radio.payload[..k]
  {
  }

  lemma CallbackFetches(s: State, i: nat)
    requires s.radio.Idle? && i < |s.net.replies|
    ensures
      var p := s.net.replies[i];
      Exec(Step, s, CallbackRun(i, |p|)) ==
      Exec(Step, s.(net := Deliver(s.net, i), radio := Copying(p, 0)), Repeat(RadioStep(0), |p| + 2))
  {
    var a := RadioStep(i);
    assert [] + [a] == [a];
    ExecSnoc(Step, s, [], a);
    ExecConcat(Step, s, [a], Repeat(RadioStep(0), |s.net.replies[i]| + 2));
  }

  lemma CallbackPosts(s: State, i: nat)
    requires s.radio.Idle? && i < |s.net.replies| && |s.net.replies[i]| <= |s.recvBuf|
    ensures Posted(s, Exec(Step, s, CallbackRun(i, |s.net.replies[i]|)), i, s.net.replies[i])
  {
    CallbackFetches(s, i);
    CopyRun(s.(net := Deliver(s.net, i), radio := Copying(s.net.replies[i], 0)), |s.net.replies[i]|);
  }

  /** The client, uninterrupted, from the semaphore on: take, test, compare n bytes, and answer. */
  ghost function RoundRun(n: nat, draw: nat, ret: int): seq<Action> {
    Repeat(Client(0, 0), n + 4) + [Client(draw, ret)]
  }

  lemma {:induction false} CompareRun(s: State, n: nat)
    requires s.thread.Comparing? && s.thread.k + n == s.thread.len
    requires s.thread.len <= |s.recvBuf| && s.thread.len <= |s.text|
    requires s.recvBuf[..s.thread.len] == s.text[..s.thread.len]
    ensures Exec(Step, s, Repeat(Client(0, 0), n + 1)) == s.(thread := Correct)
    decreases n
  {
    ExecRepeat(Step, s, Client(0, 0), n);
    if n > 0 {
      var k := s.thread.k;
      assert s.recvBuf[..s.thread.len][k] == s.text[..s.thread.len][k];
      CompareRun(Step(s, Client(0, 0)), n - 1);
    }
  }

  /** In any state, whatever the network may have done to a payload, the first wrong byte ends the comparison. */
  lemma {:induction false} ComparesContent(s: State, n: nat)
    requires s.thread.Comparing? && s.thread.k + n < s.thread.len <= |s.recvBuf| && s.thread.len <= |s.text|
    requires forall j :: s.thread.k <= j < s.thread.k + n ==> s.recvBuf[j] == s.text[j]
    requires s.recvBuf[s.thread.k + n] != s.text[s.thread.k + n]
    ensures Exec(Step, s, Repeat(Client(0, 0), n + 1)) == s.(thread := Ready)
    decreases n
  {
    ExecRepeat(Step, s, Client(0, 0), n);
    if n > 0 { ComparesContent(Step(s, Client(0, 0)), n - 1); }
  }

  lemma TakeAndTest(s: State, n: nat)
    requires s.thread.Ready? && s.permit && 0 < s.received == s.expecting == n
    ensures Exec(Step, s, Repeat(Client(0, 0), n + 4))
         == Exec(Step, s.(permit := false, thread := Comparing(n, 0)), Repeat(Client(0, 0), n + 1))
  {
    var u := s.(permit := false, thread := NotEmpty);
    TakesAndFinds(s);
    ExecRepeatTwice(Step, s, Client(0, 0), n + 2);
    ExecRepeat(Step, u, Client(0, 0), n + 1);
  }

  lemma TakesAndFinds(s: State)
    requires s.thread.Ready? && s.permit && s.received > 0
    ensures Step(Step(s, Client(0, 0)), Client(0, 0)) == s.(permit := false, thread := NotEmpty)
  {
  }

  lemma ReachesCorrect(s: State, n: nat)
    requires s.thread.Ready? && s.permit && 0 < s.received == s.expecting == n
    requires n <= |s.recvBuf| && n <= |s.text| && s.recvBuf[..n] == s.text[..n]
    ensures Exec(Step, s, Repeat(Client(0, 0), n + 4)) == s.(permit := false, thread := Correct)
  {
    TakeAndTest(s, n);
    CompareRun(s.(permit := false, thread := Comparing(n, 0)), n);
  }

  lemma AnswerCounts(v: State, draw: nat, ret: int)
    requires v.thread.Correct? && v.mtu <= |v.text| && 0 < draw <= v.mtu
    ensures
      var t := Step(v, Client(draw, ret));
      && t.counter == (v.counter + 1) % 0x1_0000_0000 && t.permit == v.permit && t.expecting == draw && t.armed
      && t.net.requests == v.net.requests + (if ret == 0 then [v.text[..draw]] else [])
      && t.thread == if ret < 0 then Starting else Ready
  {
    EachSend(v, Client(draw, ret));
    StepCounter(v, Client(draw, ret));
  }

  /** A stored reply of the expected length is taken, compared equal, counted and answered. */
  lemma RoundCounts(s: State, draw: nat, ret: int)
    requires s.thread.Ready? && s.permit && 0 < s.received == s.expecting
    requires s.received <= |s.recvBuf| && s.mtu <= |s.text| && s.received <= |s.text|
    requires s.recvBuf[..s.received] == s.text[..s.received] && 0 < draw <= s.mtu
    ensures
      var t := Exec(Step, s, RoundRun(s.received, draw, ret));
      && t.counter == (s.counter + 1) % 0x1_0000_0000 && !t.permit && t.expecting == draw && t.armed
      && t.net.requests == s.net.requests + (if ret == 0 then [s.text[..draw]] else [])
      && t.thread == if ret < 0 then Starting else Ready
  {
    var acts, v := Repeat(Client(0, 0), s.received + 4), s.(permit := false, thread := Correct);
    ReachesCorrect(s, s.received);
    ExecSnoc(Step, s, acts, Client(draw, ret));
    assert Exec(Step, s, RoundRun(s.received, draw, ret)) == Step(v, Client(draw, ret));
    AnswerCounts(v, draw, ret);
  }

  /** Any other reply sends the client back to wait, or to start over if nothing was received. */
  lemma RoundRejects(s: State)
    requires s.thread.Ready? && s.permit && s.received != s.expecting
    ensures
      var t := Exec(Step, s, Repeat(Client(0, 0), if s.received == 0 then 2 else 3));
      t == s.(permit := false, thread := if s.received == 0 then Starting else Ready)
  {
    var c := Client(0, 0);
    var u1 := Step(s, c);
    var u2 := Step(u1, c);
    if s.received == 0 {
      ExecRepeat(Step, s, c, 1);
      ExecRepeat(Step, u1, c, 0);
    } else {
      ExecRepeat(Step, s, c, 2);
      ExecRepeat(Step, u1, c, 1);
      ExecRepeat(Step, u2, c, 0);
    }
  }

  /** The state a reply has been posted in, as far as the round that follows is concerned. */
  ghost predicate Delivered(u: State, text: seq<byte>, mtu: nat, n: nat) {
    && u.thread.Ready? && u.permit && u.received == n > 0 && u.text == text && u.mtu == mtu <= |text|
    && n <= |u.recvBuf| && n <= |text| && u.recvBuf[..n] == text[..n]
  }

  lemma CallbackDelivers(text: seq<byte>, mtu: nat, acts: seq<Action>, i: nat)
    requires Config(text, mtu)
    requires var s := Exec(Step, Boot(text, mtu), acts);
             s.thread.Ready? && s.radio.Idle? && i < |s.net.replies|
    ensures
      var s := Exec(Step, Boot(text, mtu), acts);
      var n := |s.net.replies[i]|;
      var u := Exec(Step, s, CallbackRun(i, n));
      && Delivered(u, text, mtu, n) && u.expecting == LastDraw(text, mtu, acts)
      && u.counter == s.counter && u.net.requests == s.net.requests
  {
    var s := Exec(Step, Boot(text, mtu), acts);
    var reply := s.net.replies[i];
    Reachable(text, mtu, acts);
    ExpectingReadOff(text, mtu, acts);
    assert IsPrefix(reply, text[..mtu]);
    assert text[..mtu][..|reply|] == text[..|reply|];
    CallbackPosts(s, i);
  }

  /**
   From any reachable state with the client waiting and the radio idle, a reply in flight that is
   delivered and processed undisturbed is counted and answered exactly when it has the length last sent;
   otherwise the client waits again.
   */
  lemma {:induction false} ReplyIsCountedIff(
    text: seq<byte>, mtu: nat, acts: seq<Action>, i: nat, draw: nat, ret: int)
    requires Config(text, mtu) && 0 < draw <= mtu
    requires var s := Exec(Step, Boot(text, mtu), acts);
             s.thread.Ready? && s.radio.Idle? && i < |s.net.replies|
    ensures
      var s := Exec(Step, Boot(text, mtu), acts);
      var n := |s.net.replies[i]|;
      var u := Exec(Step, s, CallbackRun(i, n));
      if n == LastDraw(text, mtu, acts) then
        var t := Exec(Step, u, RoundRun(n, draw, ret));
        && t.counter == (s.counter + 1) % 0x1_0000_0000 && t.expecting == draw && t.armed
        && t.net.requests == s.net.requests + (if ret == 0 then [text[..draw]] else [])
        && t.thread == if ret < 0 then Starting else Ready
      else
        var t := Exec(Step, u, Repeat(Client(0, 0), 3));
        t.counter == s.counter && t.thread == Ready && t.net.requests == s.net.requests && !t.permit
  {
    CallbackDelivers(text, mtu, acts, i);
    var s := Exec(Step, Boot(text, mtu), acts);
    var u := Exec(Step, s, CallbackRun(i, |s.net.replies[i]|));
    if u.received == u.expecting { RoundCounts(u, draw, ret); } else { RoundRejects(u); }
  }

  // ---------- The turns of the client thread ----------

  /** One turn of a loop of start_client_rnb: a start, with what the driver returned, or a round. */
  datatype Turn = Began(ret: int) | Took

  function TurnOf(s: State, a: Action): seq<Turn> {
    if Starts(s, a) then [Began(a.ret)] else if Takes(s, a) then [Took] else []
  }

  /** The turns a run takes. */
  ghost function Turns(start: State, acts: seq<Action>): seq<Turn> {
    if acts == [] then []
    else
      var before, a := acts[..|acts| - 1], acts[|acts| - 1];
      Turns(start, before) + TurnOf(Exec(Step, start, before), a)
  }

  lemma Extend(start: State, acts: seq<Action>, a: Action)
    ensures Exec(Step, start, acts + [a]) == Step(Exec(Step, start, acts), a)
    ensures Turns(start, acts + [a]) == Turns(start, acts) + TurnOf(Exec(Step, start, acts), a)
    ensures TurnOf(Exec(Step, start, acts), a) == [] ==> Turns(start, acts + [a]) == Turns(start, acts)
  {
    assert (acts + [a])[..|acts|] == acts;
  }

  /** So many turns, each start with the result the driver had ready for it. */
  predicate Follows(n: nat, env: seq<int>, turns: seq<Turn>) {
    && |turns| == n <= |env|
    && forall t :: 0 <= t < |turns| ==> turns[t] == Took || turns[t] == Began(env[t])
  }

  lemma OneMoreTurn(n: nat, env: seq<int>, turns: seq<Turn>, t: Turn)
    requires Follows(n, env, turns) && n < |env| && (t == Took || t == Began(env[n]))
    ensures Follows(n + 1, env, turns + [t])
  {
  }

  /** The thread waits for a permit that is not there. */
  predicate Blocked(s: State) {
    s.thread.Ready? && !s.permit
  }

  // ---------- The code ----------

  lemma {:induction false} RunKeepsInv(start: State, acts: seq<Action>)
    requires Inv(start)
    ensures
      var s := Exec(Step, start, acts);
      Inv(s) && s.text == start.text && s.mtu == start.mtu
    decreases |acts|
  {
    if acts != [] {
      var before, a := acts[..|acts| - 1], acts[|acts| - 1];
      RunKeepsInv(start, before);
      StepKeepsInv(Exec(Step, start, before), a);
      StepKeepsConfig(Exec(Step, start, before), a);
    }
  }

  /** No comparison reads past what was received, and nothing received is longer than the mtu. */
  lemma RunInBounds(start: State, acts: seq<Action>)
    requires Inv(start)
    ensures
      var s := Exec(Step, start, acts);
      s.received <= start.mtu && |s.recvBuf| == RECV_BUF_SIZE
  {
    RunKeepsInv(start, acts);
  }

  /** struct data_rnb, the mailbox and the client thread. */
  class RnbClient {
    const text: seq<byte>
    const mtu: nat
    const recvBuf: array<byte>
    var net: Net
    var received: nat
    var permit: bool
    var radio: Radio
    var armed: bool
    var expecting: nat
    var counter: uint32
    ghost var thread: Thread
    ghost var attempts: nat
    ghost var high: nat

    ghost function Model(): State
      reads this, recvBuf
    {
      State(text, mtu, net, recvBuf[..], received, permit, radio, thread, armed, expecting, counter,
            attempts, high)
    }

    constructor (text: seq<byte>, mtu: nat)
      ensures Model() == Boot(text, mtu) && fresh(recvBuf)
    {
      this.text, this.mtu := text, mtu;
      recvBuf := new byte[RECV_BUF_SIZE](_ => 0);
      net, received, permit, radio := QUIET, 0, false, Idle;
      armed, expecting, counter := false, 0, 0;
      thread, attempts, high := Starting, 0, 0;
      new;
      assert recvBuf[..] == Boot(text, mtu).recvBuf;
    }

    /** The do-while of send_rnb_data. */
    method Draw(rands: seq<uint32>)
      requires DrawEnds(mtu, rands)
      modifies this`expecting
      ensures 0 < expecting <= mtu
      ensures exists k :: 0 <= k < |rands| && expecting == rands[k] % (mtu + 1)
                && forall j :: 0 <= j < k ==> rands[j] % (mtu + 1) == 0
    {
      var n := 0;
      expecting := rands[n] % (mtu + 1);
      while expecting == 0
        invariant 0 <= n < |rands| && 0 <= expecting <= mtu && expecting == rands[n] % (mtu + 1)
        invariant exists k :: n <= k < |rands| && rands[k] % (mtu + 1) != 0
        invariant forall j :: 0 <= j < n ==> rands[j] % (mtu + 1) == 0
        decreases |rands| - n
      {
        n := n + 1;
        expecting := rands[n] % (mtu + 1);
      }
    }

    /** send_rnb_data: apiRet is what the radio driver answers; the timer is armed whatever it is. */
    method SendRnbData(rands: seq<uint32>, apiRet: int) returns (ret: int)
      requires DrawEnds(mtu, rands)
      requires mtu <= |text|
      modifies this
      ensures 0 < expecting <= mtu
      ensures Model() == SendData(old(Model()), expecting, apiRet)
      ensures ret == if apiRet < 0 then -EIO else 0
    {
      Draw(rands);
      if apiRet == 0 { net := Send(net, text[..expecting]); }
      armed := true;
      attempts := attempts + 1;
      return if apiRet < 0 then -EIO else 0;
    }

    /** rnb_utils_handle_user_payload, one byte or one statement at a time. */
    method CallbackStep(i: nat)
      requires recvBuf.Length == RECV_BUF_SIZE
      modifies this, recvBuf
      ensures Model() == RadioNext(old(Model()), i) && thread == old(thread)
    {
      match radio {
        case Idle =>
          if i < |net.replies| {
            radio := Copying(net.replies[i], 0);
            net := Deliver(net, i);
          }
        case Copying(payload, k) =>
          if k < |payload| && k < recvBuf.Length {
            recvBuf[k] := payload[k];
            high := if high < k + 1 then k + 1 else high;
            radio := Copying(payload, k + 1);
          } else {
            received := |payload|;
            radio := Stored;
          }
        case Stored =>
          permit := true;
          radio := Idle;
      }
    }

    /** wait_reply */
    method WaitReply(rands: seq<uint32>, apiRet: int)
      requires armed && mtu <= |text|
      requires DrawEnds(mtu, rands)
      modifies this
      ensures Model() == Step(old(Model()), Timeout(expecting, apiRet)) && thread == old(thread)
    {
      armed := false;
      var _ := SendRnbData(rands, apiRet);
    }

    /** One step of the radio callback, the timer or the network. */
    method Elsewhere(ghost start: State, ghost acts: seq<Action>) returns (ghost acts': seq<Action>)
      requires Model() == Exec(Step, start, acts) && recvBuf.Length == RECV_BUF_SIZE && mtu <= |text|
      modifies this, recvBuf
      ensures Model() == Exec(Step, start, acts') && thread == old(thread)
      ensures Turns(start, acts') == Turns(start, acts)
    {
      var i: nat, na: NetAction, rands: seq<uint32>, apiRet: int := *, *, *, *;
      if
      case true =>
        Extend(start, acts, RadioStep(i));
        acts' := acts + [RadioStep(i)];
        CallbackStep(i);
      case armed && DrawEnds(mtu, rands) =>
        WaitReply(rands, apiRet);
        Extend(start, acts, Timeout(expecting, apiRet));
        acts' := acts + [Timeout(expecting, apiRet)];
      case true =>
        Extend(start, acts, Channel(na));
        acts' := acts + [Channel(na)];
        net := Carry(net, na);
    }

    /** Everything outside the client thread, for as long as the scheduler lets it. */
    method World(ghost start: State, ghost acts: seq<Action>) returns (ghost acts': seq<Action>)
      requires Model() == Exec(Step, start, acts) && recvBuf.Length == RECV_BUF_SIZE && mtu <= |text|
      modifies this, recvBuf
      ensures Model() == Exec(Step, start, acts') && thread == old(thread)
      ensures Turns(start, acts') == Turns(start, acts)
    {
      acts' := acts;
      var budget: nat := *;
      while budget > 0
        invariant Model() == Exec(Step, start, acts') && thread == old(thread)
        invariant Turns(start, acts') == Turns(start, acts)
      {
        acts' := Elsewhere(start, acts');
        budget := budget - 1;
      }
    }

    /** The end of process_rnb_proto: count, cancel the timer, send the next payload. */
    method CorrectReply(rands: seq<uint32>, apiRet: int) returns (ret: int)
      requires thread == Correct && mtu <= |text|
      requires DrawEnds(mtu, rands)
      modifies this
      ensures Model() == Step(old(Model()), Client(expecting, apiRet)) && thread == AfterSend(apiRet)
      ensures thread == if ret == 0 then Ready else Starting
    {
      counter := Wrap32(counter + 1);
      armed := false;
      thread := AfterSend(apiRet);
      ret := SendRnbData(rands, apiRet);
    }

    /** One byte of memcmp. */
    method CompareOne(len: nat, k: nat) returns (equal: bool)
      requires recvBuf.Length == RECV_BUF_SIZE && mtu <= |text|
      requires thread == Comparing(len, k) && k < len <= mtu <= RECV_BUF_SIZE
      modifies this`thread
      ensures Model() == ClientStep(old(Model()), 0, 0)
      ensures thread == if equal then Comparing(len, k + 1) else Ready
    {
      equal := recvBuf[k] == text[k];
      thread := if equal then Comparing(len, k + 1) else Ready;
    }

    /** One byte of memcmp, after whatever the callback has written meanwhile. */
    method CompareByte(len: nat, k: nat, ghost start: State, ghost acts: seq<Action>)
      returns (equal: bool, ghost acts': seq<Action>)
      requires Model() == Exec(Step, start, acts) && recvBuf.Length == RECV_BUF_SIZE && mtu <= |text|
      requires thread == Comparing(len, k) && k < len <= mtu <= RECV_BUF_SIZE
      modifies this, recvBuf
      ensures Model() == Exec(Step, start, acts') && thread == if equal then Comparing(len, k + 1) else Ready
      ensures Turns(start, acts') == Turns(start, acts)
    {
      acts' := World(start, acts);
      Extend(start, acts', Client(0, 0));
      acts' := acts' + [Client(0, 0)];
      equal := CompareOne(len, k);
    }

    /** compare_rnb_data: memcmp, while the callback may be writing the same buffer. */
    method CompareRnbData(len: nat, ghost start: State, ghost acts: seq<Action>)
      returns (equal: bool, ghost acts': seq<Action>)
      requires Model() == Exec(Step, start, acts) && recvBuf.Length == RECV_BUF_SIZE && mtu <= |text|
      requires thread == Comparing(len, 0) && len <= mtu <= RECV_BUF_SIZE
      modifies this, recvBuf
      ensures Model() == Exec(Step, start, acts') && thread == if equal then Correct else Ready
      ensures Turns(start, acts') == Turns(start, acts)
    {
      equal, acts' := true, acts;
      var k := 0;
      while k < len
        invariant 0 <= k <= len
        invariant Model() == Exec(Step, start, acts') && thread == Comparing(len, k)
        invariant Turns(start, acts') == Turns(start, acts)
      {
        equal, acts' := CompareByte(len, k, start, acts');
        if !equal { return; }
        k := k + 1;
      }
      Extend(start, acts', Client(0, 0));
      acts' := acts' + [Client(0, 0)];
      thread := Correct;
    }

    /** The test for an empty mailbox at the top of process_rnb_proto. */
    method TestEmpty() returns (empty: bool)
      requires thread == Taken
      modifies this`thread
      ensures Model() == ClientStep(old(Model()), 0, 0) && thread == if empty then Starting else NotEmpty
    {
      empty := received == 0;
      thread := if empty then Starting else NotEmpty;
    }

    /** The length test of compare_rnb_data, on `received` as it is at the call. */
    method TestLength() returns (same: bool)
      requires thread == NotEmpty
      modifies this`thread
      ensures Model() == ClientStep(old(Model()), 0, 0)
      ensures thread == if same then Comparing(received, 0) else Ready
    {
      same := received == expecting;
      thread := if same then Comparing(received, 0) else Ready;
    }

    /** process_rnb_proto, once the semaphore is taken. */
    method ProcessRnbProto(ghost start: State, ghost acts: seq<Action>, rands: seq<uint32>, apiRet: int)
      returns (ret: int, ghost acts': seq<Action>)
      requires Model() == Exec(Step, start, acts) && Inv(start) && start.mtu == mtu && start.text == text
      requires recvBuf.Length == RECV_BUF_SIZE && thread == Taken
      requires DrawEnds(mtu, rands)
      modifies this, recvBuf
      ensures Model() == Exec(Step, start, acts') && thread == if ret == 0 then Ready else Starting
      ensures Turns(start, acts') == Turns(start, acts)
    {
      RunInBounds(start, acts);
      acts' := World(start, acts);
      Extend(start, acts', Client(0, 0));
      acts' := acts' + [Client(0, 0)];
      var empty := TestEmpty();
      if empty { return -EIO, acts'; }
      var equal: bool;
      equal, acts' := CompareReceived(start, acts');
      if !equal { return 0, acts'; }
      ret, acts' := AnswerReply(start, acts', rands, apiRet);
    }

    /** compare_rnb_data, the length first. */
    method CompareReceived(ghost start: State, ghost acts: seq<Action>) returns (equal: bool, ghost acts': seq<Action>)
      requires Model() == Exec(Step, start, acts) && Inv(start) && start.mtu == mtu && start.text == text
      requires recvBuf.Length == RECV_BUF_SIZE && mtu <= |text| && mtu <= RECV_BUF_SIZE && thread == NotEmpty
      modifies this, recvBuf
      ensures Model() == Exec(Step, start, acts') && thread == if equal then Correct else Ready
      ensures Turns(start, acts') == Turns(start, acts)
    {
      acts' := World(start, acts);
      RunInBounds(start, acts');
      Extend(start, acts', Client(0, 0));
      acts' := acts' + [Client(0, 0)];
      equal := TestLength();
      if equal { equal, acts' := CompareRnbData(received, start, acts'); }
    }

    /** The rest of process_rnb_proto, for a correct response. */
    method AnswerReply(ghost start: State, ghost acts: seq<Action>, rands: seq<uint32>, apiRet: int)
      returns (ret: int, ghost acts': seq<Action>)
      requires Model() == Exec(Step, start, acts) && recvBuf.Length == RECV_BUF_SIZE
      requires mtu <= |text| && thread == Correct && DrawEnds(mtu, rands)
      modifies this, recvBuf
      ensures Model() == Exec(Step, start, acts') && thread == if ret == 0 then Ready else Starting
      ensures Turns(start, acts') == Turns(start, acts)
    {
      acts' := World(start, acts);
      ret := CorrectReply(rands, apiRet);
      Extend(start, acts', Client(expecting, apiRet));
      acts' := acts' + [Client(expecting, apiRet)];
    }

    /** start_rnb_user_payload */
    method StartRnbUserPayload(rands: seq<uint32>, apiRet: int) returns (ret: int)
      requires thread == Starting && mtu <= |text|
      requires DrawEnds(mtu, rands)
      modifies this
      ensures 0 < expecting <= mtu && Model() == Step(old(Model()), Client(expecting, apiRet))
      ensures thread == if ret == 0 then Ready else Starting
    {
      received := 0;
      armed := false;
      thread := AfterSend(apiRet);
      ret := SendRnbData(rands, apiRet);
    }

    /** wait_rnb_user_payload_reply: takes the permit if there is one, and blocks otherwise. */
    method WaitRnbUserPayloadReply() returns (taken: bool)
      requires thread == Ready
      modifies this
      ensures Model() == Step(old(Model()), Client(0, 0))
      ensures taken == old(permit) && thread == if taken then Taken else Ready
    {
      taken := permit;
      if permit {
        permit := false;
        thread := Taken;
      }
    }

    /** A random stream on which the draw ends. */
    method Random() returns (rands: seq<uint32>)
      requires mtu > 0
      ensures DrawEnds(mtu, rands)
    {
      rands := *;
      if !DrawEnds(mtu, rands) {
        rands := [1];
        assert rands[0] % (mtu + 1) == 1;
      }
    }

    /** run_rnb: takes the permit and goes through the whole round, or blocks because there is none. */
    method RunRnb(apiRet: int, ghost start: State, ghost acts: seq<Action>)
      returns (taken: bool, ret: int, ghost acts': seq<Action>)
      requires Model() == Exec(Step, start, acts) && Inv(start) && start.mtu == mtu && start.text == text
      requires recvBuf.Length == RECV_BUF_SIZE && thread == Ready
      modifies this, recvBuf
      ensures Model() == Exec(Step, start, acts') && thread == if ret == 0 then Ready else Starting
      ensures Turns(start, acts') == Turns(start, acts) + if taken then [Took] else []
      ensures !taken ==> Blocked(Model()) && ret == 0
    {
      RunKeepsInv(start, acts);
      acts' := World(start, acts);
      Extend(start, acts', Client(0, 0));
      acts' := acts' + [Client(0, 0)];
      taken := WaitRnbUserPayloadReply();
      ret := 0;
      if taken {
        var rands := Random();
        ret, acts' := ProcessRnbProto(start, acts', rands, apiRet);
      }
    }

    /**
     start_client_rnb: both loops, with the world at work in between.  It takes a turn for everything the
     environment has ready, in order, unless it blocks.
     */
    method StartClientRnb(env: seq<int>) returns (ghost acts: seq<Action>)
      requires Inv(Model()) && thread == Starting
      modifies this, recvBuf
      ensures Model() == Exec(Step, old(Model()), acts) && Inv(Model())
      ensures Follows(|Turns(old(Model()), acts)|, env, Turns(old(Model()), acts))
      ensures |Turns(old(Model()), acts)| == |env| || Blocked(Model())
    {
      ghost var start := Model();
      acts := [];
      var turn := 0;
      while turn < |env|
        invariant Model() == Exec(Step, start, acts) && thread == Starting
        invariant Follows(turn, env, Turns(start, acts))
      {
        acts := World(start, acts);
        var ret;
        ret, acts := Start(turn, env, start, acts);
        turn := turn + 1;
        turn, ret, acts := InnerLoop(turn, env, ret, start, acts);
        if ret == 0 { break; }
      }
      RunKeepsInv(start, acts);
    }

    /** start_rnb */
    method Start(turn: nat, env: seq<int>, ghost start: State, ghost acts: seq<Action>)
      returns (ret: int, ghost acts': seq<Action>)
      requires Model() == Exec(Step, start, acts) && thread == Starting && 0 < mtu <= |text|
      requires Follows(turn, env, Turns(start, acts)) && turn < |env|
      modifies this
      ensures Model() == Exec(Step, start, acts') && Follows(turn + 1, env, Turns(start, acts'))
      ensures thread == if ret == 0 then Ready else Starting
    {
      var rands := Random();
      ret := StartRnbUserPayload(rands, env[turn]);
      Extend(start, acts, Client(expecting, env[turn]));
      acts' := acts + [Client(expecting, env[turn])];
      OneMoreTurn(turn, env, Turns(start, acts), Began(env[turn]));
    }

    /** The inner loop of start_client_rnb. */
    method InnerLoop(from: nat, env: seq<int>, started: int, ghost start: State, ghost acts: seq<Action>)
      returns (turn: nat, ret: int, ghost acts': seq<Action>)
      requires Model() == Exec(Step, start, acts) && Inv(start) && start.mtu == mtu && start.text == text
      requires recvBuf.Length == RECV_BUF_SIZE && thread == if started == 0 then Ready else Starting
      requires Follows(from, env, Turns(start, acts))
      modifies this, recvBuf
      ensures Model() == Exec(Step, start, acts') && Follows(turn, env, Turns(start, acts'))
      ensures thread == if ret == 0 then Ready else Starting
      ensures from <= turn && (ret == 0 ==> turn == |env| || Blocked(Model()))
    {
      turn, ret, acts' := from, started, acts;
      while turn < |env| && ret == 0
        invariant Model() == Exec(Step, start, acts') && Follows(turn, env, Turns(start, acts')) && from <= turn
        invariant thread == if ret == 0 then Ready else Starting
      {
        ghost var before := acts';
        var taken;
        taken, ret, acts' := RunRnb(env[turn], start, acts');
        if !taken { return; }
        OneMoreTurn(turn, env, Turns(start, before), Took);
        turn := turn + 1;
      }
    }
  }
}
