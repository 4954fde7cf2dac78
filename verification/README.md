# Verified model of the RedNodeBus node software

Nodes of a RedNodeBus network run Zephyr samples on top of a small runtime. This project models the parts
that hold state, run concurrently or compute, and proves what they promise for every run and every input.

Every component with concurrency or hidden results appears twice. First it is a transition system:
a `State`, an `Action` for each thing that can happen next (the environment's choices and results are part
of the action), and a function `Step`; a run is a sequence of actions, its end is `Runs.Exec`. The main
lemmas quantify over all such sequences. Then it is the code itself: a class with the original's variables
as fields and its functions as methods, whose `ensures` equate the state they leave with the end of a run of
that same transition system. Where another thread or an interrupt may cut in, the method calls one that does
whatever the outside world may do at that point, and the endless loops take a turn for everything the outside
has ready, in order, unless they block. Ghost fields record
the run (calls made, events delivered, packets sent); the code does not read them.

| file | what it models |
|---|---|
| `Runs.dfy`, `Machine.dfy` | runs of a transition system; bytes and 32-bit integers |
| `EventPool.dfy` | the event slots and FIFO of `rnb_utils.c` between radio callback and dispatcher |
| `Lifecycle.dfy` | the four flags and four work items of `rnb_utils.c` |
| `Interleaving.dfy` | the same, with the single statements of dispatcher and handlers taking turns |
| `StackCalls.dfy` | what those handlers leave behind in OpenThread and the radio driver; class `Runtime` |
| `Watchdog.dfy` | the watchdog thread, in ticks of a quarter of the watchdog period |
| `EchoNet.dfy` | a lossy, delaying, reordering, non-duplicating network with an honest echo server |
| `EchoUdp.dfy` | the UDP echo client with TCP disabled (samples/echo_client/overlay-ot-rnb.conf:8) |
| `EchoRnb.dfy` | the user-payload echo client, whose callback and comparison overlap byte by byte |
| `Battery.dfy` | discharge-curve estimation in 32-bit arithmetic against the exact real curve |
| `SpiDriver.dfy` | the ranging SPI driver, with interrupts nesting driver calls inside transfers |
| `Utf8.dfy` | strict decoding of UTF-8, as section 4 of RFC 3629 defines it |
| `Codec.dfy`, `Telemetry.dfy` | packet layouts: encoding on the node, decoding in the Python scripts |
| `LossStats.dfy` | the per-node loss statistics of the scripts, and a lossy ordered channel |
| `TelemetryLink.dfy` | both ends as programs, and the link from sensor to statistics |

## What does not hold, and when it does

* "Connected and idle means OpenThread is started" is false when work piles up: `Lifecycle.IdleWithoutOpenThread`
  is such a run. `Lifecycle.ThreadAfterDrain` says exactly which queues leave it running, and
  `Lifecycle.ConnectedAndIdle` what holds when events are processed with the queue drained.
* samples/common/src/rnb_utils.c:518-520 submits the stop before it clears `rnb_connected`. If the work queue
  runs in between, OpenThread can be left running without a pending stop: exactly when the node was connected
  with a start item queued behind a stop item (`Lifecycle.GapIsSafeIff`), which can happen
  (`Lifecycle.GapCanGoWrong`). That one situation apart, losing sync never leaves `ot_started` set with no
  stop to come: not with work running between the two statements of events (`Lifecycle.GapsAreHarmless`), and
  not when single statements of dispatcher and handlers interleave (`Interleaving.LostSyncStopsThread`,
  `Interleaving.LosingSyncIsSafeIff`).
* `ot_stop_work_handler` ignores the result of `otThreadSetEnabled`, so `ot_started` can claim a running Thread
  stopped. `StackCalls.FlagIsWrongIff` says exactly when, `StackCalls.FailedStopGoesUnnoticed` and
  `StackCalls.StartsAndRests` give a run.
* An echo client over UDP can stop for good with the link up. It has one life if its thread is active and one
  more if it holds a permit it has not taken yet, as it does when the link flaps during `poll`
  (`EchoUdp.FlapGivesSecondLife`). A start, a receive or the send that answers a reply costs a life when it
  fails, a packet that the timer fails to send again costs none, and the client stops exactly when none is left
  (`EchoUdp.StopsIff`).
* The comment at samples/common/src/rnb_ranging_spi.c:47 promises a frequency not above the request; the code
  keeps this from 125 kHz up only (`SpiDriver.HighestSupported`). The model follows the code.
* The voltage returned by `battery_sample` is the divider's exactly when that fits an `int`
  (`Battery.ScaledIsExactIff`), and the estimate is monotone up to a reading exactly when the voltage of that
  reading does (`Battery.EstimateMonotoneIff`).
* Both scripts end with an exception on some traffic: a payload too short to decode or a UID field that is not
  UTF-8, or a packet that continues its session with the counter just below the session's first, which divides
  by zero. `LossStats.SurvivesIff` says that nothing else the model covers ends them, and
  `LossStats.DivisionByZero` is an example.
* The scripts count losses wrongly across a counter wrap, and only there (`LossStats.LossIsExactIff`,
  `LossStats.WrapMiscounts`).
* Both telemetry nodes count a packet as sent when the radio driver returns a positive value, although only 0
  puts it on its way; to the receiver it is lost (`TelemetryLink.AccelNode.FetchAndDisplay`).

## Model

| member | source | states |
|---|---|---|
| EventPool.DeliveredInCallOrder | samples/common/src/rnb_utils.c:395-425 | under every interleaving of callback and dispatcher steps the accepted events are exactly those delivered, then in processing, then queued, then being filled, in call order and with their bytes; every call has one outcome |
| EventPool.SlotOwnership | samples/common/src/rnb_utils.c:402-419 | in every reachable state a slot is in use exactly when it is being filled, queued or processed; no slot twice, never more than the pool has |
| EventPool.DroppedOnlyWhenFull | samples/common/src/rnb_utils.c:402-424 | from any reachable state and along any interleaving, a call that finds a slot free at its start ends with its event accepted, and every finished call has exactly one outcome |
| EventPool.Drain | samples/common/src/rnb_utils.c:556-565 | left alone, the dispatcher delivers every accepted event in a bounded number of steps and frees every slot |
| EventPool.StepInv | samples/common/src/rnb_utils.c:402-421 | ownership, conservation and drop invariants survive every single step |
| EventPool.Pool.constructor | samples/common/src/rnb_utils.c:105 | the pool starts with all slots free and an empty FIFO |
| EventPool.Pool.HandleRnbUserEvent | samples/common/src/rnb_utils.c:395-425 | the callback, preempted anywhere, is a run of the transition system that begins with its call; it logs its event accepted or dropped, dropped only if all slots were in use on entry |
| EventPool.Pool.ScanSlots | samples/common/src/rnb_utils.c:402-424 | the scan loop: one outcome for the event, with the slots seen in use as they were at the start |
| EventPool.Pool.TrySlot | samples/common/src/rnb_utils.c:404-421 | one turn of the scan either queues the event through this slot or moves on with nothing logged |
| EventPool.Pool.DispatcherStep | samples/common/src/rnb_utils.c:556-565 | each turn of the dispatcher is a get, process or release step and nothing else |
| Lifecycle.LostSyncMeansStopPending | samples/common/src/rnb_utils.c:202-235 | in every reachable state, not connected and `ot_started` means a stop item is pending |
| Lifecycle.NoLateRestart | samples/common/src/rnb_utils.c:202-216 | once sync is lost and the queue drained, `ot_started` stays false and `openthread_start` is not called, whatever work, requests and results follow, before the next CONNECTED event |
| Lifecycle.QueueDistinct | samples/common/src/rnb_utils.c:282-296 | submitting coalesces: no work item is ever pending twice |
| Lifecycle.QueueReadOff | samples/common/src/rnb_utils.c:282-296 | in every run exactly those items are pending that a request, the configuring event, gaining or losing sync asked for since the work queue last took them |
| Lifecycle.ConnectedReadOff | samples/common/src/rnb_utils.c:510-521 | in every run the connected flag is what the last CONNECTED or UNSYNCHRONIZED event said |
| Lifecycle.ConfiguredReadOff | samples/common/src/rnb_utils.c:476-498 | a node is configured exactly if some STOPPED event found both driver calls successful |
| Lifecycle.ConfiguredMeansInit | samples/common/src/rnb_utils.c:498-500 | for all runs, a configured node has the init work pending or has tried to enable IPv6 |
| Lifecycle.ConfiguredMeansInitSplit | samples/common/src/rnb_utils.c:498-500 | the same for all runs with work running inside the events |
| Lifecycle.GapIsSafeIff | samples/common/src/rnb_utils.c:516-521 | with the work queue running between submitting the stop and clearing the flag, the stop-pending invariant survives every gap if and only if the event does not find the node connected with a start queued behind a stop |
| Lifecycle.GapCanGoWrong | samples/common/src/rnb_utils.c:510-521 | two bus events with the queue held up reach that situation |
| Lifecycle.SplitKeepsStopPending | samples/common/src/rnb_utils.c:476-521 | that one situation apart, work running between the two statements of any state event keeps the stop-pending invariant |
| Lifecycle.GapsAreHarmless | samples/common/src/rnb_utils.c:476-521 | over all runs of such events in which none loses sync while connected with a start queued behind a stop, the stop-pending invariant holds in every reachable state |
| Lifecycle.NoWorkInGap | samples/common/src/rnb_utils.c:476-521 | with no work in between, the events statement by statement are the atomic ones |
| Lifecycle.ThreadAfterDrain | samples/common/src/rnb_utils.c:137-235 | for any results of the calls, the drained queue leaves `ot_started` set if and only if a start of a connected node succeeds, or it was set before, with no stop and no effective deinit behind |
| Lifecycle.StartedAfterDrain | samples/common/src/rnb_utils.c:144-197 | for any results, the drained queue leaves `rnb_started` set if and only if an init succeeds, or it was set before, with no deinit behind it that disables IPv6 |
| Lifecycle.StartRequestTakesEffect | samples/common/src/rnb_utils.c:290-296 | after a start request, calls succeeding, the drained node is started unless a deinit waits behind the init |
| Lifecycle.StopRequestTakesEffect | samples/common/src/rnb_utils.c:282-288 | after a stop request, calls succeeding, the drained node is stopped unless an init waits behind the deinit |
| Lifecycle.CoalescedStartIsLost | samples/common/src/rnb_utils.c:510-515 | with start and stop pending, a further CONNECTED coalesces and the queue ends with `ot_started` false, whatever the calls return |
| Lifecycle.IdleWithoutOpenThread | samples/common/src/rnb_utils.c:510-521 | a run from the start that ends connected and idle with OpenThread stopped, all calls successful, no deinit |
| Lifecycle.ConnectedAndIdle | samples/common/src/rnb_utils.c:171-216 | if events are processed with the queue drained, then connected and idle means OpenThread is started, or since the last CONNECTED a start failed or a deinit stopped it and no start has succeeded after that |
| Interleaving.LostSyncStopsThread | samples/common/src/rnb_utils.c:202-235 | under every interleaving of single statements of dispatcher and handlers, that situation apart, not connected with `ot_started` set or about to be means a stop is pending or running; at rest with the queue drained `ot_started` is false |
| Interleaving.LosingSyncIsSafeIff | samples/common/src/rnb_utils.c:516-521 | from every state of the invariant, handlers caught anywhere, losing sync is safe for all turns and results in between if and only if the event does not find the node connected with a start queued behind a stop |
| Interleaving.CallsStayInOrder | samples/common/src/rnb_utils.c:137-235 | under every such interleaving IPv6 is enabled only while disabled and disabled only while enabled, `openthread_start` is called only while Thread is stopped or its last stop failed, and at rest the flags are those of the stack |
| Interleaving.HandlerTurns | samples/common/src/rnb_utils.c:137-235 | the statements of one handler without interference are the one step of the lifecycle |
| Interleaving.SplitIsFine | samples/common/src/rnb_utils.c:476-521 | the two statements of an event with whole handlers in between are the split event of the lifecycle |
| Interleaving.ConfiguredMeansInitFine | samples/common/src/rnb_utils.c:498-500 | under every interleaving of single statements a configured node is between the flag and the submission, or has the init work pending or running, or has tried to enable IPv6 |
| Interleaving.RunsAreFine | samples/common/src/rnb_utils.c:137-235 | every run of the lifecycle is a run of single statements, requests and error exits included |
| StackCalls.FlagsMatchStack | samples/common/src/rnb_utils.c:137-235 | for all runs and results `rnb_started` is the stack's IPv6 state, IPv6 is enabled only while disabled and disabled only while enabled, and `openthread_start` is called only while `ot_started` is false |
| StackCalls.FlagIsWrongIff | samples/common/src/rnb_utils.c:223-234 | `ot_started` differs from the stack exactly after a stop item whose call failed, until a start or stop succeeds, and only by claiming a running Thread stopped |
| StackCalls.FailedStopGoesUnnoticed | samples/common/src/rnb_utils.c:229-233 | any run that comes to rest with OpenThread started, continued by losing sync and a failing stop call, ends with Thread enabled, the flag false and nothing pending |
| StackCalls.StartsAndRests | samples/common/src/rnb_utils.c:510-515 | a run that comes to rest with OpenThread started |
| StackCalls.HandlersTakeEffect | samples/common/src/rnb_utils.c:137-235 | in any state of any run, handlers whose calls succeed enable IPv6, disable it, enable Thread on a connected node and disable a Thread marked started |
| StackCalls.ConfiguredOnce | samples/common/src/rnb_utils.c:476-501 | for all runs and driver results the runtime configuration follows only a successful user configuration, nothing is sent after both succeed in one STOPPED event, and the submission is logged exactly once, then |
| StackCalls.ConfigReadOff | samples/common/src/rnb_utils.c:476-501 | in every run exactly the calls are made that its STOPPED events ask for, up to the first that configures |
| StackCalls.Runtime.constructor | samples/common/src/rnb_utils.c:108-113 | all flags false, nothing pending |
| StackCalls.Runtime.OtInitWorkHandler | samples/common/src/rnb_utils.c:137-169 | one item of the work queue: enables IPv6 unless started; only success sets the flag |
| StackCalls.Runtime.OtDeinitWorkHandler | samples/common/src/rnb_utils.c:171-200 | disables Thread, then IPv6, each flag cleared only on its own success |
| StackCalls.Runtime.OtStartWorkHandler | samples/common/src/rnb_utils.c:202-216 | starts only if connected and not started; only success sets the flag |
| StackCalls.Runtime.OtStopWorkHandler | samples/common/src/rnb_utils.c:218-235 | stops if started, and clears the flag whatever the call returns |
| StackCalls.Runtime.RnbUtilsStart | samples/common/src/rnb_utils.c:290-296 | submits the init work, coalescing |
| StackCalls.Runtime.RnbUtilsStop | samples/common/src/rnb_utils.c:282-288 | submits the deinit work, coalescing |
| StackCalls.Runtime.ProcessNewState | samples/common/src/rnb_utils.c:476-521 | the STOPPED, CONNECTED and UNSYNCHRONIZED branches statement by statement, with the work queue running for any number of turns between setting or clearing the flag and submitting the item |
| StackCalls.Runtime.Configure | samples/common/src/rnb_utils.c:478-501 | the two driver calls with their error exits, then the flag and the submission |
| StackCalls.Runtime.RunOldestWork | samples/common/src/rnb_utils.c:137-235 | the work queue thread takes the oldest item, which is then no longer pending, and runs its handler |
| Watchdog.ResetIffSixSilentTicks | samples/common/src/rnb_utils.c:866-894 | in every run the counter is the current streak of silent ticks until the reset, never passes 6, and the node is reset exactly when the run has seen six silent ticks in a row |
| Watchdog.StreakIsSilence | samples/common/src/rnb_utils.c:877-885 | a streak of n means the last n ticks found the node started with no signal since the tick before |
| Watchdog.SilenceResets | samples/common/src/rnb_utils.c:875-893 | from any reachable state of a started node, n ticks of silence reset it if and only if n reaches 6 less the streak, or 7 after a fresh signal |
| Watchdog.WatchdogThread.HandleSignal | samples/common/src/rnb_utils.c:427-445 | only a received signal sets the flag |
| Watchdog.WatchdogThread.Turn | samples/common/src/rnb_utils.c:877-892 | one turn of the loop with its sleep is one tick |
| Watchdog.WatchdogThread.ProcessThread | samples/common/src/rnb_utils.c:866-894 | the thread, for any outside events between its turns, performs exactly that run of the transition system, up to the reset |
| EchoUdp.AttemptsAccountedFor | samples/echo_client/src/udp.c:28-44 | in every run, calls of send = starts + answers to matched replies + reply timeouts, each told from the run itself, and `counter` is the answers modulo 2^32 |
| EchoUdp.NeverStalls | samples/echo_client/src/udp.c:61-70 | from opening the socket to the stop, failed calls in between included, the reply timer is armed after every step, and its expiry sends and arms again |
| EchoUdp.PacketsAccountedFor | samples/echo_client/src/udp.c:125-149 | every packet in flight is a prefix of the text; sent, lost, in-flight, echoed and delivered packets add up; `counter` <= delivered <= echoed <= sent <= attempts |
| EchoUdp.EachSend | samples/echo_client/src/udp.c:28-44 | every start, answer and expiry puts exactly the drawn length of the text on its way, unless send fails, expects that length back and arms the timer |
| EchoUdp.NothingElseSends | samples/echo_client/src/udp.c:61-70 | no other step sends, or changes what is expected |
| EchoUdp.ExpectingReadOff | samples/echo_client/src/udp.c:33-37 | in every run the expected length is the one last drawn |
| EchoUdp.EchoIsCounted | samples/echo_client/src/udp.c:106-151 | a packet that is echoed, delivered and compared with no other send in between matches, counts one and is answered if it fits the buffer; a longer one is cut and rejected |
| EchoUdp.EchoOfLastMatches | samples/echo_client/src/udp.c:46-59 | in every run a reply matches exactly when what recv leaves of it has the length last sent |
| EchoUdp.ReceiveOutcome | samples/echo_client/src/udp.c:110-123 | what each result of recv leaves behind: the return value, or the datagram, cut to the buffer |
| EchoUdp.ComparesContent | samples/echo_client/src/udp.c:46-59 | in any state, unreachable ones included, a datagram matches exactly if it is the expected prefix of the text, byte for byte |
| EchoUdp.PollsOrStops | samples/echo_client/src/echo-client.c:235-248 | the inner loop goes on exactly while connected with the last return value 0, and otherwise stops |
| EchoUdp.RejectedIffWrongLength | samples/echo_client/src/udp.c:46-59 | a received reply compares equal if and only if what recv leaves of it has the expected length, even when the timer fires in between |
| EchoUdp.SilentUntilLinkUp | samples/echo_client/src/echo-client.c:229-249 | a stopped client without a permit never sends again before a link-up event |
| EchoUdp.LinkReadOff | samples/echo_client/src/echo-client.c:180-205 | in every run connected and mtu are the last link event's, and the permit is there exactly if it was given and neither taken back nor taken since |
| EchoUdp.LinkDownEndsWaiting | samples/echo_client/src/echo-client.c:235-248 | with the link down the client ends waiting, unarmed, its socket closed, wherever it stood and whatever its calls return |
| EchoUdp.StopsIff | samples/echo_client/src/echo-client.c:223-252 | from any state with the link up, along any run without link events, the client has stopped for good if and only if as many starts, receives and answers have failed as it had lives: at most two |
| EchoUdp.LivesLeft | samples/echo_client/src/echo-client.c:229-249 | along such a run lives left and failures so far add up to the lives at its start |
| EchoUdp.FlapGivesSecondLife | samples/echo_client/src/echo-client.c:180-205 | a run in which the link flaps during poll reaches two lives, and a failed receive is survived |
| EchoUdp.Client.Draw | samples/echo_client/src/udp.c:32-35 | the do-while leaves a length between 1 and mtu, below the text length |
| EchoUdp.Client.SendUdpData | samples/echo_client/src/udp.c:28-44 | sends a prefix of the drawn length and arms the timer whatever send returns |
| EchoUdp.Client.WaitReply | samples/echo_client/src/udp.c:61-70 | the timer's expiry is a timeout step: it sends again |
| EchoUdp.Client.CompareUdpData | samples/echo_client/src/udp.c:46-59 | compares length, then content |
| EchoUdp.Client.CorrectReply | samples/echo_client/src/udp.c:132-151 | counts, cancels the timer and sends the next packet |
| EchoUdp.Client.ProcessUdp | samples/echo_client/src/udp.c:106-152 | takes exactly one turn, with what recv returned; compares a datagram and answers a match, with timer, link and network at work in between; it leaves a reply unanswered only if no length can be drawn |
| EchoUdp.Client.StartUdp | samples/echo_client/src/udp.c:154-180 | opening may fail; otherwise the first packet is sent |
| EchoUdp.Client.StopUdp | samples/echo_client/src/udp.c:196-206 | cancels the timer |
| EchoUdp.Client.EventHandler | samples/echo_client/src/echo-client.c:180-205 | link up sets the mtu and gives the permit, link down takes it away |
| EchoUdp.Client.Run | samples/echo_client/src/echo-client.c:154-168 | polls once and takes exactly one turn with what recv returned |
| EchoUdp.Client.StartClient | samples/echo_client/src/echo-client.c:223-252 | the two nested loops take a turn for everything the environment has ready, in order, unless blocked without a permit or in an endless draw; with the world at work anywhere that is a run of the transition system |
| EchoRnb.RejectedOnlyForLength | samples/echo_client/src/rnb-user-payload.c:66-81 | however copying and comparing overlap, no reply is ever rejected for its content, and every payload in flight is a prefix of the text |
| EchoRnb.CounterBelowDeliveries | samples/echo_client/src/rnb-user-payload.c:192-206 | `counter` <= matched <= processing rounds <= semaphore gives <= deliveries <= echoes <= sent <= attempts, and the packets add up |
| EchoRnb.AttemptsAccountedFor | samples/echo_client/src/rnb-user-payload.c:134-157 | driver calls = starts + answers to matched replies + reply timeouts, each told from the run itself; `counter` is the answers modulo 2^32 |
| EchoRnb.EachSend | samples/echo_client/src/rnb-user-payload.c:34-64 | every start, answer and expiry puts exactly the drawn length of the text on its way if the driver takes it, expects it back and arms the timer |
| EchoRnb.NothingElseSends | samples/echo_client/src/rnb-user-payload.c:83-92 | no other step sends, or changes what is expected |
| EchoRnb.MailboxReadOff | samples/echo_client/src/rnb-user-payload.c:192-206 | in every run the semaphore is available exactly if it was given since last taken, and `received` is the length last stored since the client last started |
| EchoRnb.ReplyIsCountedIff | samples/echo_client/src/rnb-user-payload.c:113-158 | from any reachable state with client waiting and radio idle, a reply delivered and processed undisturbed wakes the client and is counted and answered exactly when it has the length last sent |
| EchoRnb.RoundRejects | samples/echo_client/src/rnb-user-payload.c:117-141 | a stored reply of another length sends the client back to wait, an empty mailbox to start over |
| EchoRnb.ComparesContent | samples/echo_client/src/rnb-user-payload.c:74-78 | in any state, unreachable ones included, the first differing byte ends the comparison and the reply is not counted |
| EchoRnb.NeverStalls | samples/echo_client/src/rnb-user-payload.c:34-64 | from the first start on the timer is armed after every step and its expiry sends again |
| EchoRnb.RunInBounds | samples/echo_client/src/rnb-user-payload.c:66-81 | no run receives more than mtu bytes, so no comparison leaves the buffer |
| EchoRnb.RnbClient.Draw | samples/echo_client/src/rnb-user-payload.c:40-43 | the do-while leaves a length between 1 and mtu |
| EchoRnb.RnbClient.SendRnbData | samples/echo_client/src/rnb-user-payload.c:34-64 | only result 0 puts the payload on its way, only a negative one is an error, the timer is armed always |
| EchoRnb.RnbClient.CallbackStep | samples/echo_client/src/rnb-user-payload.c:198-206 | copies a byte, or stores the length, or gives the semaphore |
| EchoRnb.RnbClient.WaitRnbUserPayloadReply | samples/echo_client/src/rnb-user-payload.c:192-196 | takes the single permit, if there is one |
| EchoRnb.RnbClient.WaitReply | samples/echo_client/src/rnb-user-payload.c:83-92 | the timer's expiry is a timeout step |
| EchoRnb.RnbClient.CompareRnbData | samples/echo_client/src/rnb-user-payload.c:66-81 | the byte-wise comparison, with the callback writing meanwhile, is a run of the transition system |
| EchoRnb.RnbClient.ProcessRnbProto | samples/echo_client/src/rnb-user-payload.c:113-158 | all exits of one processing round as a run, -EIO exactly when the client must start over |
| EchoRnb.RnbClient.StartRnbUserPayload | samples/echo_client/src/rnb-user-payload.c:160-177 | clears `received` and sends |
| EchoRnb.RnbClient.RunRnb | samples/echo_client/src/echo-client.c:294-306 | takes the permit and completes a round, or blocks because there is none |
| EchoRnb.RnbClient.StartClientRnb | samples/echo_client/src/echo-client.c:320-345 | the two nested loops take a turn for everything the environment has ready, in order, unless blocked without a permit; with the world at work anywhere that is a run that keeps the invariant |
| Battery.BatteryLevelPptt | samples/battery/src/battery.c:337-362 | for every curve that keeps its contract the loop stays on the curve, ends, never divides by zero, and returns the floor of the exact piecewise-linear value |
| Battery.InterpolateIsFloor | samples/battery/src/battery.c:358-361 | on a segment the wrapping 32-bit arithmetic gives the floor of the straight line |
| Battery.ExactMonotone | samples/battery/src/battery.h:25-31 | the exact curve is monotone over segment boundaries and both caps |
| Battery.ExactOnSegment | samples/battery/src/battery.h:25-31 | between two neighbouring points the exact curve is their straight line |
| Battery.LevelMonotone | samples/battery/src/battery.c:342-361 | the estimate is monotone in millivolts and stays between 0 and 10000 |
| Battery.LevelOnSegment | samples/battery/src/battery.c:358-361 | between two points the estimate is the largest integer not above their straight line, in integer arithmetic |
| Battery.LevelAtPoints | samples/battery/src/battery.c:358-361 | the estimate is exact at every curve point, the first one where several share a voltage |
| Battery.LevelCaps | samples/battery/src/battery.c:342-356 | 10000 from the first point up, 0 below the last |
| Battery.ScaledIsExactIff | samples/battery/src/battery.c:320-322 | for every non-negative reading the scaled voltage is the divider's if and only if that fits an int |
| Battery.ScaledCanWrap | samples/battery/src/battery.c:322 | a divider and reading for which it comes out negative |
| Battery.NoDivider | samples/battery/src/battery.c:326-330 | without a divider the sampled voltage is the reading |
| Battery.ScaledMonotoneIff | samples/battery/src/battery.c:320-322 | the scaling is monotone over all readings up to a given one if and only if the voltage of that one fits an int |
| Battery.EstimateMonotoneIff | samples/battery/src/battery.c:320-361 | ADC reading to level, through divider and curve, gives valid voltages and is monotone up to a given reading if and only if its voltage fits an int |
| Battery.Monitor.constructor | samples/battery/src/battery.c:256-266 | `battery_ok` is the success of the divider setup |
| Battery.Monitor.Sample | samples/battery/src/battery.c:299-335 | the error code, the ADC's own error, or the scaled voltage; calibration only before the first read |
| SpiDriver.HighestSupported | samples/common/src/rnb_ranging_spi.c:45-77 | the choice is supported, no supported step within the request is higher, and it is within the request if and only if that is at least 125 kHz |
| SpiDriver.NestedRefused | samples/common/src/rnb_ranging_spi.c:146-149 | any call, nested transfers included, made while the lock is held changes nothing and is refused |
| SpiDriver.TransferIsAtomic | samples/common/src/rnb_ranging_spi.c:277-321 | whatever calls interrupts nest, a transfer puts select, its header bytes, its body bytes and deselect next to each other on the bus, no body after a failed header, and leaves deselected and unlocked on every path |
| SpiDriver.EveryRunIsFramed | samples/common/src/rnb_ranging_spi.c:369-413 | over every run each header and body stands in its place inside its own transfer's chip select |
| SpiDriver.CachedSpeedIsBusSpeed | samples/common/src/rnb_ranging_spi.c:173-206 | over every run, failed opens included, an initialised bus runs at the frequency chosen for `spi_cfg` |
| SpiDriver.RunReadsOff | samples/common/src/rnb_ranging_spi.c:140-265 | over every run, from the outer calls alone: whether the bus is open, that it runs at 2 MHz or after an accepted fast call at the frequency chosen for the device, whether the chip is selected, and every byte a device has seen |
| SpiDriver.ReturnsReadOff | samples/common/src/rnb_ranging_spi.c:140-414 | every call returns 0 or -EIO according to the calls before it and the hardware's answers |
| SpiDriver.CacheIsTransparent | samples/common/src/rnb_ranging_spi.c:211-243 | no run can tell the driver from one that writes the frequency register every time |
| SpiDriver.Driver.OpenSpi | samples/common/src/rnb_ranging_spi.c:140-209 | refusals and hardware failure keep the bus closed; success leaves it slow, deselected and open |
| SpiDriver.Driver.CloseSpi | samples/common/src/rnb_ranging_spi.c:245-265 | refused while busy; otherwise the bus ends closed |
| SpiDriver.Driver.SetSpiSpeedSlow | samples/common/src/rnb_ranging_spi.c:211-226 | selects the slow configuration, writing hardware only on a change |
| SpiDriver.Driver.SetSpiSpeedFast | samples/common/src/rnb_ranging_spi.c:228-243 | selects the fast configuration, writing hardware only on a change |
| SpiDriver.Driver.ActivateCs | samples/common/src/rnb_ranging_spi.c:333-344 | selects, unless closed or busy |
| SpiDriver.Driver.DeactivateCs | samples/common/src/rnb_ranging_spi.c:346-357 | deselects, unless closed or busy |
| SpiDriver.Driver.TransferSpi | samples/common/src/rnb_ranging_spi.c:267-322 | locks, selects, exchanges, deselects, unlocks, with interrupts in between, as the specified call |
| SpiDriver.Driver.Exchange | samples/common/src/rnb_ranging_spi.c:382-408 | the body follows only a good header; the result tells whether both went well |
| Codec.WordRoundTrip | script/accelerometer_rnb.py:34-36 | a 32-bit word written little-endian reads back, signed and unsigned |
| Codec.WordBytes | samples/accelerometer/src/accelerometer.c:119-129 | the four bytes of a word, least significant first |
| Codec.Hex4RoundTrip | samples/socket_test/src/socket-test.c:175 | %04X text parses back to its number |
| Codec.HexExamples | samples/socket_test/src/socket-test.c:175 | digits are upper case, padded to four but not cut to them |
| Telemetry.DecodeUndoesEncode | script/accelerometer_rnb.py:22-36 | decoding the accelerometer packet returns EUID, session and counter, and in millionths exactly the reading of each axis, for every 48-bit EUID, session, counter and reading |
| Telemetry.PacketLayout | samples/accelerometer/src/accelerometer.c:84-129 | the forty bytes on the air: EUID halves, session, counter and the axes as words in this order |
| Telemetry.DecodesAnyPayload | script/accelerometer_rnb.py:22-36 | what the script makes of any payload: an exception up to 36 bytes, otherwise the fields at their positions, the last word possibly cut |
| Telemetry.KeysAreInjective | script/accelerometer_rnb.py:24 | two EUIDs have the same key exactly when equal |
| Telemetry.DecodeTextUndoesEncode | script/socket_test_rnb.py:22-25 | decoding the text packet returns the key of the UID field, the session and the counter, and raises exactly when the field is not UTF-8 |
| Telemetry.TextLayout | samples/socket_test/src/socket-test.c:175-197 | the forty bytes on the air: hexadecimal UID, NUL and text below if there is room, session, counter, text |
| Telemetry.ParsesAnyText | script/socket_test_rnb.py:22-25 | what the script makes of any payload, short ones included |
| Telemetry.UidFieldDecodesIff | script/socket_test_rnb.py:23 | the UID field is UTF-8 if and only if what a short UID leaves of the text is; an ASCII text gives the field itself as key |
| Telemetry.TextKeysAreInjective | script/socket_test_rnb.py:23 | two EUIDs never share a key |
| Utf8.RoundTrip | script/socket_test_rnb.py:23 | encoding undoes strict decoding of UTF-8, so that no two fields decode to the same key |
| Utf8.DecodesIffEncoding | script/socket_test_rnb.py:23 | exactly the encodings of sequences of Unicode scalar values decode |
| Utf8.DecodeUndoesEncode | script/socket_test_rnb.py:23 | and each decodes to the text it encodes |
| Telemetry.UidFieldIsInjective | samples/socket_test/src/socket-test.c:175 | the 12-byte UID field tells 48-bit EUIDs apart, whatever text lies behind a short one |
| LossStats.EntriesAreAccounts | script/accelerometer_rnb.py:38-52 | after any packets of any nodes each entry is the account of its own node's current session: received + lost = last - first + 1, with rate and bytes |
| LossStats.CrashesIff | script/accelerometer_rnb.py:42-45 | a packet makes the script divide by zero exactly when it continues its session with the counter one below the session's first |
| LossStats.NoCrashIff | script/accelerometer_rnb.py:42-45 | the statistics survive a traffic if and only if no packet of it is like that |
| LossStats.SurvivesIff | script/accelerometer_rnb.py:22-52 | over any sequence of payloads the script survives if and only if each decodes and none is like that, and then it holds the statistics of the messages |
| LossStats.DivisionByZero | script/accelerometer_rnb.py:42-45 | two packets that end the script |
| LossStats.RisingCountersNeverCrash | script/accelerometer_rnb.py:45 | traffic with rising counters never divides by zero |
| LossStats.ArrivedOrDropped | samples/accelerometer/src/accelerometer.c:135-138 | on an order-preserving lossy channel every packet between the first and last received arrived or was dropped |
| LossStats.LossIsExactIff | script/accelerometer_rnb.py:41-45 | the reported loss is exactly the number of packets dropped between the first and last received if and only if the 32-bit counter did not wrap between them; the rate is then in [0, 100) |
| LossStats.WrapMiscounts | script/accelerometer_rnb.py:42-44 | two packets across a wrap that are reported as a loss of -2^32 |
| TelemetryLink.AccelNode.constructor | samples/accelerometer/src/accelerometer.c:72-90 | EUID and session fill the first three words |
| TelemetryLink.AccelNode.FetchAndDisplay | samples/accelerometer/src/accelerometer.c:92-144 | a good sample and a driver result that is not negative count exactly the packet numbered by the packets counted so far, on the air only for 0; every other path sends and counts nothing |
| TelemetryLink.AccelNode.SendPacket | samples/accelerometer/src/accelerometer.c:117-138 | a result that is not negative counts exactly the numbered packet, on the air only for 0 |
| TelemetryLink.TextNode.constructor | samples/socket_test/src/socket-test.c:169-180 | UID text and session overwrite the head of the text |
| TelemetryLink.TextNode.SendOne | samples/socket_test/src/socket-test.c:193-206 | each turn writes the text packet numbered by the packets counted so far, counts it unless the driver result is negative, and only 0 puts it on the air |
| TelemetryLink.Memcpy | samples/socket_test/src/socket-test.c:178-197 | a range of the buffer is overwritten, the rest stays |
| TelemetryLink.Account | script/accelerometer_rnb.py:38-52 | the assignments to `stats_dic` in their order are one step of the accounting; other nodes' entries stay |
| TelemetryLink.Script.ProcessMsg | script/accelerometer_rnb.py:22-52 | a payload too short or a division by zero ends the script; otherwise one step of the accounting and the axes of that node, other nodes untouched |
| TelemetryLink.Script.LoopForever | script/accelerometer_rnb.py:82-95 | fed any traffic, the script ends with exactly the state of the specified run, exceptions included |
| TelemetryLink.TextScript.ProcessMsg | script/socket_test_rnb.py:22-38 | one step of the accounting, keyed by the decoded UID field; a field that is not UTF-8 ends the script |
| TelemetryLink.TextScript.LoopForever | script/socket_test_rnb.py:67-80 | fed any traffic, the script ends with exactly the state of the specified run, exceptions included |
| TelemetryLink.LinkIsExact | samples/accelerometer/src/accelerometer.c:119-138 | end to end, with any other traffic: the script survives if and only if every payload is longer than 36 bytes and none divides by zero, as none does while counters rise; if it survives it counts exactly what got through and what was dropped of a node's session |
| TelemetryLink.TextLinkIsExact | samples/socket_test/src/socket-test.c:193-206 | the same for the text packets, with a UID field that is UTF-8 in place of the length |
| TelemetryLink.LinkAlone | samples/accelerometer/src/accelerometer.c:119-138 | with no other traffic the script always survives a session of one node and its entry is exact |
| TelemetryLink.TextLinkAlone | samples/socket_test/src/socket-test.c:193-206 | the same for the text packets of a node whose UID field is UTF-8 |

## Left out

- The radio events come from one producer and fit the slot and the 8-bit size sum; several concurrent producers would race on `in_use`.
- `init_rnb` itself: the model starts in the state it leaves (`rnb_initialized` true). Button handlers are start and stop requests.
- `rnb_utils_handle_new_state`, printing and logging; the SNTP trigger and thread; `rnb_get_unix_time`; the EUID mask of `rnb_utils_get_euid` (an EUID is a number below 2^48 here).
- Transmit power, LEDs, power amplifier, GPIO and power-good setup, board files, the coprocessor, the vendor hook, `rnb_ranging_port.c` and `rnb_ranging_sleep.c`.
- OpenThread, the SPI peripheral, the ADC, sockets and the radio driver are only what they return; a failing call changes nothing.
- The watchdog loop body is one step, so a signal between its test and its clearing of the flag is not told apart from one before it; the hardware is set up successfully and expires after four whole ticks.
- A delayable work item is armed or not: times are not modelled, nor is a cancel or re-initialisation racing with an item that is already running.
- EchoUdp: each of receive, compare and answer is one step; a reply that arrives after its socket was closed may still be read; `prepare_fds` and the growing poll set are left out.
- EchoRnb: sending, starting and answering are one step each; a payload fits `recv_buf` and its 8-bit length, as `Config` says.
- The loops that draw a random length end only if some number drawn is accepted, which is a precondition of `Draw`; a thread whose draw cannot end makes no further steps.
- Endless thread loops run for any finite number of turns; the send loop of `socket-test.c` and the sensor trigger are one turn at a time.
- SPI mode and bit order, the use of the bus pointer before the first open, `writetospiwithcrc` (a stub); open, close, speed and manual chip-select calls are single steps.
- Negative ADC readings, whose conversion to `uint64_t` wraps.
- Python floats are reals; the bitrate and its clock (two equal readings of which would divide by zero), the tables, MQTT and its JSON envelope are left out.
- `accelerometer.py`, `battery.py` and `socket_test.py`, and the UDP variants of the two telemetry samples, repeat the same payloads and accounting.
