/**
 The loss accounting that accelerometer_rnb.py and socket_test_rnb.py keep per node, message by message,
 and what it says about the packets that were really sent and lost.
 */
module LossStats {

  /** What process_msg decodes from a packet: the node's key, its session, the packet counter, the size. */
  datatype Msg<K> = Msg(key: K, session: nat, ctr: int, len: nat)

  /** An entry of stats_dic. */
  datatype Stats = Stats(session: nat, last: int, received: int, lost: int, rate: real, bytes: nat)

  /** stats_dic, and whether an exception has ended the script. */
  datatype Receiver<!K> = Receiver(stats: map<K, Stats>, crashed: bool)

  function First<K>(m: Msg<K>): Stats {
    Stats(m.session, m.ctr, 1, 0, 0.0, m.len)
  }

  /** The next packet of a session; the division by zero comes before the bytes are added. */
  function Next<K>(s: Stats, m: Msg<K>): (r: (Stats, bool))
    ensures r.1 <==> s.lost + s.received + (m.ctr - s.last) == 0
  {
    var lost, received := s.lost + m.ctr - s.last - 1, s.received + 1;
    if lost + received == 0 then (s.(last := m.ctr, received := received, lost := lost), true)
    else (Stats(s.session, m.ctr, received, lost,
                100.0 * lost as real / (lost + received) as real, s.bytes + m.len), false)
  }

  function Step<K>(r: Receiver<K>, m: Msg<K>): Receiver<K> {
    if r.crashed then r
    else if m.key in r.stats && r.stats[m.key].session == m.session then
      var (s, crash) := Next(r.stats[m.key], m);
      Receiver(r.stats[m.key := s], crash)
    else Receiver(r.stats[m.key := First(m)], false)
  }

  function Run<K>(msgs: seq<Msg<K>>): Receiver<K> {
    if msgs == [] then Receiver(map[], false)
    else Step(Run(msgs[..|msgs| - 1]), msgs[|msgs| - 1])
  }

  // ---------- What the statistics should be, from the packets alone ----------

  /** The packets of one node. */
  function OfNode<K(==)>(msgs: seq<Msg<K>>, key: K): (r: seq<Msg<K>>)
    ensures forall i :: 0 <= i < |r| ==> r[i].key == key
  {
    if msgs == [] then []
    else
      var m := msgs[|msgs| - 1];
      OfNode(msgs[..|msgs| - 1], key) + (if m.key == key then [m] else [])
  }

  /** The packets since the session last changed. */
  function SinceSession<K>(ms: seq<Msg<K>>): (r: seq<Msg<K>>)
    ensures r == [] <==> ms == []
    ensures forall i :: 0 <= i < |r| ==> r[i].session == ms[|ms| - 1].session
  {
    if ms == [] then []
    else
      var n := |ms| - 1;
      if n > 0 && ms[n].session == ms[n - 1].session then SinceSession(ms[..n]) + [ms[n]] else [ms[n]]
  }

  function Current<K(==)>(msgs: seq<Msg<K>>, key: K): seq<Msg<K>> {
    SinceSession(OfNode(msgs, key))
  }

  function TotalLen<K>(ms: seq<Msg<K>>): nat {
    if ms == [] then 0 else TotalLen(ms[..|ms| - 1]) + ms[|ms| - 1].len
  }

  /** The entry that these packets of one session deserve. */
  ghost predicate Describes<K>(s: Stats, ms: seq<Msg<K>>) {
    && ms != []
    && s.session == ms[0].session
    && s.last == ms[|ms| - 1].ctr
    && s.received == |ms|
    && s.received + s.lost == s.last - ms[0].ctr + 1
    && s.received + s.lost != 0
    && s.rate == 100.0 * s.lost as real / (s.lost + s.received) as real
    && s.bytes == TotalLen(ms)
  }

  ghost predicate Accounted<K(!new)>(r: Receiver<K>, msgs: seq<Msg<K>>) {
    forall key :: if OfNode(msgs, key) == [] then key !in r.stats
                  else key in r.stats && Describes(r.stats[key], Current(msgs, key))
  }

  lemma CurrentSnoc<K>(msgs: seq<Msg<K>>, m: Msg<K>)
    ensures
      var before := Current(msgs, m.key);
      Current(msgs + [m], m.key) ==
      if before != [] && before[0].session == m.session then before + [m] else [m]
    ensures forall key :: key != m.key ==> OfNode(msgs + [m], key) == OfNode(msgs, key)
    ensures OfNode(msgs + [m], m.key) == OfNode(msgs, m.key) + [m]
  {
    assert (msgs + [m])[..|msgs|] == msgs;
    var ms := OfNode(msgs, m.key);
    assert (ms + [m])[..|ms|] == ms;
  }

  lemma NextDescribes<K>(s: Stats, ms: seq<Msg<K>>, m: Msg<K>)
    requires Describes(s, ms)
    ensures var (t, crash) := Next(s, m); !crash ==> Describes(t, ms + [m])
  {
    assert (ms + [m])[..|ms|] == ms;
  }

  lemma FirstDescribes<K>(m: Msg<K>)
    ensures Describes(First(m), [m])
  {
    assert [m][..0] == [];
  }

  /**
   For every sequence of packets from any nodes: until a division by zero ends the script, each node's
   entry is exactly the account of that node's packets since its session last changed, so that
   received + lost = last - first + 1; other nodes' packets leave it untouched.
   */
  lemma {:induction false} EntriesAreAccounts<K(!new)>(msgs: seq<Msg<K>>)
    requires !Run(msgs).crashed
    ensures Accounted(Run(msgs), msgs)
    decreases |msgs|
  {
    if msgs != [] {
      var n := |msgs| - 1;
      var before, m := msgs[..n], msgs[n];
      var r := Run(before);
      assert !r.crashed;
      EntriesAreAccounts(before);
      assert msgs == before + [m];
      CurrentSnoc(before, m);
      FirstDescribes(m);
      if m.key in r.stats {
        assert OfNode(before, m.key) != [];
        NextDescribes(r.stats[m.key], Current(before, m.key), m);
      }
      forall key
        ensures if OfNode(msgs, key) == [] then key !in Run(msgs).stats
                else key in Run(msgs).stats && Describes(Run(msgs).stats[key], Current(msgs, key))
      {
        assert if OfNode(before, key) == [] then key !in r.stats
               else key in r.stats && Describes(r.stats[key], Current(before, key));
      }
    }
  }

  lemma EntryOf<K(!new)>(msgs: seq<Msg<K>>, key: K)
    requires !Run(msgs).crashed
    ensures if OfNode(msgs, key) == [] then key !in Run(msgs).stats
            else key in Run(msgs).stats && Describes(Run(msgs).stats[key], Current(msgs, key))
  {
    EntriesAreAccounts(msgs);
  }

  /** The packet continues its node's session with the counter just before the session's first. */
  predicate BelowFirst<K(==)>(msgs: seq<Msg<K>>, m: Msg<K>) {
    var current := Current(msgs, m.key);
    current != [] && current[0].session == m.session && m.ctr == current[0].ctr - 1
  }

  /** A packet makes the script divide by zero exactly when it is like that. */
  lemma CrashesIff<K(!new)>(msgs: seq<Msg<K>>, m: Msg<K>)
    requires !Run(msgs).crashed
    ensures Run(msgs + [m]).crashed <==> BelowFirst(msgs, m)
  {
    assert (msgs + [m])[..|msgs|] == msgs;
    EntryOf(msgs, m.key);
  }

  ghost predicate NoneBelowFirst<K(!new)>(msgs: seq<Msg<K>>) {
    forall k :: 0 <= k < |msgs| ==> !BelowFirst(msgs[..k], msgs[k])
  }

  lemma NoneBelowFirstSnoc<K(!new)>(msgs: seq<Msg<K>>, m: Msg<K>)
    ensures NoneBelowFirst(msgs + [m]) <==> NoneBelowFirst(msgs) && !BelowFirst(msgs, m)
  {
    var all := msgs + [m];
    assert all[..|msgs|] == msgs && all[|msgs|] == m;
    assert forall k :: 0 <= k < |msgs| ==> all[..k] == msgs[..k] && all[k] == msgs[k];
    if NoneBelowFirst(all) {
      forall k | 0 <= k < |msgs| ensures !BelowFirst(msgs[..k], msgs[k]) {
        assert !BelowFirst(all[..k], all[k]);
      }
    }
  }

  /** So the statistics survive a traffic if and only if no packet of it is. */
  lemma {:induction false} NoCrashIff<K(!new)>(msgs: seq<Msg<K>>)
    ensures !Run(msgs).crashed <==> NoneBelowFirst(msgs)
    decreases |msgs|
  {
    if msgs != [] {
      var before, m := msgs[..|msgs| - 1], msgs[|msgs| - 1];
      NoCrashIff(before);
      assert msgs == before + [m];
      NoneBelowFirstSnoc(before, m);
      if !Run(before).crashed { CrashesIff(before, m); }
    }
  }

  // ---------- Payloads: not every one has a message in it ----------

  /** What the first half of process_msg makes of a payload: an exception, or a message. */
  datatype Parsed<K> = Raises | Parses(msg: Msg<K>)

  /** process_msg: an exception ends the script. */
  function Receive<K>(r: Receiver<K>, p: Parsed<K>): Receiver<K> {
    if r.crashed then r
    else match p
         case Raises => r.(crashed := true)
         case Parses(m) => Step(r, m)
  }

  function RunParsed<K>(ps: seq<Parsed<K>>): Receiver<K> {
    if ps == [] then Receiver(map[], false)
    else Receive(RunParsed(ps[..|ps| - 1]), ps[|ps| - 1])
  }

  /** The messages among them. */
  function Messages<K>(ps: seq<Parsed<K>>): seq<Msg<K>> {
    if ps == [] then []
    else Messages(ps[..|ps| - 1]) + MessageIn(ps[|ps| - 1])
  }

  function MessageIn<K>(p: Parsed<K>): seq<Msg<K>> {
    match p case Raises => [] case Parses(m) => [m]
  }

  predicate AllParse<K>(ps: seq<Parsed<K>>) {
    forall i :: 0 <= i < |ps| ==> ps[i].Parses?
  }

  /** Once ended, the script stays ended. */
  lemma {:induction false} StaysCrashed<K>(ps: seq<Parsed<K>>, n: nat)
    requires n <= |ps| && RunParsed(ps[..n]).crashed
    ensures RunParsed(ps) == RunParsed(ps[..n])
    decreases |ps|
  {
    if n == |ps| {
      assert ps[..n] == ps;
    } else {
      assert ps[..|ps| - 1][..n] == ps[..n];
      StaysCrashed(ps[..|ps| - 1], n);
    }
  }

  lemma {:induction false} AllMessages<K>(ps: seq<Parsed<K>>)
    requires AllParse(ps)
    ensures |Messages(ps)| == |ps| && forall i :: 0 <= i < |ps| ==> Messages(ps)[i] == ps[i].msg
    decreases |ps|
  {
    if ps != [] { AllMessages(ps[..|ps| - 1]); }
  }

  lemma RunSnoc<K>(msgs: seq<Msg<K>>, m: Msg<K>)
    ensures Run(msgs + [m]) == Step(Run(msgs), m)
  {
    assert (msgs + [m])[..|msgs|] == msgs;
  }

  /** Up to an exception of the first half, the script is the statistics of the messages. */
  lemma {:induction false} ParsedIsRun<K>(ps: seq<Parsed<K>>)
    requires AllParse(ps)
    ensures RunParsed(ps) == Run(Messages(ps))
    decreases |ps|
  {
    if ps != [] {
      var before := ps[..|ps| - 1];
      ParsedIsRun(before);
      RunSnoc(Messages(before), ps[|ps| - 1].msg);
    }
  }

  /**
   For every traffic: the script survives if and only if every payload has a message in it and none of
   these continues its session just below the first counter; and then it is the statistics of the messages.
   */
  lemma {:induction false} SurvivesIff<K(!new)>(ps: seq<Parsed<K>>)
    ensures !RunParsed(ps).crashed <==> AllParse(ps) && NoneBelowFirst(Messages(ps))
    ensures !RunParsed(ps).crashed ==> RunParsed(ps) == Run(Messages(ps))
  {
    if AllParse(ps) {
      ParsedIsRun(ps);
      NoCrashIff(Messages(ps));
    } else {
      var k :| 0 <= k < |ps| && ps[k].Raises?;
      assert ps[..k + 1][..k] == ps[..k];
      StaysCrashed(ps, k + 1);
    }
  }

  /** Two packets do it: any counter, then the one before. */
  lemma DivisionByZero<K(!new)>(key: K, session: nat, ctr: int, len: nat)
    ensures Run([Msg(key, session, ctr, len), Msg(key, session, ctr - 1, len)]).crashed
  {
    var first, second := Msg(key, session, ctr, len), Msg(key, session, ctr - 1, len);
    RunOfOne(first);
    assert [first, second][..1] == [first];
  }

  lemma RunOfOne<K(!new)>(m: Msg<K>)
    ensures Run([m]) == Receiver(map[m.key := First(m)], false)
  {
    assert [m][..0] == [];
    assert Run<K>([]) == Receiver(map[], false);
  }

  // ---------- What was really sent, and what the channel lost ----------

  const WRAP := 0x1_0000_0000

  /** The positions of the packets that an order-preserving lossy channel lets through. */
  function Arrived(mask: seq<bool>): (r: seq<nat>)
    ensures forall k :: 0 <= k < |r| ==> r[k] < |mask| && mask[r[k]]
    ensures forall j, k :: 0 <= j < k < |r| ==> r[j] < r[k]
  {
    if mask == [] then []
    else
      var n := |mask| - 1;
      Arrived(mask[..n]) + (if mask[n] then [n] else [])
  }

  /** How many packets of positions lo <= i < hi the channel dropped. */
  function Dropped(mask: seq<bool>, lo: nat, hi: nat): nat
    requires hi <= |mask|
  {
    if hi <= lo then 0 else Dropped(mask, lo, hi - 1) + (if mask[hi - 1] then 0 else 1)
  }

  lemma {:induction false} DroppedPrefix(mask: seq<bool>, lo: nat, hi: nat)
    requires hi < |mask|
    ensures Dropped(mask[..|mask| - 1], lo, hi) == Dropped(mask, lo, hi)
    decreases hi
  {
    if hi > lo { DroppedPrefix(mask, lo, hi - 1); }
  }

  lemma {:induction false} AllDropped(mask: seq<bool>, lo: nat, mid: nat, hi: nat)
    requires lo <= mid <= hi <= |mask| && forall k :: mid <= k < hi ==> !mask[k]
    ensures Dropped(mask, lo, hi) == Dropped(mask, lo, mid) + (hi - mid)
    decreases hi
  {
    if mid < hi { AllDropped(mask, lo, mid, hi - 1); }
  }

  lemma {:induction false} NotArrived(mask: seq<bool>, k: nat)
    requires k < |mask|
    ensures mask[k] <==> k in Arrived(mask)
    decreases |mask|
  {
    var n := |mask| - 1;
    if k < n { NotArrived(mask[..n], k); }
  }

  lemma SilentTail(mask: seq<bool>)
    requires Arrived(mask) != []
    ensures forall k :: Arrived(mask)[|Arrived(mask)| - 1] < k < |mask| ==> !mask[k]
  {
    var a := Arrived(mask);
    forall k | a[|a| - 1] < k < |mask| ensures !mask[k] { NotArrived(mask, k); }
  }

  /** From the first to the last that arrived, every packet arrived or was dropped. */
  lemma {:induction false} ArrivedOrDropped(mask: seq<bool>)
    requires Arrived(mask) != []
    ensures
      var a := Arrived(mask);
      |a| + Dropped(mask, a[0], a[|a| - 1] + 1) == a[|a| - 1] + 1 - a[0]
    decreases |mask|
  {
    var n := |mask| - 1;
    var before := mask[..n];
    var b := Arrived(before);
    if b != [] {
      var first, last := b[0], b[|b| - 1];
      ArrivedOrDropped(before);
      DroppedPrefix(mask, first, last + 1);
      if mask[n] {
        SilentTail(before);
        assert forall k :: last + 1 <= k < n ==> mask[k] == before[k];
        AllDropped(mask, first, last + 1, n);
      }
    }
  }

  /** These packets are what got through of a session whose i-th packet carries the 32-bit counter i. */
  ghost predicate FromSender<K>(ms: seq<Msg<K>>, mask: seq<bool>) {
    && |ms| == |Arrived(mask)|
    && forall k :: 0 <= k < |ms| ==> ms[k].ctr == Arrived(mask)[k] % WRAP
  }

  /**
   For every run of the script, any traffic from other nodes included: the packets reported lost of a
   session are exactly those the channel dropped between the first and the last received, if and only if
   the 32-bit counter did not wrap between these two.  The error rate is then at least 0 and below 100.
   */
  lemma LossIsExactIff<K(!new)>(msgs: seq<Msg<K>>, key: K, mask: seq<bool>)
    requires !Run(msgs).crashed
    requires OfNode(msgs, key) != [] && FromSender(Current(msgs, key), mask)
    ensures
      var a := Arrived(mask);
      var first, last := a[0], a[|a| - 1];
      && key in Run(msgs).stats
      && var s := Run(msgs).stats[key];
      && s.received == |a| && s.last == last % WRAP
      && (s.lost == Dropped(mask, first, last + 1) <==> first / WRAP == last / WRAP)
      && (first / WRAP == last / WRAP ==> 0.0 <= s.rate < 100.0)
  {
    var a := Arrived(mask);
    var first, last := a[0], a[|a| - 1];
    SpanOf(msgs, key, mask);
    ArrivedOrDropped(mask);
    LossAgainstDrops(first, last, |a|, Run(msgs).stats[key].lost, Dropped(mask, first, last + 1));
    if first / WRAP == last / WRAP {
      RateBounds(Run(msgs).stats[key].lost, |a|);
    }
  }

  /** Across a wrap the loss comes out negative although nothing was lost: the last counter, then zero. */
  lemma WrapMiscounts<K(!new)>(key: K, session: nat, len: nat)
    ensures
      var r := Run([Msg(key, session, WRAP - 1, len), Msg(key, session, 0, len)]);
      !r.crashed && key in r.stats && r.stats[key].received == 2 && r.stats[key].lost == -WRAP
  {
    var first, second := Msg(key, session, WRAP - 1, len), Msg(key, session, 0, len);
    RunOfOne(first);
    assert [first, second][..1] == [first];
  }

  lemma SpanOf<K(!new)>(msgs: seq<Msg<K>>, key: K, mask: seq<bool>)
    requires !Run(msgs).crashed
    requires OfNode(msgs, key) != [] && FromSender(Current(msgs, key), mask)
    ensures
      var a := Arrived(mask);
      && key in Run(msgs).stats
      && var s := Run(msgs).stats[key];
      && s.received == |a| && s.last == a[|a| - 1] % WRAP
      && s.received + s.lost == a[|a| - 1] % WRAP - a[0] % WRAP + 1
      && s.lost + s.received != 0 && s.rate == 100.0 * s.lost as real / (s.lost + s.received) as real
  {
    EntryOf(msgs, key);
  }

  lemma LossAgainstDrops(first: nat, last: nat, received: nat, lost: int, dropped: nat)
    requires received + lost == last % WRAP - first % WRAP + 1
    requires received + dropped == last + 1 - first
    ensures lost == dropped <==> first / WRAP == last / WRAP
  {
    assert first == WRAP * (first / WRAP) + first % WRAP;
    assert last == WRAP * (last / WRAP) + last % WRAP;
  }

  lemma RateBounds(lost: int, received: int)
    requires lost >= 0 && received > 0
    ensures 0.0 <= 100.0 * lost as real / (lost + received) as real < 100.0
  {
    var d := (lost + received) as real;
    assert lost as real < d;
    assert 100.0 * lost as real / d == 100.0 * (lost as real / d);
    assert 0.0 <= lost as real / d < 1.0;
  }

  /** Within each node's session the counters only go up. */
  ghost predicate CountersRise<K(!new)>(msgs: seq<Msg<K>>) {
    forall i, j :: 0 <= i < j < |msgs| && msgs[i].key == msgs[j].key && msgs[i].session == msgs[j].session
      ==> msgs[i].ctr < msgs[j].ctr
  }

  lemma {:induction false} OfNodeSubset<K>(msgs: seq<Msg<K>>, key: K)
    ensures forall m :: m in OfNode(msgs, key) ==> m in msgs
    decreases |msgs|
  {
    if msgs != [] {
      OfNodeSubset(msgs[..|msgs| - 1], key);
      assert msgs[|msgs| - 1] in msgs;
    }
  }

  lemma {:induction false} SinceSessionSubset<K>(ms: seq<Msg<K>>)
    ensures forall m :: m in SinceSession(ms) ==> m in ms
    decreases |ms|
  {
    if ms != [] {
      SinceSessionSubset(ms[..|ms| - 1]);
      assert ms[|ms| - 1] in ms;
    }
  }

  lemma CurrentIsEarlier<K>(msgs: seq<Msg<K>>, key: K)
    ensures forall m :: m in Current(msgs, key) ==> m in msgs && m.key == key
  {
    SinceSessionSubset(OfNode(msgs, key));
    OfNodeSubset(msgs, key);
  }

  lemma LastRises<K(!new)>(msgs: seq<Msg<K>>, c: Msg<K>)
    requires CountersRise(msgs) && msgs != []
    requires c in msgs[..|msgs| - 1] && c.key == msgs[|msgs| - 1].key && c.session == msgs[|msgs| - 1].session
    ensures c.ctr < msgs[|msgs| - 1].ctr
  {
    var i :| 0 <= i < |msgs| - 1 && msgs[i] == c;
  }

  /** Traffic whose counters rise never ends the script. */
  lemma {:induction false} RisingCountersNeverCrash<K(!new)>(msgs: seq<Msg<K>>)
    requires CountersRise(msgs)
    ensures !Run(msgs).crashed
    decreases |msgs|
  {
    if msgs != [] {
      var before, m := msgs[..|msgs| - 1], msgs[|msgs| - 1];
      RisingCountersNeverCrash(before);
      CrashesIff(before, m);
      assert msgs == before + [m];
      CurrentIsEarlier(before, m.key);
      var current := Current(before, m.key);
      if current != [] && current[0].session == m.session {
        assert current[0] in current;
        LastRises(msgs, current[0]);
      }
    }
  }
}
