/** The two ends of the telemetry link as programs, and the link from the sensor to the statistics. */
module TelemetryLink {
  import opened Machine
  import opened Codec
  import opened LossStats
  import opened Telemetry
  import Utf8

  const EBADMSG := 77

  /** The module state of accelerometer.c. */
  class AccelNode {
    const packetBuffer: array<int32>
    var count: uint32
    var packetsSent: uint32
    ghost const euid: nat
    ghost const session: int32
    ghost var readings: seq<Reading>     // of the packets sent
    ghost var sent: seq<seq<byte>>       // the packets counted as sent
    ghost var aired: seq<bool>           // which of these the radio driver took

    ghost predicate Valid()
      reads this, packetBuffer
    {
      && packetBuffer.Length == 10
      && packetBuffer[0] == ToInt32(euid)
      && packetBuffer[1] == ToInt32(euid / 0x1_0000_0000)
      && packetBuffer[2] == session
      && packetsSent == Wrap32(|sent|) && |aired| == |sent|
      && sent == Transmissions(euid, session, readings)
    }

    /** init_app: the first three words of the packet. */
    constructor (euid: nat, session: int32)
      ensures Valid() && fresh(packetBuffer)
      ensures this.euid == euid && this.session == session && sent == []
    {
      this.euid, this.session := euid, session;
      count, packetsSent := 0, 0;
      readings, sent, aired := [], [], [];
      packetBuffer := new int32[10](_ => 0);
      new;
      packetBuffer[0] := ToInt32(euid);
      packetBuffer[1] := ToInt32(euid / 0x1_0000_0000);
      packetBuffer[2] := session;
    }

    /**
     fetch_and_display: `fetched` and `got` are what the sensor driver returns, r what accel then holds,
     apiRet what the radio driver answers.  A positive answer counts the packet although it is not sent.
     */
    method FetchAndDisplay(fetched: int, got: int, r: Reading, apiRet: int)
      requires Valid()
      modifies this, packetBuffer
      ensures Valid()
      ensures count == Wrap32(old(count) + 1)
      ensures
        var sampled := fetched > 0 || (fetched in {0, -EBADMSG} && got >= 0);
        if sampled && apiRet >= 0 then
          && sent == old(sent) + [Payload(Packet(euid, session, |old(sent)|, r))]
          && readings == old(readings) + [r] && aired == old(aired) + [apiRet == 0]
        else sent == old(sent) && readings == old(readings) && aired == old(aired)
    {
      var rc := fetched;
      count := Wrap32(count + 1);
      if rc == -EBADMSG { rc := 0; }
      if rc == 0 { rc := got; }
      if rc >= 0 { SendPacket(r, apiRet); }
    }

    /** The rest of fetch_and_display, once there is a reading. */
    method SendPacket(r: Reading, apiRet: int)
      requires Valid()
      modifies this`packetsSent, this`sent, this`readings, this`aired, packetBuffer
      ensures Valid()
      ensures
        if apiRet >= 0 then
          && sent == old(sent) + [Payload(Packet(euid, session, |old(sent)|, r))]
          && readings == old(readings) + [r] && aired == old(aired) + [apiRet == 0]
        else sent == old(sent) && readings == old(readings) && aired == old(aired)
    {
      FillPacket(r);
      var rc := if apiRet < 0 then -EIO else 0;
      if rc == 0 {
        Record(r, apiRet == 0);
        packetsSent := Wrap32(packetsSent + 1);
      }
    }

    /** packet_buffer counts as sent. */
    ghost method Record(r: Reading, taken: bool)
      requires sent == Transmissions(euid, session, readings)
      requires packetBuffer[..] == Packet(euid, session, |sent|, r)
      modifies this`sent, this`readings, this`aired
      ensures aired == old(aired) + [taken]
      ensures sent == Transmissions(euid, session, readings)
      ensures sent == old(sent) + [Payload(packetBuffer[..])] && readings == old(readings) + [r]
    {
      TransmissionsSnoc(euid, session, readings, r);
      sent := sent + [Payload(packetBuffer[..])];
      readings := readings + [r];
      aired := aired + [taken];
    }

    method FillPacket(r: Reading)
      requires Valid()
      modifies packetBuffer
      ensures packetBuffer[..] == Packet(euid, session, |sent|, r)
    {
      packetBuffer[3] := ToInt32(packetsSent);
      packetBuffer[4], packetBuffer[5] := r.x1, r.x2;
      packetBuffer[6], packetBuffer[7] := r.y1, r.y2;
      packetBuffer[8], packetBuffer[9] := r.z1, r.z2;
    }
  }

  /** The module state of socket-test.c. */
  class TextNode {
    const text: array<byte>              // lorem_ipsum
    var packetsSent: int32
    ghost const base: seq<byte>          // the text as compiled in
    ghost const euid: nat
    ghost const session: int32
    ghost var sent: seq<seq<byte>>       // the packets counted as sent
    ghost var aired: seq<bool>           // which of these the radio driver took

    /** Everything but the counter is as init_app_rnb left it. */
    ghost predicate Valid()
      reads this, text
    {
      && |base| == text.Length > UDP_TRANSMISSION_BYTES && euid < 0x1_0000_0000_0000
      && text[..16] == StartedText(base, euid, session)[..16]
      && text[20..] == StartedText(base, euid, session)[20..]
      && packetsSent == ToInt32(|sent|) && |aired| == |sent|
      && forall i :: 0 <= i < |sent| ==> sent[i] == TextPayload(base, euid, session, i)
    }

    /** init_app_rnb */
    constructor (text: array<byte>, euid: nat, session: int32)
      requires text.Length > UDP_TRANSMISSION_BYTES && euid < 0x1_0000_0000_0000
      modifies text
      ensures Valid() && this.text == text && base == old(text[..]) && sent == []
      ensures this.euid == euid && this.session == session
    {
      this.text, this.euid, this.session := text, euid, session;
      base := text[..];
      packetsSent, sent, aired := 0, [], [];
      new;
      UidTextLength(euid);
      Memcpy(text, 0, Ascii(UidText(euid)) + [0]);
      Memcpy(text, UID_CHARS, Word(session));
    }

    /** The memcpy of packets_sent. */
    method WriteCounter()
      requires Valid()
      modifies text
      ensures Valid() && text[..] == TextBuffer(base, euid, session, |sent|)
    {
      CounterOver(text[..], StartedText(base, euid, session), Word(packetsSent));
      Memcpy(text, UID_CHARS + 4, Word(packetsSent));
    }

    /** One turn of the loop of start_client_rnb. */
    method SendOne(apiRet: int)
      requires Valid()
      modifies this, text
      ensures Valid()
      ensures sent == old(sent) + if apiRet >= 0 then [TextPayload(base, euid, session, |old(sent)|)] else []
      ensures aired == old(aired) + if apiRet >= 0 then [apiRet == 0] else []
    {
      WriteCounter();
      var transmitting := UDP_TRANSMISSION_BYTES % text.Length;
      var rc := if apiRet < 0 then -EIO else 0;
      if rc >= 0 {
        NextCounter(|sent|);
        sent := sent + [text[..transmitting]];
        aired := aired + [apiRet == 0];
        packetsSent := ToInt32(packetsSent + 1);
      }
    }
  }

  /** Writing the counter again gives what writing it first would. */
  lemma CounterOver(text: seq<byte>, started: seq<byte>, w: seq<byte>)
    requires |text| == |started| > 20 && |w| == 4
    requires text[..16] == started[..16] && text[20..] == started[20..]
    ensures Overwrite(text, 16, w) == Overwrite(started, 16, w)
    ensures Overwrite(text, 16, w)[..16] == started[..16] && Overwrite(text, 16, w)[20..] == started[20..]
  {
  }

  lemma NextCounter(sent: nat)
    ensures ToInt32(ToInt32(sent) + 1) == ToInt32(sent + 1)
  {
  }

  lemma OverwriteStep(text: seq<byte>, at: nat, bytes: seq<byte>, i: nat)
    requires at + |bytes| <= |text| && i < |bytes|
    ensures Overwrite(text, at, bytes[..i])[at + i := bytes[i]] == Overwrite(text, at, bytes[..i + 1])
  {
  }

  method Memcpy(dest: array<byte>, at: nat, bytes: seq<byte>)
    requires at + |bytes| <= dest.Length
    modifies dest
    ensures dest[..] == Overwrite(old(dest[..]), at, bytes)
  {
    for i := 0 to |bytes|
      invariant dest[..] == Overwrite(old(dest[..]), at, bytes[..i])
    {
      OverwriteStep(old(dest[..]), at, bytes, i);
      dest[at + i] := bytes[i];
    }
    assert bytes[..|bytes|] == bytes;
  }

  /** What a node sends in one session: the i-th packet carries the counter i. */
  ghost function Transmissions(euid: nat, session: int32, readings: seq<Reading>): (r: seq<seq<byte>>)
    ensures |r| == |readings|
  {
    seq(|readings|, i requires 0 <= i < |readings| => Payload(Packet(euid, session, i, readings[i])))
  }

  lemma TransmissionsSnoc(euid: nat, session: int32, readings: seq<Reading>, r: Reading)
    ensures Transmissions(euid, session, readings + [r])
         == Transmissions(euid, session, readings) + [Payload(Packet(euid, session, |readings|, r))]
  {
  }

  /** Both scripts, seen from the statistics: a payload after the other. */
  ghost function Parsing(traffic: seq<seq<byte>>): (r: seq<Parsed<string>>)
    ensures |r| == |traffic|
  {
    seq(|traffic|, i requires 0 <= i < |traffic| => ParsePacket(traffic[i]))
  }

  ghost function TextParsing(traffic: seq<seq<byte>>): (r: seq<Parsed<seq<nat>>>)
    ensures |r| == |traffic|
  {
    seq(|traffic|, i requires 0 <= i < |traffic| => ParseText(traffic[i]))
  }

  /** Both scripts: what process_msg does to stats_dic for a decoded packet. */
  method Account<K(==, !new)>(stats: map<K, Stats>, m: Msg<K>) returns (stats': map<K, Stats>, crash: bool)
    ensures Receiver(stats', crash) == Step(Receiver(stats, false), m)
    ensures forall key :: key != m.key && key in stats ==> key in stats' && stats'[key] == stats[key]
  {
    crash := false;
    if m.key in stats {
      if stats[m.key].session != m.session {
        stats' := stats[m.key := Stats(m.session, m.ctr, 1, 0, 0.0, m.len)];
      } else {
        var entry := stats[m.key];
        entry := entry.(lost := entry.lost + (m.ctr - entry.last - 1));
        entry := entry.(last := m.ctr);
        entry := entry.(received := entry.received + 1);
        if entry.lost + entry.received == 0 {
          crash := true;
        } else {
          entry := entry.(rate := 100.0 * entry.lost as real / (entry.lost + entry.received) as real);
          entry := entry.(bytes := entry.bytes + m.len);
        }
        stats' := stats[m.key := entry];
      }
    } else {
      stats' := stats[m.key := Stats(m.session, m.ctr, 1, 0, 0.0, m.len)];
    }
  }

  /** The global state of accelerometer_rnb.py. */
  class Script {
    var stats: map<string, Stats>
    var axes: map<string, (real, real, real)>
    var crashed: bool

    constructor ()
      ensures stats == map[] && axes == map[] && !crashed
    {
      stats, axes, crashed := map[], map[], false;
    }

    /** process_msg, up to the printing; an exception ends the script. */
    method ProcessMsg(payload: seq<byte>)
      requires !crashed
      modifies this
      ensures Receiver(stats, crashed) == Receive(Receiver(old(stats), false), ParsePacket(payload))
      ensures
        var d := Decode(payload);
        && (forall key :: (d.IndexError? || key != d.key) && key in old(stats) ==>
              key in stats && stats[key] == old(stats[key]))
        && axes == if crashed then old(axes) else old(axes)[d.key := (d.x, d.y, d.z)]
    {
      if |payload| <= 36 {
        crashed := true;
        return;
      }
      var euid := Hex(Unsigned(Slice(payload, 0, 8)));
      var sessionRand, ctr := Unsigned(Slice(payload, 8, 12)), Unsigned(Slice(payload, 12, 16));
      var x := Fixed(Signed(Slice(payload, 16, 20)), Signed(Slice(payload, 20, 24)));
      var y := Fixed(Signed(Slice(payload, 24, 28)), Signed(Slice(payload, 28, 32)));
      var z := Fixed(Signed(Slice(payload, 32, 36)), Signed(Slice(payload, 36, 40)));
      stats, crashed := Account(stats, Msg(euid, sessionRand, ctr, |payload|));
      if !crashed { axes := axes[euid := (x, y, z)]; }
    }

    /** loop_forever, for as long as there is traffic: the script processes it in order until it ends. */
    method LoopForever(traffic: seq<seq<byte>>)
      requires stats == map[] && !crashed
      modifies this
      ensures Receiver(stats, crashed) == RunParsed(Parsing(traffic))
    {
      ghost var ps := Parsing(traffic);
      var i := 0;
      while i < |traffic| && !crashed
        invariant 0 <= i <= |traffic|
        invariant Receiver(stats, crashed) == RunParsed(ps[..i])
      {
        assert ps[..i + 1][..i] == ps[..i];
        ProcessMsg(traffic[i]);
        i := i + 1;
      }
      if crashed { StaysCrashed(ps, i); }
      assert ps[..|traffic|] == ps;
    }
  }

  /** The global state of socket_test_rnb.py. */
  class TextScript {
    var stats: map<seq<nat>, Stats>
    var crashed: bool

    constructor ()
      ensures stats == map[] && !crashed
    {
      stats, crashed := map[], false;
    }

    /** process_msg, up to the printing; a UID field that is not UTF-8 ends the script. */
    method ProcessMsg(payload: seq<byte>)
      requires !crashed
      modifies this
      ensures Receiver(stats, crashed) == Receive(Receiver(old(stats), false), ParseText(payload))
    {
      match Utf8.Decode(Slice(payload, 0, 12)) {
        case Malformed =>
          crashed := true;
        case Text(key) =>
          var session, ctr := Unsigned(Slice(payload, 12, 16)), Unsigned(Slice(payload, 16, 20));
          stats, crashed := Account(stats, Msg(key, session, ctr, |payload|));
      }
    }

    /** loop_forever */
    method LoopForever(traffic: seq<seq<byte>>)
      requires stats == map[] && !crashed
      modifies this
      ensures Receiver(stats, crashed) == RunParsed(TextParsing(traffic))
    {
      ghost var ps := TextParsing(traffic);
      var i := 0;
      while i < |traffic| && !crashed
        invariant 0 <= i <= |traffic|
        invariant Receiver(stats, crashed) == RunParsed(ps[..i])
      {
        assert ps[..i + 1][..i] == ps[..i];
        ProcessMsg(traffic[i]);
        i := i + 1;
      }
      if crashed { StaysCrashed(ps, i); }
      assert ps[..|traffic|] == ps;
    }
  }

  // ---------- From the sensor to the statistics ----------

  /** What an order-preserving lossy channel makes of a sequence of packets. */
  ghost function Carried(sent: seq<seq<byte>>, mask: seq<bool>): (r: seq<seq<byte>>)
    requires |mask| == |sent|
    ensures |r| == |Arrived(mask)|
  {
    seq(|Arrived(mask)|, k requires 0 <= k < |Arrived(mask)| => sent[Arrived(mask)[k]])
  }

  lemma {:induction false} OneSession<K>(ms: seq<Msg<K>>)
    requires forall i :: 0 <= i < |ms| ==> ms[i].session == ms[0].session
    ensures SinceSession(ms) == ms
    decreases |ms|
  {
    if |ms| > 1 {
      OneSession(ms[..|ms| - 1]);
    } else if |ms| == 1 {
      assert ms == [ms[0]];
    }
  }

  lemma CarriedMsg(euid: nat, session: int32, readings: seq<Reading>, mask: seq<bool>, k: nat)
    requires euid < 0x1_0000_0000_0000 && |mask| == |readings| && k < |Arrived(mask)|
    ensures
      Parsing(Carried(Transmissions(euid, session, readings), mask))[k] ==
      Parses(Msg(Hex(euid), Wrap32(session), Arrived(mask)[k] % WRAP, 40))
  {
    var i := Arrived(mask)[k];
    DecodeUndoesEncode(euid, session, i, readings[i]);
  }

  /** The entry counts what arrived and what was dropped between the first and last that arrived. */
  ghost predicate Exact(s: Stats, mask: seq<bool>) {
    var a := Arrived(mask);
    && a != []
    && s.received == |a|
    && s.lost == Dropped(mask, a[0], a[|a| - 1] + 1)
    && s.last == a[|a| - 1]
    && 0.0 <= s.rate < 100.0
  }

  lemma NoWrap(i: nat)
    requires i < WRAP
    ensures i / WRAP == 0 && i % WRAP == i
  {
  }

  lemma SessionIsExact<K(!new)>(msgs: seq<Msg<K>>, key: K, session: nat, mask: seq<bool>)
    requires !Run(msgs).crashed && Arrived(mask) != [] && |mask| <= WRAP
    requires var ms, a := OfNode(msgs, key), Arrived(mask);
             |ms| == |a| && forall k :: 0 <= k < |ms| ==> ms[k] == Msg(key, session, a[k] % WRAP, 40)
    ensures key in Run(msgs).stats && Exact(Run(msgs).stats[key], mask)
  {
    var a := Arrived(mask);
    OneSession(OfNode(msgs, key));
    LossIsExactIff(msgs, key, mask);
    NoWrap(a[0]);
    NoWrap(a[|a| - 1]);
  }

  /** The traffic holds of this node exactly what gets through of one session, in order. */
  ghost predicate Carries(
    traffic: seq<seq<byte>>, euid: nat, session: int32, readings: seq<Reading>, mask: seq<bool>)
    requires |mask| == |readings|
  {
    OfNode(Messages(Parsing(traffic)), Hex(euid))
    == Messages(Parsing(Carried(Transmissions(euid, session, readings), mask)))
  }

  /**
   End to end, whatever the readings, whatever the driver and the channel drop (`mask` tells what gets
   through) and whatever other traffic is mixed in: the script survives if and only if every payload is
   longer than 36 bytes and none continues its session just below the first counter, as none does if
   counters rise.  If it survives, the entry of a node that sent at most 2^32 packets counts exactly its
   packets that got through and those dropped between the first and last of them.
   */
  lemma {:induction false} LinkIsExact(
    euid: nat, session: int32, readings: seq<Reading>, mask: seq<bool>, traffic: seq<seq<byte>>)
    requires euid < 0x1_0000_0000_0000 && |mask| == |readings| <= WRAP && Arrived(mask) != []
    requires Carries(traffic, euid, session, readings, mask)
    ensures
      var r, msgs := RunParsed(Parsing(traffic)), Messages(Parsing(traffic));
      var long := forall i :: 0 <= i < |traffic| ==> |traffic[i]| > 36;
      && (!r.crashed <==> long && NoneBelowFirst(msgs))
      && (long && CountersRise(msgs) ==> !r.crashed)
      && (!r.crashed ==> Hex(euid) in r.stats && Exact(r.stats[Hex(euid)], mask))
  {
    var msgs, a := Messages(Parsing(traffic)), Arrived(mask);
    SurvivesIff(Parsing(traffic));
    ParsesIffLong(traffic);
    RisingSurvives(msgs);
    if !RunParsed(Parsing(traffic)).crashed {
      var ps := Parsing(Carried(Transmissions(euid, session, readings), mask));
      forall k | 0 <= k < |ps| ensures ps[k] == Parses(Msg(Hex(euid), Wrap32(session), a[k] % WRAP, 40)) {
        CarriedMsg(euid, session, readings, mask, k);
      }
      AllMessages(ps);
      SessionIsExact(msgs, Hex(euid), Wrap32(session), mask);
    }
  }

  lemma {:induction false} OnlyNode<K>(ms: seq<Msg<K>>, key: K)
    requires forall i :: 0 <= i < |ms| ==> ms[i].key == key
    ensures OfNode(ms, key) == ms
    decreases |ms|
  {
    if ms != [] { OnlyNode(ms[..|ms| - 1], key); }
  }

  /** A session on its own: it carries itself, and its counters rise. */
  lemma SessionAlone<K(!new)>(ps: seq<Parsed<K>>, key: K, session: nat, mask: seq<bool>)
    requires |mask| <= WRAP && |ps| == |Arrived(mask)|
    requires forall k :: 0 <= k < |ps| ==> ps[k] == Parses(Msg(key, session, Arrived(mask)[k] % WRAP, 40))
    ensures OfNode(Messages(ps), key) == Messages(ps) && CountersRise(Messages(ps))
  {
    AllMessages(ps);
    OnlyNode(Messages(ps), key);
    forall k | 0 <= k < |ps| ensures Messages(ps)[k].ctr == Arrived(mask)[k] {
      NoWrap(Arrived(mask)[k]);
    }
  }

  /** With no other traffic the script survives, and the entry is exact. */
  lemma LinkAlone(euid: nat, session: int32, readings: seq<Reading>, mask: seq<bool>)
    requires euid < 0x1_0000_0000_0000 && |mask| == |readings| <= WRAP && Arrived(mask) != []
    ensures
      var r := RunParsed(Parsing(Carried(Transmissions(euid, session, readings), mask)));
      !r.crashed && Hex(euid) in r.stats && Exact(r.stats[Hex(euid)], mask)
  {
    var traffic := Carried(Transmissions(euid, session, readings), mask);
    forall k | 0 <= k < |traffic|
      ensures Parsing(traffic)[k] == Parses(Msg(Hex(euid), Wrap32(session), Arrived(mask)[k] % WRAP, 40))
    {
      CarriedMsg(euid, session, readings, mask, k);
    }
    SessionAlone(Parsing(traffic), Hex(euid), Wrap32(session), mask);
    ParsesIffLong(traffic);
    LinkIsExact(euid, session, readings, mask, traffic);
  }

  lemma ParsesIffLong(traffic: seq<seq<byte>>)
    ensures AllParse(Parsing(traffic)) <==> forall i :: 0 <= i < |traffic| ==> |traffic[i]| > 36
  {
    forall i | 0 <= i < |traffic| ensures Parsing(traffic)[i].Parses? <==> |traffic[i]| > 36 {
    }
    if AllParse(Parsing(traffic)) {
      forall i | 0 <= i < |traffic| ensures |traffic[i]| > 36 { assert Parsing(traffic)[i].Parses?; }
    }
  }

  lemma RisingSurvives<K(!new)>(msgs: seq<Msg<K>>)
    ensures CountersRise(msgs) ==> NoneBelowFirst(msgs)
  {
    NoCrashIff(msgs);
    if CountersRise(msgs) { RisingCountersNeverCrash(msgs); }
  }

  // ---------- The same for the text packets ----------

  /** What a socket-test node sends in one session of n packets. */
  ghost function TextTransmissions(text: seq<byte>, euid: nat, session: int32, n: nat): (r: seq<seq<byte>>)
    requires |text| > UDP_TRANSMISSION_BYTES && euid < 0x1_0000_0000_0000
    ensures |r| == n
  {
    seq(n, i requires 0 <= i < n => TextPayload(text, euid, session, i))
  }

  /** The traffic holds of this node, by its key, exactly what gets through of one session, in order. */
  ghost predicate TextCarries(
    traffic: seq<seq<byte>>, text: seq<byte>, euid: nat, session: int32, key: seq<nat>, mask: seq<bool>)
    requires |text| > UDP_TRANSMISSION_BYTES && euid < 0x1_0000_0000_0000
  {
    OfNode(Messages(TextParsing(traffic)), key)
    == Messages(TextParsing(Carried(TextTransmissions(text, euid, session, |mask|), mask)))
  }

  /**
   End to end for the socket test: the script survives if and only if the UID field of every payload is
   UTF-8 and none continues its session just below the first counter; and then the entry is exact.  By
   UidFieldDecodesIff an ASCII text gives every node a key, and by TextKeysAreInjective one of its own.
   */
  lemma {:induction false} TextLinkIsExact(
    text: seq<byte>, euid: nat, session: int32, key: seq<nat>, mask: seq<bool>, traffic: seq<seq<byte>>)
    requires |text| > UDP_TRANSMISSION_BYTES && euid < 0x1_0000_0000_0000
    requires |mask| <= WRAP && Arrived(mask) != []
    requires Utf8.Decode(UidField(text, euid)) == Utf8.Text(key)
    requires TextCarries(traffic, text, euid, session, key, mask)
    ensures
      var r, msgs := RunParsed(TextParsing(traffic)), Messages(TextParsing(traffic));
      var decodable := forall i :: 0 <= i < |traffic| ==> Utf8.Decode(Slice(traffic[i], 0, 12)).Text?;
      && (!r.crashed <==> decodable && NoneBelowFirst(msgs))
      && (decodable && CountersRise(msgs) ==> !r.crashed)
      && (!r.crashed ==> key in r.stats && Exact(r.stats[key], mask))
  {
    var msgs, a := Messages(TextParsing(traffic)), Arrived(mask);
    SurvivesIff(TextParsing(traffic));
    ParsesIffDecodable(traffic);
    RisingSurvives(msgs);
    if !RunParsed(TextParsing(traffic)).crashed {
      var ps := TextParsing(Carried(TextTransmissions(text, euid, session, |mask|), mask));
      forall k | 0 <= k < |ps| ensures ps[k] == Parses(Msg(key, Wrap32(session), a[k] % WRAP, 40)) {
        CarriedTextMsg(text, euid, session, key, mask, k);
      }
      AllMessages(ps);
      SessionIsExact(msgs, key, Wrap32(session), mask);
    }
  }

  /** With no other traffic the script survives, and the entry is exact. */
  lemma TextLinkAlone(text: seq<byte>, euid: nat, session: int32, key: seq<nat>, mask: seq<bool>)
    requires |text| > UDP_TRANSMISSION_BYTES && euid < 0x1_0000_0000_0000
    requires |mask| <= WRAP && Arrived(mask) != []
    requires Utf8.Decode(UidField(text, euid)) == Utf8.Text(key)
    ensures
      var r := RunParsed(TextParsing(Carried(TextTransmissions(text, euid, session, |mask|), mask)));
      !r.crashed && key in r.stats && Exact(r.stats[key], mask)
  {
    var traffic := Carried(TextTransmissions(text, euid, session, |mask|), mask);
    forall k | 0 <= k < |traffic|
      ensures TextParsing(traffic)[k] == Parses(Msg(key, Wrap32(session), Arrived(mask)[k] % WRAP, 40))
    {
      CarriedTextMsg(text, euid, session, key, mask, k);
    }
    SessionAlone(TextParsing(traffic), key, Wrap32(session), mask);
    ParsesIffDecodable(traffic);
    TextLinkIsExact(text, euid, session, key, mask, traffic);
  }

  lemma ParsesIffDecodable(traffic: seq<seq<byte>>)
    ensures AllParse(TextParsing(traffic))
            <==> forall i :: 0 <= i < |traffic| ==> Utf8.Decode(Slice(traffic[i], 0, 12)).Text?
  {
    if AllParse(TextParsing(traffic)) {
      forall i | 0 <= i < |traffic| ensures Utf8.Decode(Slice(traffic[i], 0, 12)).Text? {
        assert TextParsing(traffic)[i].Parses?;
      }
    }
  }

  lemma CarriedTextMsg(text: seq<byte>, euid: nat, session: int32, key: seq<nat>, mask: seq<bool>, k: nat)
    requires |text| > UDP_TRANSMISSION_BYTES && euid < 0x1_0000_0000_0000 && k < |Arrived(mask)|
    requires Utf8.Decode(UidField(text, euid)) == Utf8.Text(key)
    ensures
      TextParsing(Carried(TextTransmissions(text, euid, session, |mask|), mask))[k] ==
      Parses(Msg(key, Wrap32(session), Arrived(mask)[k] % WRAP, 40))
  {
    DecodeTextUndoesEncode(text, euid, session, Arrived(mask)[k]);
  }
}
