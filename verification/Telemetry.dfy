/**
 The telemetry link: the accelerometer and socket-test nodes that fill packets in place, and the
 scripts that take them apart and keep statistics.
 */
module Telemetry {
  import opened Machine
  import opened Codec
  import opened LossStats
  import Utf8

  // ---------- The accelerometer packet: ten int32_t words ----------

  /** accel[0..3]: integer part and millionths of each axis. */
  datatype Reading = Reading(x1: int32, x2: int32, y1: int32, y2: int32, z1: int32, z2: int32)

  /** packet_buffer of a node that has sent `sent` packets in this session. */
  function Packet(euid: nat, session: int32, sent: nat, r: Reading): (words: seq<int32>)
    ensures |words| == 10
  {
    [ToInt32(euid), ToInt32(euid / 0x1_0000_0000), session, ToInt32(sent), r.x1, r.x2, r.y1, r.y2, r.z1, r.z2]
  }

  /** The bytes of packet_buffer in memory. */
  function Payload(words: seq<int32>): (r: seq<byte>)
    ensures |r| == 4 * |words|
  {
    if words == [] then [] else Payload(words[..|words| - 1]) + Word(words[|words| - 1])
  }

  /** A Python slice: the bounds are clipped to the sequence. */
  function Slice<T>(s: seq<T>, from: nat, upTo: nat): seq<T> {
    var hi := if upTo < |s| then upTo else |s|;
    if from < hi then s[from..hi] else []
  }

  datatype Decoded = IndexError | Decoded(key: string, session: nat, ctr: nat, x: real, y: real, z: real, len: nat)

  /** Integer part and millionths. */
  function Fixed(val1: int, val2: int): real {
    val1 as real + val2 as real / 1000000.0
  }

  /** The four payload bytes from position k on. */
  function Quad(payload: seq<byte>, k: nat): seq<byte> {
    Slice(payload, k, k + 4)
  }

  function Axis(payload: seq<byte>, k: nat): real {
    Fixed(Signed(Quad(payload, k)), Signed(Quad(payload, k + 4)))
  }

  /** The first half of process_msg in accelerometer_rnb.py; data[5] is missing from a short payload. */
  function Decode(payload: seq<byte>): Decoded {
    if |payload| <= 36 then IndexError
    else Decoded(Hex(Unsigned(Slice(payload, 0, 8))),
                 Unsigned(Quad(payload, 8)),
                 Unsigned(Quad(payload, 12)),
                 Axis(payload, 16), Axis(payload, 24), Axis(payload, 32),
                 |payload|)
  }

  /** For the statistics. */
  function ParsePacket(payload: seq<byte>): Parsed<string> {
    match Decode(payload)
    case IndexError => Raises
    case Decoded(key, session, ctr, _, _, _, len) => Parses(Msg(key, session, ctr, len))
  }

  lemma {:induction false} PayloadWord(words: seq<int32>, k: nat)
    requires k < |words|
    ensures Quad(Payload(words), 4 * k) == Word(words[k])
    decreases |words|
  {
    var n := |words| - 1;
    var before, last := Payload(words[..n]), Word(words[n]);
    assert Payload(words) == before + last;
    QuadOfConcat(before, last, 4 * k);
    if k < n { PayloadWord(words[..n], k); }
  }

  lemma QuadOfConcat(a: seq<byte>, b: seq<byte>, k: nat)
    requires |b| == 4
    ensures k + 4 <= |a| ==> Quad(a + b, k) == Quad(a, k)
    ensures k == |a| ==> Quad(a + b, k) == b
  {
  }

  lemma TwoQuads(p: seq<byte>)
    requires |p| >= 8
    ensures Slice(p, 0, 8) == Quad(p, 0) + Quad(p, 4)
  {
  }

  lemma SignedWordOf(words: seq<int32>, k: nat)
    requires k < |words|
    ensures Signed(Quad(Payload(words), 4 * k)) == words[k]
  {
    PayloadWord(words, k);
    WordRoundTrip(words[k]);
  }

  lemma UnsignedWordOf(words: seq<int32>, k: nat)
    requires k < |words|
    ensures Unsigned(Quad(Payload(words), 4 * k)) == Wrap32(words[k])
  {
    PayloadWord(words, k);
    WordRoundTrip(words[k]);
  }

  lemma EuidOf(words: seq<int32>)
    requires |words| >= 2
    ensures Unsigned(Slice(Payload(words), 0, 8)) == Wrap32(words[0]) + 0x1_0000_0000 * Wrap32(words[1])
  {
    var p := Payload(words);
    TwoQuads(p);
    UnsignedOfPair(Quad(p, 0), Quad(p, 4));
    UnsignedWordOf(words, 0);
    UnsignedWordOf(words, 1);
    assert 4 * 0 == 0 && 4 * 1 == 4;
  }

  lemma SplitEuid(euid: nat)
    requires euid < 0x1_0000_0000_0000_0000
    ensures Wrap32(ToInt32(euid)) + 0x1_0000_0000 * Wrap32(ToInt32(euid / 0x1_0000_0000)) == euid
  {
    WrapOfToInt32(euid);
    WrapOfToInt32(euid / 0x1_0000_0000);
  }

  lemma SignedWordAt(words: seq<int32>, k: nat, at: nat)
    requires k < |words| && at == 4 * k
    ensures Signed(Quad(Payload(words), at)) == words[k]
  {
    SignedWordOf(words, k);
  }

  lemma AxisFrom(payload: seq<byte>, at: nat, a: int, b: int)
    requires Signed(Quad(payload, at)) == a && Signed(Quad(payload, at + 4)) == b
    ensures Axis(payload, at) == Fixed(a, b)
  {
  }

  /** What the script sees of an axis: integer part and millionths. */
  lemma FixedIsExact(val1: int, val2: int)
    ensures Fixed(val1, val2) * 1000000.0 == (val1 * 1000000 + val2) as real
  {
  }

  lemma DecodeFields(euid: nat, session: int32, sent: nat, r: Reading)
    requires euid < 0x1_0000_0000_0000
    ensures
      Decode(Payload(Packet(euid, session, sent, r))) ==
      Decoded(Hex(euid), Wrap32(session), sent % 0x1_0000_0000,
              Fixed(r.x1, r.x2), Fixed(r.y1, r.y2), Fixed(r.z1, r.z2), 40)
  {
    var words := Packet(euid, session, sent, r);
    HeaderOf(words);
    SplitEuid(euid);
    WrapOfToInt32(sent);
    AxesOf(words, Payload(words));
  }

  /**
   Decoding undoes encoding, for every EUID, session, counter and reading; in millionths each axis is
   exactly what the sensor gave.
   */
  lemma {:induction false} DecodeUndoesEncode(euid: nat, session: int32, sent: nat, r: Reading)
    requires euid < 0x1_0000_0000_0000
    ensures
      var d := Decode(Payload(Packet(euid, session, sent, r)));
      && d.Decoded? && d.key == Hex(euid) && d.len == 40
      && d.session == session % 0x1_0000_0000 && d.ctr == sent % 0x1_0000_0000
      && d.x * 1000000.0 == (r.x1 * 1000000 + r.x2) as real
      && d.y * 1000000.0 == (r.y1 * 1000000 + r.y2) as real
      && d.z * 1000000.0 == (r.z1 * 1000000 + r.z2) as real
  {
    DecodeFields(euid, session, sent, r);
    FixedIsExact(r.x1, r.x2);
    FixedIsExact(r.y1, r.y2);
    FixedIsExact(r.z1, r.z2);
  }

  /** What the script makes of any payload: at least 37 bytes are needed, and the last word may be cut. */
  lemma DecodesAnyPayload(p: seq<byte>)
    ensures Decode(p).IndexError? <==> |p| <= 36
    ensures
      |p| > 36 ==>
        var d, end := Decode(p), if |p| < 40 then |p| else 40;
        && d.key == Hex(Unsigned(p[0..8])) && d.session == Unsigned(p[8..12]) && d.ctr == Unsigned(p[12..16])
        && d.x * 1000000.0 == (Signed(p[16..20]) * 1000000 + Signed(p[20..24])) as real
        && d.y * 1000000.0 == (Signed(p[24..28]) * 1000000 + Signed(p[28..32])) as real
        && d.z * 1000000.0 == (Signed(p[32..36]) * 1000000 + Signed(p[36..end])) as real
        && d.len == |p|
        && ParsePacket(p) == Parses(Msg(d.key, d.session, d.ctr, |p|))
  {
  }

  /** On the air: the two halves of the EUID, the session, the counter and the axes, as ten words in this order. */
  lemma PacketLayout(euid: nat, session: int32, sent: nat, r: Reading)
    ensures
      var p := Payload(Packet(euid, session, sent, r));
      && |p| == 40
      && p[0..4] == Word(ToInt32(euid)) && p[4..8] == Word(ToInt32(euid / 0x1_0000_0000))
      && p[8..12] == Word(session) && p[12..16] == Word(ToInt32(sent))
      && p[16..20] == Word(r.x1) && p[20..24] == Word(r.x2)
      && p[24..28] == Word(r.y1) && p[28..32] == Word(r.y2)
      && p[32..36] == Word(r.z1) && p[36..40] == Word(r.z2)
  {
    var words := Packet(euid, session, sent, r);
    forall k: nat | k < 10 ensures Payload(words)[4 * k..4 * k + 4] == Word(words[k]) { PayloadWord(words, k); }
    TenWords(words, Payload(words));
  }

  lemma TenWords(words: seq<int32>, p: seq<byte>)
    requires |words| == 10 && |p| == 40
    requires forall k :: 0 <= k < 10 ==> p[4 * k..4 * k + 4] == Word(words[k])
    ensures p[0..4] == Word(words[0]) && p[4..8] == Word(words[1]) && p[8..12] == Word(words[2])
    ensures p[12..16] == Word(words[3]) && p[16..20] == Word(words[4]) && p[20..24] == Word(words[5])
    ensures p[24..28] == Word(words[6]) && p[28..32] == Word(words[7]) && p[32..36] == Word(words[8])
    ensures p[36..40] == Word(words[9])
  {
    assert 4 * 0 == 0 && 4 * 1 == 4 && 4 * 2 == 8 && 4 * 3 == 12 && 4 * 4 == 16;
    assert p[4 * 0..4 * 0 + 4] == Word(words[0]);
    assert p[4 * 9..4 * 9 + 4] == Word(words[9]);
  }

  lemma AxesOf(words: seq<int32>, p: seq<byte>)
    requires |words| == 10 && p == Payload(words)
    ensures Axis(p, 16) == Fixed(words[4], words[5])
    ensures Axis(p, 24) == Fixed(words[6], words[7])
    ensures Axis(p, 32) == Fixed(words[8], words[9])
  {
    SignedWordAt(words, 4, 16);
    SignedWordAt(words, 5, 20);
    SignedWordAt(words, 6, 24);
    SignedWordAt(words, 7, 28);
    SignedWordAt(words, 8, 32);
    SignedWordAt(words, 9, 36);
    AxisFrom(p, 16, words[4], words[5]);
    AxisFrom(p, 24, words[6], words[7]);
    AxisFrom(p, 32, words[8], words[9]);
  }

  lemma HeaderOf(words: seq<int32>)
    requires |words| == 10
    ensures
      Decode(Payload(words)) ==
      Decoded(Hex(Wrap32(words[0]) + 0x1_0000_0000 * Wrap32(words[1])), Wrap32(words[2]), Wrap32(words[3]),
              Axis(Payload(words), 16), Axis(Payload(words), 24), Axis(Payload(words), 32), 40)
  {
    EuidOf(words);
    UnsignedWordOf(words, 2);
    UnsignedWordOf(words, 3);
  }

  /** Two nodes never share an entry of stats_dic. */
  lemma KeysAreInjective(a: nat, b: nat)
    ensures Hex(a) == Hex(b) <==> a == b
  {
    HexRoundTrip(a);
    HexRoundTrip(b);
  }

  // ---------- The socket-test packet: a text UID, then two words ----------

  const UID_CHARS := 12

  const UDP_TRANSMISSION_BYTES := 40

  function CharByte(c: char): byte {
    if IsDigit(c) then c as int else 0
  }

  function Ascii(s: string): (r: seq<byte>)
    ensures |r| == |s| && forall i :: 0 <= i < |s| ==> r[i] == CharByte(s[i])
  {
    seq(|s|, i requires 0 <= i < |s| => CharByte(s[i]))
  }

  /** What sprintf writes: the high 16 bits and the low 32 bits of the EUID. */
  function UidText(euid: nat): (r: string)
    ensures |r| >= 8 && forall c :: c in r ==> IsDigit(c)
  {
    Hex4RoundTrip(euid / 0x1_0000_0000);
    Hex4RoundTrip(euid % 0x1_0000_0000);
    Hex4(euid / 0x1_0000_0000) + Hex4(euid % 0x1_0000_0000)
  }

  lemma Hex4Length(n: nat)
    ensures n < 0x1_0000 ==> |Hex4(n)| == 4
    ensures n < 0x1_0000_0000 ==> |Hex4(n)| <= 8
  {
    if n < 0x1_0000 { HexLength(n, 4); } else if n < 0x1_0000_0000 { HexLength(n, 8); }
  }

  lemma UidTextLength(euid: nat)
    requires euid < 0x1_0000_0000_0000
    ensures |Hex4(euid / 0x1_0000_0000)| == 4 && 8 <= |UidText(euid)| <= UID_CHARS
  {
    Hex4Length(euid / 0x1_0000_0000);
    Hex4Length(euid % 0x1_0000_0000);
  }

  /** memcpy into the text. */
  function Overwrite(text: seq<byte>, at: nat, bytes: seq<byte>): (r: seq<byte>)
    requires at + |bytes| <= |text|
    ensures |r| == |text|
  {
    text[..at] + bytes + text[at + |bytes|..]
  }

  /** What init_app_rnb makes of the text: UID text and its NUL, then the session. */
  function StartedText(text: seq<byte>, euid: nat, session: int32): (r: seq<byte>)
    requires |text| > UDP_TRANSMISSION_BYTES && euid < 0x1_0000_0000_0000
    ensures |r| == |text|
  {
    UidTextLength(euid);
    Overwrite(Overwrite(text, 0, Ascii(UidText(euid)) + [0]), UID_CHARS, Word(session))
  }

  /** The text buffer when a packet goes out: the counter over that. */
  function TextBuffer(text: seq<byte>, euid: nat, session: int32, sent: nat): (r: seq<byte>)
    requires |text| > UDP_TRANSMISSION_BYTES && euid < 0x1_0000_0000_0000
    ensures |r| == |text|
  {
    Overwrite(StartedText(text, euid, session), UID_CHARS + 4, Word(ToInt32(sent)))
  }

  function TextPayload(text: seq<byte>, euid: nat, session: int32, sent: nat): seq<byte>
    requires |text| > UDP_TRANSMISSION_BYTES && euid < 0x1_0000_0000_0000
  {
    TextBuffer(text, euid, session, sent)[..UDP_TRANSMISSION_BYTES % |text|]
  }

  /** The first half of process_msg in socket_test_rnb.py; the key is a string of code points. */
  function ParseText(payload: seq<byte>): Parsed<seq<nat>> {
    match Utf8.Decode(Slice(payload, 0, 12))
    case Malformed => Raises
    case Text(key) =>
      Parses(Msg(key, Unsigned(Slice(payload, 12, 16)), Unsigned(Slice(payload, 16, 20)), |payload|))
  }

  /** What the other script makes of any payload: slices of a short one are shorter or empty. */
  lemma ParsesAnyText(p: seq<byte>)
    ensures
      var m, field := ParseText(p), if |p| <= 12 then p else p[0..12];
      && (m.Raises? <==> Utf8.Decode(field).Malformed?)
      && (|p| >= 20 && m.Parses? ==>
            m.msg == Msg(Utf8.Decode(field).points, Unsigned(p[12..16]), Unsigned(p[16..20]), |p|))
      && (|p| <= 12 && m.Parses? ==> m.msg == Msg(Utf8.Decode(field).points, 0, 0, |p|))
  {
    if |p| <= 12 { assert Slice(p, 0, 12) == p; }
  }

  /** The 12-byte field: the UID text, and if it is shorter a NUL and leftovers of the text below. */
  function UidField(text: seq<byte>, euid: nat): seq<byte>
    requires |text| > UDP_TRANSMISSION_BYTES && euid < 0x1_0000_0000_0000
  {
    UidTextLength(euid);
    (Ascii(UidText(euid)) + [0] + text[|UidText(euid)| + 1..])[..UID_CHARS]
  }

  lemma OverwriteShows(text: seq<byte>, at: nat, bytes: seq<byte>)
    requires at + |bytes| <= |text|
    ensures Overwrite(text, at, bytes)[at..at + |bytes|] == bytes
  {
  }

  lemma OverwriteKeeps(text: seq<byte>, at: nat, bytes: seq<byte>, i: nat, j: nat)
    requires at + |bytes| <= |text| && i <= j <= at
    ensures Overwrite(text, at, bytes)[i..j] == text[i..j]
  {
  }

  lemma TextSlices(text: seq<byte>, euid: nat, session: int32, sent: nat)
    requires |text| > UDP_TRANSMISSION_BYTES && euid < 0x1_0000_0000_0000
    ensures
      var all := TextBuffer(text, euid, session, sent);
      all[0..12] == UidField(text, euid) && all[12..16] == Word(session) && all[16..20] == Word(ToInt32(sent))
  {
    UidTextLength(euid);
    var name := Ascii(UidText(euid)) + [0];
    var counter := Word(ToInt32(sent));
    var named := Overwrite(text, 0, name);
    var started := Overwrite(named, UID_CHARS, Word(session));
    assert text[..0] + name == name;
    OverwriteKeeps(named, 12, Word(session), 0, 12);
    OverwriteKeeps(started, 16, counter, 0, 12);
    OverwriteShows(named, 12, Word(session));
    OverwriteKeeps(started, 16, counter, 12, 16);
    OverwriteShows(started, 16, counter);
  }

  lemma FirstForty(all: seq<byte>)
    requires |all| > 40
    ensures
      var p := all[..40 % |all|];
      |p| == 40 && Slice(p, 0, 12) == all[0..12] && Slice(p, 12, 16) == all[12..16] && Slice(p, 16, 20) == all[16..20]
  {
  }

  /**
   On the air: the 4-digit and 8-digit halves of the EUID in upper-case hexadecimal, and if they leave
   room a NUL and the text below; then the session, the counter and the text up to forty bytes.
   */
  lemma TextLayout(text: seq<byte>, euid: nat, session: int32, sent: nat)
    requires |text| > 40 && euid < 0x1_0000_0000_0000
    ensures
      var p, uid := TextPayload(text, euid, session, sent), Hex4(euid / 0x1_0000_0000) + Hex4(euid % 0x1_0000_0000);
      && |p| == 40 && |uid| <= 12
      && (forall i :: 0 <= i < |uid| ==> p[i] == uid[i] as int)
      && (|uid| < 12 ==> p[|uid|] == 0 && p[|uid| + 1..12] == text[|uid| + 1..12])
      && p[12..16] == Word(session) && p[16..20] == Word(ToInt32(sent)) && p[20..] == text[20..40]
  {
    UidTextLength(euid);
    TextSlices(text, euid, session, sent);
    TextTail(text, euid, session, sent);
    FirstForty(TextBuffer(text, euid, session, sent));
    FieldLayout(text, euid);
    var p, field, n := TextPayload(text, euid, session, sent), UidField(text, euid), |UidText(euid)|;
    assert p[0..12] == field;
    assert forall i :: 0 <= i < 12 ==> p[i] == field[i];
    if n < 12 { assert p[n + 1..12] == field[n + 1..12]; }
  }

  lemma FieldLayout(text: seq<byte>, euid: nat)
    requires |text| > UDP_TRANSMISSION_BYTES && euid < 0x1_0000_0000_0000
    ensures
      var field, uid := UidField(text, euid), UidText(euid);
      && |field| == 12 && |uid| <= 12
      && (forall i :: 0 <= i < |uid| ==> field[i] == uid[i] as int)
      && (|uid| < 12 ==> field[|uid|] == 0 && field[|uid| + 1..12] == text[|uid| + 1..12])
  {
    UidTextLength(euid);
    var name, tail := Ascii(UidText(euid)), text[|UidText(euid)| + 1..];
    var all := name + [0] + tail;
    forall i | 0 <= i < |name| ensures all[i] == UidText(euid)[i] as int {
      assert UidText(euid)[i] in UidText(euid);
    }
    Middle(name, 0, tail);
    if |name| < 12 {
      assert all[..12][|name| + 1..12] == all[|name| + 1..][..11 - |name|];
      assert tail[..11 - |name|] == text[|name| + 1..12];
    }
  }

  lemma TextTail(text: seq<byte>, euid: nat, session: int32, sent: nat)
    requires |text| > UDP_TRANSMISSION_BYTES && euid < 0x1_0000_0000_0000
    ensures TextBuffer(text, euid, session, sent)[20..] == text[20..]
  {
    UidTextLength(euid);
    var name := Ascii(UidText(euid)) + [0];
    OverwriteTail(text, 0, name, 20);
    OverwriteTail(Overwrite(text, 0, name), UID_CHARS, Word(session), 20);
    OverwriteTail(StartedText(text, euid, session), UID_CHARS + 4, Word(ToInt32(sent)), 20);
  }

  lemma OverwriteTail(text: seq<byte>, at: nat, bytes: seq<byte>, from: nat)
    requires at + |bytes| <= from <= |text|
    ensures Overwrite(text, at, bytes)[from..] == text[from..]
  {
  }

  lemma Middle(a: seq<byte>, x: byte, b: seq<byte>)
    ensures (a + [x] + b)[|a|] == x && (a + [x] + b)[|a| + 1..] == b
  {
  }

  /** Decoding undoes encoding for every EUID, session and counter, if the field decodes at all. */
  lemma DecodeTextUndoesEncode(text: seq<byte>, euid: nat, session: int32, sent: nat)
    requires |text| > UDP_TRANSMISSION_BYTES && euid < 0x1_0000_0000_0000
    ensures
      ParseText(TextPayload(text, euid, session, sent)) ==
      match Utf8.Decode(UidField(text, euid))
      case Malformed => Raises
      case Text(key) => Parses(Msg(key, Wrap32(session), sent % 0x1_0000_0000, 40))
  {
    TextSlices(text, euid, session, sent);
    FirstForty(TextBuffer(text, euid, session, sent));
    WordRoundTrip(session);
    WordRoundTrip(ToInt32(sent));
    WrapOfToInt32(sent);
  }

  /** What is left of the text behind a short UID text and its NUL. */
  function Leftover(text: seq<byte>, euid: nat): seq<byte>
    requires |text| > UDP_TRANSMISSION_BYTES && euid < 0x1_0000_0000_0000
  {
    UidTextLength(euid);
    if |UidText(euid)| < UID_CHARS then text[|UidText(euid)| + 1..UID_CHARS] else []
  }

  lemma AsciiIsAscii(s: string)
    ensures Utf8.IsAscii(Ascii(s))
  {
  }

  /** The field decodes exactly when the leftover does; an ASCII text, as compiled in, gives the field itself. */
  lemma UidFieldDecodesIff(text: seq<byte>, euid: nat)
    requires |text| > UDP_TRANSMISSION_BYTES && euid < 0x1_0000_0000_0000
    ensures Utf8.Decode(UidField(text, euid)).Text? <==> Utf8.Decode(Leftover(text, euid)).Text?
    ensures Utf8.IsAscii(text) ==> Utf8.Decode(UidField(text, euid)) == Utf8.Text(UidField(text, euid))
  {
    UidTextLength(euid);
    var name, field := Ascii(UidText(euid)), UidField(text, euid);
    AsciiIsAscii(UidText(euid));
    if |name| < UID_CHARS {
      assert field == (name + [0]) + Leftover(text, euid);
      Utf8.AsciiPrefix(name + [0], Leftover(text, euid));
    } else {
      assert field == name + [];
      Utf8.AsciiPrefix(name, []);
    }
    if Utf8.IsAscii(text) {
      assert Utf8.IsAscii(field);
      Utf8.AsciiPrefix(field, []);
      assert field + [] == field;
    }
  }

  /** Where the UID text of a field ends. */
  function TextEnd(field: seq<byte>): (n: nat)
    ensures n <= |field|
    ensures n < |field| ==> field[n] == 0
    ensures forall i :: 0 <= i < n ==> field[i] != 0
  {
    if field == [] || field[0] == 0 then 0 else 1 + TextEnd(field[1..])
  }

  lemma {:induction false} TextEndAt(field: seq<byte>, n: nat)
    requires n <= |field| && (n < |field| ==> field[n] == 0)
    requires forall i :: 0 <= i < n ==> field[i] != 0
    ensures TextEnd(field) == n
  {
  }

  lemma AsciiInjective(s: string, t: string)
    requires forall c :: c in s ==> IsDigit(c)
    requires forall c :: c in t ==> IsDigit(c)
    requires Ascii(s) == Ascii(t)
    ensures s == t
  {
    forall i | 0 <= i < |s| ensures s[i] == t[i] {
      assert CharByte(s[i]) == Ascii(s)[i] == Ascii(t)[i] == CharByte(t[i]);
      assert s[i] in s && t[i] in t;
    }
  }

  lemma FieldShowsText(text: seq<byte>, euid: nat)
    requires |text| > UDP_TRANSMISSION_BYTES && euid < 0x1_0000_0000_0000
    ensures
      var field := UidField(text, euid);
      |field| == 12 && field[..TextEnd(field)] == Ascii(UidText(euid))
  {
    UidTextLength(euid);
    var field, name := UidField(text, euid), Ascii(UidText(euid));
    assert field[..|name|] == name;
    forall i | 0 <= i < |name| ensures field[i] != 0 {
      assert field[i] == name[i] == CharByte(UidText(euid)[i]) && UidText(euid)[i] in UidText(euid);
    }
    TextEndAt(field, |name|);
  }

  lemma TextShowsEuid(a: nat, b: nat)
    requires a < 0x1_0000_0000_0000 && b < 0x1_0000_0000_0000 && UidText(a) == UidText(b)
    ensures a == b
  {
    UidTextLength(a);
    UidTextLength(b);
    var high := 0x1_0000_0000;
    assert UidText(a)[..4] == Hex4(a / high) && UidText(b)[..4] == Hex4(b / high);
    assert UidText(a)[4..] == Hex4(a % high) && UidText(b)[4..] == Hex4(b % high);
    Hex4RoundTrip(a / high);
    Hex4RoundTrip(b / high);
    Hex4RoundTrip(a % high);
    Hex4RoundTrip(b % high);
  }

  /** Two nodes never share an entry of the other script's stats_dic either. */
  lemma TextKeysAreInjective(a: nat, b: nat, textA: seq<byte>, textB: seq<byte>)
    requires |textA| > UDP_TRANSMISSION_BYTES && a < 0x1_0000_0000_0000
    requires |textB| > UDP_TRANSMISSION_BYTES && b < 0x1_0000_0000_0000
    requires Utf8.Decode(UidField(textA, a)).Text?
    requires Utf8.Decode(UidField(textA, a)) == Utf8.Decode(UidField(textB, b))
    ensures a == b
  {
    Utf8.DecodeIsInjective(UidField(textA, a), UidField(textB, b));
    UidFieldIsInjective(a, b, textA, textB);
  }

  /** The UID field tells EUIDs apart even where the text is shorter than 12 characters, whatever lies behind it. */
  lemma UidFieldIsInjective(a: nat, b: nat, textA: seq<byte>, textB: seq<byte>)
    requires |textA| > UDP_TRANSMISSION_BYTES && a < 0x1_0000_0000_0000
    requires |textB| > UDP_TRANSMISSION_BYTES && b < 0x1_0000_0000_0000
    requires UidField(textA, a) == UidField(textB, b)
    ensures a == b
  {
    FieldShowsText(textA, a);
    FieldShowsText(textB, b);
    AsciiInjective(UidText(a), UidText(b));
    TextShowsEuid(a, b);
  }
}
