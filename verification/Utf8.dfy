/**
 Strict decoding of UTF-8: the byte sequences of section 4 of RFC 3629 and the code points they stand for.
 Anything else raises a UnicodeDecodeError.
 */
module Utf8 {
  import opened Machine

  datatype Decoding = Malformed | Text(points: seq<nat>)

  predicate IsTail(b: seq<byte>, k: nat) {
    k < |b| && 0x80 <= b[k] < 0xC0
  }

  /** How many bytes the first character takes; 0 if there is none. */
  function Width(b: seq<byte>): (w: nat)
    ensures w <= |b| && w <= 4
  {
    if b == [] then 0
    else
      var h := b[0];
      if h < 0x80 then 1
      else if 0xC2 <= h < 0xE0 && IsTail(b, 1) then 2
      else if && 0xE0 <= h < 0xF0 && IsTail(b, 1) && IsTail(b, 2)
              && (h == 0xE0 ==> b[1] >= 0xA0) && (h == 0xED ==> b[1] < 0xA0) then 3
      else if && 0xF0 <= h < 0xF5 && IsTail(b, 1) && IsTail(b, 2) && IsTail(b, 3)
              && (h == 0xF0 ==> b[1] >= 0x90) && (h == 0xF4 ==> b[1] < 0x90) then 4
      else 0
  }

  /** The first character. */
  function Point(b: seq<byte>): nat
    requires Width(b) > 0
  {
    match Width(b)
    case 1 => b[0]
    case 2 => (b[0] as int - 0xC0) * 0x40 + (b[1] as int - 0x80)
    case 3 => (b[0] as int - 0xE0) * 0x1000 + (b[1] as int - 0x80) * 0x40 + (b[2] as int - 0x80)
    case _ =>
      (b[0] as int - 0xF0) * 0x4_0000 + (b[1] as int - 0x80) * 0x1000
      + (b[2] as int - 0x80) * 0x40 + (b[3] as int - 0x80)
  }

  function Decode(b: seq<byte>): Decoding {
    if b == [] then Text([])
    else if Width(b) == 0 then Malformed
    else
      match Decode(b[Width(b)..])
      case Malformed => Malformed
      case Text(points) => Text([Point(b)] + points)
  }

  function EncodePoint(p: nat): seq<nat> {
    if p < 0x80 then [p]
    else if p < 0x800 then [0xC0 + p / 0x40, 0x80 + p % 0x40]
    else if p < 0x1_0000 then [0xE0 + p / 0x1000, 0x80 + p / 0x40 % 0x40, 0x80 + p % 0x40]
    else [0xF0 + p / 0x4_0000, 0x80 + p / 0x1000 % 0x40, 0x80 + p / 0x40 % 0x40, 0x80 + p % 0x40]
  }

  function Encode(points: seq<nat>): seq<nat> {
    if points == [] then [] else EncodePoint(points[0]) + Encode(points[1..])
  }

  /** Base 64 digits. */
  lemma Digits(a: nat, b: nat, c: nat, d: nat)
    requires b < 0x40 && c < 0x40 && d < 0x40
    ensures
      var p := a * 0x4_0000 + b * 0x1000 + c * 0x40 + d;
      p / 0x4_0000 == a && p / 0x1000 == a * 0x40 + b && p / 0x1000 % 0x40 == b
      && p / 0x40 % 0x40 == c && p % 0x40 == d
  {
  }

  lemma PointRoundTrip(b: seq<byte>)
    requires Width(b) > 0
    ensures EncodePoint(Point(b)) == b[..Width(b)]
  {
    match Width(b) {
      case 1 =>
      case 2 => Digits(0, 0, b[0] - 0xC0, b[1] - 0x80);
      case 3 => Digits(0, b[0] - 0xE0, b[1] - 0x80, b[2] - 0x80);
      case _ => Digits(b[0] - 0xF0, b[1] - 0x80, b[2] - 0x80, b[3] - 0x80);
    }
  }

  lemma DecodeStep(b: seq<byte>)
    requires b != [] && Decode(b).Text?
    ensures Width(b) > 0 && Decode(b[Width(b)..]).Text?
    ensures Decode(b).points == [Point(b)] + Decode(b[Width(b)..]).points
  {
  }

  lemma EncodeStep(p: nat, points: seq<nat>)
    ensures Encode([p] + points) == EncodePoint(p) + Encode(points)
  {
    assert ([p] + points)[1..] == points;
  }

  /** Encoding undoes decoding, so that no two byte sequences decode to the same text. */
  lemma {:induction false} RoundTrip(b: seq<byte>)
    requires Decode(b).Text?
    ensures Encode(Decode(b).points) == b
    decreases |b|
  {
    if b != [] {
      DecodeStep(b);
      var rest := b[Width(b)..];
      RoundTrip(rest);
      FirstRoundTrip(b, Decode(rest).points);
    }
  }

  lemma FirstRoundTrip(b: seq<byte>, rest: seq<nat>)
    requires Width(b) > 0 && Encode(rest) == b[Width(b)..]
    ensures Encode([Point(b)] + rest) == b
  {
    EncodeStep(Point(b), rest);
    PointRoundTrip(b);
    assert b == b[..Width(b)] + b[Width(b)..];
  }

  lemma DecodeIsInjective(a: seq<byte>, b: seq<byte>)
    requires Decode(a).Text? && Decode(a) == Decode(b)
    ensures a == b
  {
    RoundTrip(a);
    RoundTrip(b);
  }

  predicate IsAscii(b: seq<byte>) {
    forall i :: 0 <= i < |b| ==> b[i] < 0x80
  }

  function Cons(p: nat, d: Decoding): Decoding {
    if d.Text? then Text([p] + d.points) else Malformed
  }

  lemma DecodeAscii(h: byte, b: seq<byte>)
    requires h < 0x80
    ensures Decode([h] + b) == Cons(h, Decode(b))
  {
    assert ([h] + b)[1..] == b;
  }

  lemma ConsOnto(p: nat, a: seq<nat>, d: Decoding)
    ensures Cons(p, if d.Text? then Text(a + d.points) else Malformed)
         == if d.Text? then Text([p] + a + d.points) else Malformed
  {
    if d.Text? { assert [p] + (a + d.points) == [p] + a + d.points; }
  }

  /** ASCII stands for itself, whatever follows. */
  lemma {:induction false} AsciiPrefix(a: seq<byte>, b: seq<byte>)
    requires IsAscii(a)
    ensures Decode(a + b) == if Decode(b).Text? then Text(a + Decode(b).points) else Malformed
    decreases |a|
  {
    if a == [] {
      assert a + b == b;
    } else {
      var rest := a[1..];
      AsciiPrefix(rest, b);
      DecodeAscii(a[0], rest + b);
      ConsOnto(a[0], rest, Decode(b));
      assert a + b == [a[0]] + (rest + b) && a == [a[0]] + rest;
    }
  }

  // ---------- Every text has an encoding that decodes ----------

  /** A Unicode scalar value: a code point that is not a surrogate. */
  predicate IsScalar(p: nat) {
    p < 0xD800 || 0xE000 <= p < 0x11_0000
  }

  predicate AllScalar(points: seq<nat>) {
    forall i :: 0 <= i < |points| ==> IsScalar(points[i])
  }

  lemma EncodePointBytes(p: nat)
    requires IsScalar(p)
    ensures forall i :: 0 <= i < |EncodePoint(p)| ==> EncodePoint(p)[i] < 256
  {
  }

  lemma {:induction false} EncodeBytes(points: seq<nat>)
    requires AllScalar(points)
    ensures forall i :: 0 <= i < |Encode(points)| ==> Encode(points)[i] < 256
    decreases |points|
  {
    if points != [] {
      EncodePointBytes(points[0]);
      EncodeBytes(points[1..]);
    }
  }

  /** The bytes of a text. */
  function Bytes(points: seq<nat>): seq<byte>
    requires AllScalar(points)
  {
    EncodeBytes(points);
    Encode(points)
  }

  /** A number in base 64. */
  lemma Base64(p: nat)
    ensures
      var a, b, c, d := p / 0x4_0000, p / 0x1000 % 0x40, p / 0x40 % 0x40, p % 0x40;
      && p == a * 0x4_0000 + b * 0x1000 + c * 0x40 + d
      && p / 0x40 == a * 0x1000 + b * 0x40 + c && p / 0x1000 == a * 0x40 + b
  {
    var q, r, t := p / 0x40, p / 0x1000, p / 0x4_0000;
    assert p == q * 0x40 + p % 0x40;
    assert r == q / 0x40 && q == r * 0x40 + q % 0x40;
    assert t == r / 0x40 && r == t * 0x40 + r % 0x40;
  }

  lemma TwoBytes(b: seq<byte>, c: nat, d: nat)
    requires |b| >= 2 && b[0] == 0xC0 + c && b[1] == 0x80 + d && 2 <= c < 0x20 && d < 0x40
    ensures Width(b) == 2 && Point(b) == c * 0x40 + d
  {
  }

  lemma ThreeBytes(b: seq<byte>, u: nat, c: nat, d: nat)
    requires |b| >= 3 && b[0] == 0xE0 + u && b[1] == 0x80 + c && b[2] == 0x80 + d
    requires u < 0x10 && c < 0x40 && d < 0x40 && (u == 0 ==> c >= 0x20) && (u == 0xD ==> c < 0x20)
    ensures Width(b) == 3 && Point(b) == u * 0x1000 + c * 0x40 + d
  {
  }

  lemma FourBytes(b: seq<byte>, t: nat, u: nat, c: nat, d: nat)
    requires |b| >= 4 && b[0] == 0xF0 + t && b[1] == 0x80 + u && b[2] == 0x80 + c && b[3] == 0x80 + d
    requires t < 5 && u < 0x40 && c < 0x40 && d < 0x40 && (t == 0 ==> u >= 0x10) && (t == 4 ==> u < 0x10)
    ensures Width(b) == 4 && Point(b) == t * 0x4_0000 + u * 0x1000 + c * 0x40 + d
  {
  }

  lemma PointDecodes(p: nat, b: seq<byte>, rest: seq<byte>)
    requires IsScalar(p) && b == EncodePoint(p)
    ensures Width(b + rest) == |b| > 0 && Point(b + rest) == p
  {
    var all := b + rest;
    assert forall i :: 0 <= i < |b| ==> all[i] == b[i];
    Base64(p);
    if p < 0x80 {
    } else if p < 0x800 {
      TwoBytes(all, p / 0x40, p % 0x40);
    } else if p < 0x1_0000 {
      ThreeBytes(all, p / 0x1000, p / 0x40 % 0x40, p % 0x40);
    } else {
      FourBytes(all, p / 0x4_0000, p / 0x1000 % 0x40, p / 0x40 % 0x40, p % 0x40);
    }
  }

  lemma DecodeFirst(p: nat, b: seq<byte>, rest: seq<byte>)
    requires IsScalar(p) && b == EncodePoint(p)
    ensures Decode(b + rest) == Cons(p, Decode(rest))
  {
    PointDecodes(p, b, rest);
    assert (b + rest)[|b|..] == rest;
  }

  /** Decoding undoes encoding, for every sequence of scalar values. */
  lemma {:induction false} DecodeUndoesEncode(points: seq<nat>)
    requires AllScalar(points)
    ensures Decode(Bytes(points)) == Text(points)
    decreases |points|
  {
    if points != [] {
      DecodeUndoesEncode(points[1..]);
      EncodePointBytes(points[0]);
      var b: seq<byte> := EncodePoint(points[0]);
      DecodeFirst(points[0], b, Bytes(points[1..]));
      assert points == [points[0]] + points[1..];
    }
  }

  lemma PointIsScalar(b: seq<byte>)
    requires Width(b) > 0
    ensures IsScalar(Point(b))
  {
  }

  lemma {:induction false} DecodesToScalars(b: seq<byte>)
    requires Decode(b).Text?
    ensures AllScalar(Decode(b).points)
    decreases |b|
  {
    if b != [] {
      DecodeStep(b);
      PointIsScalar(b);
      DecodesToScalars(b[Width(b)..]);
    }
  }

  /** So exactly the encodings of texts decode. */
  lemma DecodesIffEncoding(b: seq<byte>)
    ensures Decode(b).Text? <==> exists points :: AllScalar(points) && Encode(points) == b
  {
    if Decode(b).Text? {
      RoundTrip(b);
      DecodesToScalars(b);
    }
    if points :| AllScalar(points) && Encode(points) == b {
      DecodeUndoesEncode(points);
    }
  }

  /** One character of each width. */
  lemma Examples()
    ensures Encode([0x41, 0xE9]) == [0x41, 0xC3, 0xA9]
    ensures Encode([0x20AC]) == [0xE2, 0x82, 0xAC]
    ensures Encode([0x1_F600]) == [0xF0, 0x9F, 0x98, 0x80]
  {
    assert [0x41, 0xE9][1..] == [0xE9] && [0xE9][1..] == [];
    assert [0x20AC][1..] == [] && [0x1_F600][1..] == [];
  }
}
