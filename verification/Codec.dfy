/** Little-endian words and upper-case hexadecimal text, as the nodes write them and the scripts read them. */
module Codec {
  import opened Machine

  function Pow256(n: nat): (r: nat)
    ensures r > 0
  {
    if n == 0 then 1 else 256 * Pow256(n - 1)
  }

  /** The n low bytes of x in memory order. */
  function LittleEndian(x: nat, n: nat): (r: seq<byte>)
    ensures |r| == n
  {
    if n == 0 then [] else [x % 256] + LittleEndian(x / 256, n - 1)
  }

  /** int.from_bytes(b, 'little', signed=False) */
  function Unsigned(b: seq<byte>): nat {
    if b == [] then 0 else b[0] + 256 * Unsigned(b[1..])
  }

  /** int.from_bytes(b, 'little', signed=True) */
  function Signed(b: seq<byte>): int {
    if b != [] && b[|b| - 1] >= 128 then Unsigned(b) - Pow256(|b|) else Unsigned(b)
  }

  lemma {:induction false} UnsignedOfLittleEndian(x: nat, n: nat)
    requires x < Pow256(n)
    ensures Unsigned(LittleEndian(x, n)) == x
  {
    if n > 0 {
      UnsignedOfLittleEndian(x / 256, n - 1);
      assert LittleEndian(x, n)[1..] == LittleEndian(x / 256, n - 1);
    }
  }

  /** The sign bit of the last byte is the top bit of the word. */
  lemma {:induction false} TopByte(x: nat, n: nat)
    requires n > 0 && x < Pow256(n)
    ensures LittleEndian(x, n)[n - 1] >= 128 <==> 2 * x >= Pow256(n)
  {
    if n > 1 {
      var q, half := x / 256, 128 * Pow256(n - 2);
      assert Pow256(n - 1) == 2 * half && Pow256(n) == 512 * half;
      assert LittleEndian(x, n)[n - 1] == LittleEndian(q, n - 1)[n - 2];
      TopByte(q, n - 1);
      assert q >= half <==> x >= 256 * half;
    }
  }

  lemma Regroup(p: nat, u: nat)
    ensures 256 * (p * u) == 256 * p * u
  {
  }

  lemma UnsignedCons(x: byte, b: seq<byte>)
    ensures Unsigned([x] + b) == x + 256 * Unsigned(b)
  {
    assert ([x] + b)[1..] == b;
  }

  lemma {:induction false} UnsignedConcat(a: seq<byte>, b: seq<byte>)
    ensures Unsigned(a + b) == Unsigned(a) + Pow256(|a|) * Unsigned(b)
    decreases |a|
  {
    if a == [] {
      assert a + b == b;
    } else {
      var rest := a[1..];
      UnsignedConcat(rest, b);
      assert a == [a[0]] + rest && a + b == [a[0]] + (rest + b);
      UnsignedCons(a[0], rest);
      UnsignedCons(a[0], rest + b);
      Regroup(Pow256(|rest|), Unsigned(b));
    }
  }

  /** The four bytes of an int32_t. */
  function Word(w: int32): (r: seq<byte>)
    ensures |r| == 4
  {
    LittleEndian(Wrap32(w), 4)
  }

  /** Least significant byte first. */
  lemma WordBytes(w: int32)
    ensures
      var u := w % 0x1_0000_0000;
      Word(w) == [u % 256, u / 256 % 256, u / 65536 % 256, u / 16777216 % 256]
  {
    var u: nat := Wrap32(w);
    assert LittleEndian(u, 4) == [u % 256] + LittleEndian(u / 256, 3);
    assert LittleEndian(u / 256, 3) == [u / 256 % 256] + LittleEndian(u / 256 / 256, 2);
    assert LittleEndian(u / 256 / 256, 2) == [u / 256 / 256 % 256] + LittleEndian(u / 256 / 256 / 256, 1);
    assert u / 256 / 256 == u / 65536 && u / 256 / 256 / 256 == u / 16777216;
  }

  lemma Pow256Of4()
    ensures Pow256(4) == 0x1_0000_0000
  {
  }

  /** Two words next to each other. */
  lemma UnsignedOfPair(a: seq<byte>, b: seq<byte>)
    requires |a| == 4
    ensures Unsigned(a + b) == Unsigned(a) + 0x1_0000_0000 * Unsigned(b)
  {
    UnsignedConcat(a, b);
    Pow256Of4();
  }

  lemma WordRoundTrip(w: int32)
    ensures Unsigned(Word(w)) == Wrap32(w)
    ensures Signed(Word(w)) == w
  {
    Pow256Of4();
    UnsignedOfLittleEndian(Wrap32(w), 4);
    TopByte(Wrap32(w), 4);
  }

  // ---------- Hexadecimal text ----------

  function Digit(d: nat): (c: char)
    requires d < 16
  {
    "0123456789ABCDEF"[d]
  }

  function Value(c: char): nat {
    if '0' <= c <= '9' then (c - '0') as nat
    else if 'A' <= c <= 'F' then (c - 'A') as nat + 10
    else 0
  }

  predicate IsDigit(c: char) {
    '0' <= c <= '9' || 'A' <= c <= 'F'
  }

  /** %X: no leading zeros, one digit at least. */
  function Hex(n: nat): (r: string)
    ensures |r| > 0
  {
    if n < 16 then [Digit(n)] else Hex(n / 16) + [Digit(n % 16)]
  }

  function Zeros(n: nat): (r: string)
    ensures |r| == n && forall i :: 0 <= i < n ==> r[i] == '0'
  {
    seq(n, _ => '0')
  }

  /** %04X */
  function Hex4(n: nat): (r: string)
    ensures |r| >= 4
  {
    if |Hex(n)| < 4 then Zeros(4 - |Hex(n)|) + Hex(n) else Hex(n)
  }

  function Parse(s: string): nat {
    if s == [] then 0 else 16 * Parse(s[..|s| - 1]) + Value(s[|s| - 1])
  }

  lemma DigitRoundTrip(d: nat)
    requires d < 16
    ensures IsDigit(Digit(d)) && Value(Digit(d)) == d
  {
  }

  lemma {:induction false} HexRoundTrip(n: nat)
    ensures Parse(Hex(n)) == n && forall c :: c in Hex(n) ==> IsDigit(c)
  {
    DigitRoundTrip(n % 16);
    if n < 16 {
      assert Hex(n)[..0] == [];
    } else {
      HexRoundTrip(n / 16);
      assert Hex(n)[..|Hex(n)| - 1] == Hex(n / 16);
    }
  }

  lemma {:induction false} ParseZeros(k: nat, s: string)
    ensures Parse(Zeros(k) + s) == Parse(s)
    decreases k + |s|
  {
    if s == [] {
      if k > 0 {
        assert Zeros(k) + s == Zeros(k) && Zeros(k)[..k - 1] == Zeros(k - 1);
        assert Zeros(k - 1) + s == Zeros(k - 1);
        ParseZeros(k - 1, s);
      } else {
        assert Zeros(k) + s == s;
      }
    } else {
      assert (Zeros(k) + s)[..k + |s| - 1] == Zeros(k) + s[..|s| - 1];
      ParseZeros(k, s[..|s| - 1]);
    }
  }

  lemma PaddedRoundTrip(k: nat, digits: string)
    requires forall c :: c in digits ==> IsDigit(c)
    ensures Parse(Zeros(k) + digits) == Parse(digits)
    ensures forall c :: c in Zeros(k) + digits ==> IsDigit(c)
  {
    ParseZeros(k, digits);
  }

  lemma Hex4RoundTrip(n: nat)
    ensures Parse(Hex4(n)) == n && forall c :: c in Hex4(n) ==> IsDigit(c)
  {
    HexRoundTrip(n);
    if |Hex(n)| < 4 { PaddedRoundTrip(4 - |Hex(n)|, Hex(n)); }
  }

  lemma {:induction false} HexLength(n: nat, k: nat)
    requires k > 0 && n < Pow16(k)
    ensures |Hex(n)| <= k
  {
    if n >= 16 { HexLength(n / 16, k - 1); }
  }

  function Pow16(n: nat): (r: nat)
    ensures r > 0
  {
    if n == 0 then 1 else 16 * Pow16(n - 1)
  }

  /** Upper case, no prefix, padded to four digits but not cut to them. */
  lemma HexExamples()
    ensures Hex(0) == "0" && Hex(0x9F) == "9F" && Hex(0xABCDE) == "ABCDE"
    ensures Hex4(0x2A) == "002A" && Hex4(0xABCDE) == "ABCDE"
  {
    assert Hex(0xA) == "A" && Hex(0xAB) == "AB" && Hex(0xABC) == "ABC" && Hex(0xABCD) == "ABCD";
    assert Hex(0x9) == "9" && Hex(0x2) == "2" && Hex(0x2A) == "2A";
    assert Zeros(2) == "00";
  }
}
