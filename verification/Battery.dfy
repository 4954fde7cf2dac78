/** Battery measurement of battery.c: divider scaling and the walk along a discharge curve. */
module Battery {
  import opened Machine

  type uint16 = x: int | 0 <= x < 0x1_0000

  /** A point of a discharge curve: remaining life in parts per ten thousand at a voltage. */
  datatype Point = Point(pptt: uint16, mV: uint16)

  /** The contract of battery.h: from 10000 down to the sentinel 0, both columns decreasing. */
  ghost predicate ValidCurve(c: seq<Point>) {
    && |c| > 0
    && c[0].pptt == 10000
    && c[|c| - 1].pptt == 0
    && Decreasing(c)
  }

  ghost predicate Decreasing(c: seq<Point>) {
    forall i, j :: 0 <= i <= j < |c| ==> c[i].pptt >= c[j].pptt && c[i].mV >= c[j].mV
  }

  // ---------- The exact value ----------

  /** The straight line through b and a. */
  ghost function Line(a: Point, b: Point, v: real): real
    requires a.mV > b.mV
  {
    b.pptt as real + (a.pptt - b.pptt) as real * ((v - b.mV as real) / (a.mV - b.mV) as real)
  }

  /** The piecewise linear curve through the points, constant beyond both ends. */
  ghost function Exact(c: seq<Point>, v: real): real
    requires |c| > 0
  {
    if v >= c[0].mV as real || |c| == 1 then c[0].pptt as real
    else if v >= c[1].mV as real then Line(c[0], c[1], v)
    else Exact(c[1..], v)
  }

  lemma LineBounds(a: Point, b: Point, v: real)
    requires a.mV > b.mV && a.pptt >= b.pptt && b.mV as real <= v <= a.mV as real
    ensures b.pptt as real <= Line(a, b, v) <= a.pptt as real
  {
    var t := (v - b.mV as real) / (a.mV - b.mV) as real;
    assert 0.0 <= t <= 1.0;
    var h := (a.pptt - b.pptt) as real;
    assert 0.0 <= h * t <= h;
  }

  lemma LineMonotone(a: Point, b: Point, v: real, w: real)
    requires a.mV > b.mV && a.pptt >= b.pptt && v <= w
    ensures Line(a, b, v) <= Line(a, b, w)
  {
    var d := (a.mV - b.mV) as real;
    var h := (a.pptt - b.pptt) as real;
    var t, u := (v - b.mV as real) / d, (w - b.mV as real) / d;
    assert t <= u;
    assert h * t <= h * u;
  }

  lemma {:induction false} ExactBounds(c: seq<Point>, v: real)
    requires |c| > 0 && Decreasing(c)
    ensures c[|c| - 1].pptt as real <= Exact(c, v) <= c[0].pptt as real
    decreases |c|
  {
    if v >= c[0].mV as real || |c| == 1 {
    } else if v >= c[1].mV as real {
      LineBounds(c[0], c[1], v);
    } else {
      ExactBounds(c[1..], v);
    }
  }

  /** Across segment boundaries and both caps. */
  lemma {:induction false} ExactMonotone(c: seq<Point>, v: real, w: real)
    requires |c| > 0 && Decreasing(c) && v <= w
    ensures Exact(c, v) <= Exact(c, w)
    decreases |c|
  {
    if v >= c[0].mV as real || |c| == 1 {
    } else if w >= c[0].mV as real {
      ExactBounds(c, v);
    } else if v >= c[1].mV as real {
      LineMonotone(c[0], c[1], v, w);
    } else if w >= c[1].mV as real {
      ExactBounds(c[1..], v);
      LineBounds(c[0], c[1], w);
    } else {
      ExactMonotone(c[1..], v, w);
    }
  }

  /** On the segment from point k + 1 up to point k the curve is their line. */
  lemma {:induction false} ExactOnSegment(c: seq<Point>, k: nat, v: real)
    requires Decreasing(c) && k + 1 < |c|
    requires c[k + 1].mV as real <= v < c[k].mV as real
    ensures Exact(c, v) == Line(c[k], c[k + 1], v)
    decreases |c|
  {
    if k > 0 {
      assert c[0].mV >= c[1].mV >= c[k].mV;
      ExactOnSegment(c[1..], k - 1, v);
    }
  }

  /** The curve goes through every point, or through the first of several at one voltage. */
  lemma {:induction false} ExactAtPoints(c: seq<Point>, j: nat)
    requires |c| > 0 && Decreasing(c) && j < |c|
    requires j > 0 ==> c[j - 1].mV > c[j].mV
    ensures Exact(c, c[j].mV as real) == c[j].pptt as real
  {
    if j > 0 {
      ExactOnSegment(c, j - 1, c[j].mV as real);
    }
  }

  // ---------- From reals to unsigned int ----------

  lemma FloorOfQuotient(base: nat, n: nat, d: nat)
    requires d > 0
    ensures (base as real + n as real / d as real).Floor == base + n / d
  {
    var q, r := n / d, n % d;
    assert n == q * d + r;
    assert n as real == q as real * d as real + r as real;
    assert n as real / d as real == q as real + r as real / d as real;
    assert 0.0 <= r as real / d as real < 1.0;
  }

  lemma SegmentFloor(a: Point, b: Point, v: nat)
    requires a.mV > b.mV && a.pptt >= b.pptt && b.mV <= v < a.mV
    ensures Line(a, b, v as real).Floor == b.pptt + (a.pptt - b.pptt) * (v - b.mV) / (a.mV - b.mV)
  {
    var h, x, d := a.pptt - b.pptt, v - b.mV, a.mV - b.mV;
    assert (h * x) as real == h as real * x as real;
    assert h as real * (x as real / d as real) == (h * x) as real / d as real;
    FloorOfQuotient(b.pptt, h * x, d);
  }

  lemma MulMonotone(x: nat, y: nat, z: nat)
    requires x <= y
    ensures 0 <= x * z <= y * z
  {
    assert y * z == x * z + (y - x) * z;
  }

  lemma NoOverflow(a: Point, b: Point, v: nat)
    requires a.mV > b.mV && a.pptt >= b.pptt && b.mV <= v < a.mV
    ensures 0 <= (a.pptt - b.pptt) * (v - b.mV) < 0x1_0000_0000
    ensures 0 <= (a.pptt - b.pptt) * (v - b.mV) / (a.mV - b.mV) <= a.pptt - b.pptt
  {
    var h, x, d := a.pptt - b.pptt, v - b.mV, a.mV - b.mV;
    MulMonotone(x, d, h);
    MulMonotone(h, 0xFFFF, d);
    QuotientBound(h * x, h, d);
  }

  lemma CancelMul(x: nat, y: nat, z: nat)
    ensures x * z < y * z ==> x < y
  {
    if x >= y { MulMonotone(y, x, z); }
  }

  lemma Quotient(n: nat, d: nat) returns (q: nat)
    requires d > 0
    ensures q == n / d && q * d <= n < q * d + d
  {
    q := n / d;
    assert n == q * d + n % d;
  }

  lemma QuotientBound(n: nat, h: nat, d: nat)
    requires d > 0 && n <= h * d
    ensures n / d <= h
  {
    var q := Quotient(n, d);
    assert (h + 1) * d == h * d + d;
    CancelMul(q, h + 1, d);
  }

  /** The interpolation of battery_level_pptt, in unsigned int: every operation wraps to 32 bits. */
  function Interpolate(a: Point, b: Point, battmV: uint32): uint32
    requires Wrap32(a.mV - b.mV) != 0
  {
    Wrap32(b.pptt + Wrap32(Wrap32(a.pptt - b.pptt) * Wrap32(battmV - b.mV)) / Wrap32(a.mV - b.mV))
  }

  /** Nothing wraps, and what is lost is only the fraction. */
  lemma InterpolateIsFloor(a: Point, b: Point, battmV: uint32)
    requires a.mV > b.mV && a.pptt >= b.pptt && b.mV <= battmV < a.mV
    ensures Interpolate(a, b, battmV) == Line(a, b, battmV as real).Floor
  {
    NoOverflow(a, b, battmV);
    SegmentFloor(a, b, battmV);
    var h, x, d := a.pptt - b.pptt, battmV - b.mV, a.mV - b.mV;
    assert Wrap32(h) == h && Wrap32(x) == x && Wrap32(d) == d;
    var product := h * x;
    assert Wrap32(product) == product;
    assert Wrap32(b.pptt + product / d) == b.pptt + product / d;
  }

  lemma {:induction false} ZeroBelow(c: seq<Point>, k: nat, v: real)
    requires Decreasing(c) && k < |c| && c[k].pptt == 0 && v < c[k].mV as real
    ensures Exact(c, v) == 0.0
  {
    if k == 0 {
      ExactBounds(c, v);
    } else {
      assert c[0].mV >= c[1].mV >= c[k].mV;
      ZeroBelow(c[1..], k - 1, v);
    }
  }

  /**
   battery_level_pptt: the loop walks the pointer pb down the curve.  For every curve that keeps the
   contract of battery.h it stays on the curve and returns the floor of the exact value.
   */
  method BatteryLevelPptt(battmV: uint32, curve: seq<Point>) returns (level: uint32)
    requires ValidCurve(curve)
    ensures level == Exact(curve, battmV as real).Floor
  {
    if battmV >= curve[0].mV {
      return curve[0].pptt;
    }
    var pb := 0;
    while curve[pb].pptt > 0 && battmV < curve[pb].mV
      invariant 0 <= pb < |curve|
      invariant forall k :: 0 <= k < pb ==> battmV < curve[k].mV
      decreases |curve| - pb
    {
      pb := pb + 1;
    }
    if battmV < curve[pb].mV {
      ZeroBelow(curve, pb, battmV as real);
      return curve[pb].pptt;
    }
    var pa := pb - 1;
    ExactOnSegment(curve, pa, battmV as real);
    InterpolateIsFloor(curve[pa], curve[pb], battmV);
    return Interpolate(curve[pa], curve[pb], battmV);
  }

  // ---------- Main results about the estimate ----------

  /** What battery_level_pptt returns. */
  ghost function Level(curve: seq<Point>, battmV: nat): int
    requires ValidCurve(curve)
  {
    Exact(curve, battmV as real).Floor
  }

  lemma LevelMonotone(curve: seq<Point>, v: nat, w: nat)
    requires ValidCurve(curve) && v <= w
    ensures 0 <= Level(curve, v) <= Level(curve, w) <= 10000
  {
    ExactMonotone(curve, v as real, w as real);
    ExactBounds(curve, v as real);
    ExactBounds(curve, w as real);
  }

  lemma QuotientIsLargest(n: nat, d: nat) returns (q: nat)
    requires d > 0
    ensures q == n / d && q * d <= n < (q + 1) * d
  {
    q := Quotient(n, d);
    assert (q + 1) * d == q * d + d;
  }

  lemma LevelIsQuotient(curve: seq<Point>, k: nat, v: nat, n: nat)
    requires ValidCurve(curve) && k + 1 < |curve|
    requires curve[k + 1].mV <= v < curve[k].mV
    requires n == (curve[k].pptt - curve[k + 1].pptt) * (v - curve[k + 1].mV)
    ensures Level(curve, v) == curve[k + 1].pptt + n / (curve[k].mV - curve[k + 1].mV)
  {
    ExactOnSegment(curve, k, v as real);
    SegmentFloor(curve[k], curve[k + 1], v);
  }

  /** Between two points, in integers: the largest level that does not lie above their straight line. */
  lemma LevelOnSegment(curve: seq<Point>, k: nat, v: nat)
    requires ValidCurve(curve) && k + 1 < |curve|
    requires curve[k + 1].mV <= v < curve[k].mV
    ensures
      var a, b, up := curve[k], curve[k + 1], Level(curve, v) - curve[k + 1].pptt;
      up * (a.mV - b.mV) <= (a.pptt - b.pptt) * (v - b.mV) < (up + 1) * (a.mV - b.mV)
  {
    var h, x, d := curve[k].pptt - curve[k + 1].pptt, v - curve[k + 1].mV, curve[k].mV - curve[k + 1].mV;
    MulMonotone(0, h, x);
    var n: nat := h * x;
    LevelIsQuotient(curve, k, v, n);
    var q := QuotientIsLargest(n, d);
  }

  /** Exact at the points of the curve; capped above the first and below the last. */
  lemma LevelAtPoints(curve: seq<Point>, j: nat)
    requires ValidCurve(curve) && j < |curve|
    requires j > 0 ==> curve[j - 1].mV > curve[j].mV
    ensures Level(curve, curve[j].mV) == curve[j].pptt
  {
    ExactAtPoints(curve, j);
  }

  lemma LevelCaps(curve: seq<Point>, v: nat)
    requires ValidCurve(curve)
    ensures v >= curve[0].mV ==> Level(curve, v) == 10000
    ensures |curve| > 1 && v < curve[|curve| - 1].mV ==> Level(curve, v) == 0
  {
    if |curve| > 1 && v < curve[|curve| - 1].mV { ZeroBelow(curve, |curve| - 1, v as real); }
  }

  // ---------- Sampling ----------

  const ENOENT := 2

  /** The divider: uint64_t product and quotient, truncated to int. */
  function Scaled(val: int32, fullOhm: uint32, outputOhm: uint32): int32 {
    if outputOhm != 0
    then ToInt32(val % 0x1_0000_0000_0000_0000 * fullOhm % 0x1_0000_0000_0000_0000 / outputOhm)
    else val
  }

  /** The battery voltage that divides down to val. */
  function BatteryVoltage(val: nat, fullOhm: uint32, outputOhm: uint32): int
    requires outputOhm != 0
  {
    val * fullOhm / outputOhm
  }

  lemma ScaledBeforeTruncation(val: int32, fullOhm: uint32, outputOhm: uint32)
    requires val >= 0 && outputOhm != 0
    ensures Scaled(val, fullOhm, outputOhm) == ToInt32(BatteryVoltage(val, fullOhm, outputOhm))
  {
    MulMonotone(val, 0x8000_0000, fullOhm);
    var product := val * fullOhm;
    assert product % 0x1_0000_0000_0000_0000 == product;
  }

  lemma ToInt32Exact(x: nat)
    ensures ToInt32(x) == x <==> x < 0x8000_0000
  {
  }

  /** Without a divider the sampled voltage is the reading. */
  lemma NoDivider(val: int32, fullOhm: uint32)
    ensures Scaled(val, fullOhm, 0) == val
  {
  }

  /** The sampled voltage is the battery voltage exactly when that fits an int. */
  lemma ScaledIsExactIff(val: int32, fullOhm: uint32, outputOhm: uint32)
    requires val >= 0 && outputOhm != 0
    ensures Scaled(val, fullOhm, outputOhm) == BatteryVoltage(val, fullOhm, outputOhm)
            <==> BatteryVoltage(val, fullOhm, outputOhm) < 0x8000_0000
    ensures BatteryVoltage(val, fullOhm, outputOhm) == val * fullOhm / outputOhm
  {
    ScaledBeforeTruncation(val, fullOhm, outputOhm);
    VoltageMonotone(0, val, fullOhm, outputOhm);
    ToInt32Exact(BatteryVoltage(val, fullOhm, outputOhm));
  }

  /** A divider and a reading for which it does not fit: the voltage comes out negative. */
  lemma ScaledCanWrap()
    ensures Scaled(1, 0x8000_0000, 1) == -0x8000_0000
  {
    ScaledBeforeTruncation(1, 0x8000_0000, 1);
  }

  lemma VoltageMonotone(v: nat, w: nat, fullOhm: uint32, outputOhm: uint32)
    requires v <= w && outputOhm != 0
    ensures 0 <= BatteryVoltage(v, fullOhm, outputOhm) <= BatteryVoltage(w, fullOhm, outputOhm)
  {
    MulMonotone(v, w, fullOhm);
    QuotientMonotone(v * fullOhm, w * fullOhm, outputOhm);
  }

  lemma QuotientMonotone(m: nat, n: nat, d: nat)
    requires d > 0 && m <= n
    ensures 0 <= m / d <= n / d
  {
    var p := Quotient(m, d);
    var q := Quotient(n, d);
    assert (q + 1) * d == q * d + d;
    CancelMul(p, q + 1, d);
  }

  lemma QuotientOfSum(m: nat, n: nat, d: nat)
    requires d > 0
    ensures (m + n) / d <= m / d + n / d + 1
  {
    var p := Quotient(m, d);
    var q := Quotient(n, d);
    var r := Quotient(m + n, d);
    SumOfRanges(m, n, d, p, q, r);
  }

  lemma SumOfRanges(m: nat, n: nat, d: nat, p: nat, q: nat, r: nat)
    requires m < p * d + d && n < q * d + d && r * d <= m + n
    ensures r <= p + q + 1
  {
    assert (p + q + 2) * d == p * d + q * d + 2 * d;
    CancelMul(r, p + q + 2, d);
  }

  /** One reading higher adds at most fullOhm / outputOhm, rounded up. */
  lemma VoltageStep(v: nat, fullOhm: uint32, outputOhm: uint32)
    requires outputOhm != 0
    ensures BatteryVoltage(v + 1, fullOhm, outputOhm) <= BatteryVoltage(v, fullOhm, outputOhm) + fullOhm / outputOhm + 1
  {
    assert (v + 1) * fullOhm == v * fullOhm + fullOhm;
    QuotientOfSum(v * fullOhm, fullOhm, outputOhm);
  }

  /** The lowest reading's voltage is the divider's ratio, which fits 32 bits. */
  lemma VoltageOfOne(fullOhm: uint32, outputOhm: uint32)
    requires outputOhm != 0
    ensures BatteryVoltage(1, fullOhm, outputOhm) == fullOhm / outputOhm < 0x1_0000_0000
  {
    assert 1 * fullOhm == fullOhm;
    MulMonotone(1, outputOhm, fullOhm);
    QuotientBound(fullOhm, fullOhm, outputOhm);
  }

  /** The first voltage that does not fit an int still fits 32 bits: no step is larger than 2^31. */
  lemma FirstMisfitFits(v: nat, fullOhm: uint32, outputOhm: uint32)
    requires outputOhm != 0
    requires BatteryVoltage(v, fullOhm, outputOhm) < 0x8000_0000 <= BatteryVoltage(v + 1, fullOhm, outputOhm)
    ensures BatteryVoltage(v + 1, fullOhm, outputOhm) < 0x1_0000_0000
  {
    VoltageOfOne(fullOhm, outputOhm);
    if v > 0 {
      VoltageMonotone(1, v, fullOhm, outputOhm);
      VoltageStep(v, fullOhm, outputOhm);
    }
  }

  lemma ToInt32Negative(x: nat)
    requires 0x8000_0000 <= x < 0x1_0000_0000
    ensures ToInt32(x) < 0
  {
  }

  /** So it comes out negative. */
  lemma FirstMisfit(v: nat, fullOhm: uint32, outputOhm: uint32)
    requires outputOhm != 0 && v + 1 < 0x8000_0000
    requires BatteryVoltage(v, fullOhm, outputOhm) < 0x8000_0000 <= BatteryVoltage(v + 1, fullOhm, outputOhm)
    ensures Scaled(v + 1, fullOhm, outputOhm) < 0
  {
    FirstMisfitFits(v, fullOhm, outputOhm);
    ScaledBeforeTruncation(v + 1, fullOhm, outputOhm);
    ToInt32Negative(BatteryVoltage(v + 1, fullOhm, outputOhm));
  }

  /** Some reading up to w comes out negative. */
  lemma {:induction false} SomeMisfit(w: int32, fullOhm: uint32, outputOhm: uint32) returns (x: int32)
    requires w >= 0 && outputOhm != 0 && BatteryVoltage(w, fullOhm, outputOhm) >= 0x8000_0000
    ensures 0 <= x <= w && Scaled(x, fullOhm, outputOhm) < 0
    decreases w
  {
    assert 0 * fullOhm == 0 && BatteryVoltage(0, fullOhm, outputOhm) == 0;
    if BatteryVoltage(w - 1, fullOhm, outputOhm) < 0x8000_0000 {
      FirstMisfit(w - 1, fullOhm, outputOhm);
      x := w;
    } else {
      x := SomeMisfit(w - 1, fullOhm, outputOhm);
    }
  }

  /** A higher reading never gives a lower voltage, for all readings up to w. */
  ghost predicate ScaledMonotone(w: int32, fullOhm: uint32, outputOhm: uint32) {
    forall u: int32, v: int32 :: 0 <= u <= v <= w ==> Scaled(u, fullOhm, outputOhm) <= Scaled(v, fullOhm, outputOhm)
  }

  lemma FittingIsOrdered(u: int32, v: int32, fullOhm: uint32, outputOhm: uint32)
    requires 0 <= u <= v && outputOhm != 0 && BatteryVoltage(v, fullOhm, outputOhm) < 0x8000_0000
    ensures 0 <= Scaled(u, fullOhm, outputOhm) <= Scaled(v, fullOhm, outputOhm)
  {
    VoltageMonotone(u, v, fullOhm, outputOhm);
    ScaledIsExactIff(u, fullOhm, outputOhm);
    ScaledIsExactIff(v, fullOhm, outputOhm);
  }

  /** The scaling is monotone up to a reading if and only if the voltage of that reading fits an int. */
  lemma ScaledMonotoneIff(w: int32, fullOhm: uint32, outputOhm: uint32)
    requires w >= 0 && outputOhm != 0
    ensures ScaledMonotone(w, fullOhm, outputOhm) <==> BatteryVoltage(w, fullOhm, outputOhm) < 0x8000_0000
  {
    if BatteryVoltage(w, fullOhm, outputOhm) < 0x8000_0000 {
      forall u: int32, v: int32 | 0 <= u <= v <= w
        ensures Scaled(u, fullOhm, outputOhm) <= Scaled(v, fullOhm, outputOhm)
      {
        VoltageMonotone(v, w, fullOhm, outputOhm);
        FittingIsOrdered(u, v, fullOhm, outputOhm);
      }
    } else {
      var x := SomeMisfit(w, fullOhm, outputOhm);
      FittingIsOrdered(0, 0, fullOhm, outputOhm);
      assert Scaled(0, fullOhm, outputOhm) > Scaled(x, fullOhm, outputOhm);
    }
  }

  /** From the ADC to the level, for two readings: no error, and no lower estimate for the higher reading. */
  ghost predicate EstimatesOrdered(curve: seq<Point>, u: int32, v: int32, fullOhm: uint32, outputOhm: uint32)
    requires ValidCurve(curve)
  {
    var x, y := Scaled(u, fullOhm, outputOhm), Scaled(v, fullOhm, outputOhm);
    0 <= x <= y && 0 <= Level(curve, x) <= Level(curve, y) <= 10000
  }

  /**
   From the ADC to the level: up to a reading, every voltage is a valid one and a higher reading never
   gives a lower voltage or estimate, if and only if the voltage of that reading fits an int.
   */
  lemma EstimateMonotoneIff(curve: seq<Point>, w: int32, fullOhm: uint32, outputOhm: uint32)
    requires ValidCurve(curve) && w >= 0
    ensures (forall u: int32, v: int32 :: 0 <= u <= v <= w ==> EstimatesOrdered(curve, u, v, fullOhm, outputOhm))
            <==> (outputOhm == 0 || BatteryVoltage(w, fullOhm, outputOhm) < 0x8000_0000)
  {
    if outputOhm == 0 || BatteryVoltage(w, fullOhm, outputOhm) < 0x8000_0000 {
      forall u: int32, v: int32 | 0 <= u <= v <= w ensures EstimatesOrdered(curve, u, v, fullOhm, outputOhm) {
        if outputOhm != 0 {
          VoltageMonotone(v, w, fullOhm, outputOhm);
          FittingIsOrdered(u, v, fullOhm, outputOhm);
        }
        LevelMonotone(curve, Scaled(u, fullOhm, outputOhm), Scaled(v, fullOhm, outputOhm));
      }
    } else {
      var x := SomeMisfit(w, fullOhm, outputOhm);
      assert !EstimatesOrdered(curve, x, x, fullOhm, outputOhm);
    }
  }

  /** The static state of battery.c. */
  class Monitor {
    const fullOhm: uint32
    const outputOhm: uint32
    var batteryOk: bool
    var calibrate: bool

    /** battery_setup, up to the divider: ret is the result of divider_setup. */
    constructor (fullOhm: uint32, outputOhm: uint32, ret: int)
      ensures this.fullOhm == fullOhm && this.outputOhm == outputOhm
      ensures (batteryOk <==> ret == 0) && calibrate
    {
      this.fullOhm, this.outputOhm := fullOhm, outputOhm;
      batteryOk, calibrate := ret == 0, true;
    }

    /** battery_sample: adcResult is what adc_read returns, val the reading in millivolts. */
    method Sample(adcResult: int32, val: int32) returns (rc: int32)
      modifies this`calibrate
      ensures !batteryOk ==> rc == -ENOENT && calibrate == old(calibrate)
      ensures batteryOk ==> !calibrate
      ensures batteryOk && adcResult != 0 ==> rc == adcResult
      ensures batteryOk && adcResult == 0 ==> rc == Scaled(val, fullOhm, outputOhm)
    {
      rc := -ENOENT;
      if batteryOk {
        rc := adcResult;
        calibrate := false;
        if rc == 0 {
          if outputOhm != 0 {
            rc := ToInt32(val % 0x1_0000_0000_0000_0000 * fullOhm % 0x1_0000_0000_0000_0000 / outputOhm);
          } else {
            rc := val;
          }
        }
      }
    }
  }
}
