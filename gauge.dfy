/** The gauge hook: the value/angle mapping, the "nice number" tick
    increment, tick generation, and the per-frame needle animation
    (src/hooks/useGauge.ts). Angles are degrees, values are exact reals. */
module Gauge {
  import opened Arith

  /** The range and sweep a gauge is built with. */
  datatype GaugeConfig = GaugeConfig(minValue: real, maxValue: real, startAngle: real, endAngle: real)

  /** The sweep used when a caller leaves `startAngle`/`endAngle` out. */
  const DefaultStartAngle: real := -120.0
  const DefaultEndAngle: real := 120.0

  /** One tick mark: where it is drawn and the value it labels. */
  datatype TickMark = TickMark(angle: real, value: real)

  // ---------------------------------------------------------------------------
  // Value <-> angle
  // ---------------------------------------------------------------------------

  /** `valueToAngle`: clamp the value into the range, then interpolate it
      linearly into the sweep. With `minValue == maxValue` the source divides
      zero by zero, so that configuration is excluded. */
  function ValueToAngle(c: GaugeConfig, v: real): (a: real)
    requires c.minValue != c.maxValue
    ensures c.minValue < c.maxValue ==> Between(a, c.startAngle, c.endAngle)
    ensures c.minValue < c.maxValue && v <= c.minValue ==> a == c.startAngle
    ensures c.minValue < c.maxValue && v >= c.maxValue ==> a == c.endAngle
    ensures c.maxValue < c.minValue ==> a == c.startAngle
  {
    var boundedValue := Max(c.minValue, Min(c.maxValue, v));
    var normalizedValue := (boundedValue - c.minValue) / (c.maxValue - c.minValue);
    NormalizedInUnit(c, boundedValue);
    LerpBetween(c.startAngle, c.endAngle, normalizedValue);
    c.startAngle + normalizedValue * (c.endAngle - c.startAngle)
  }

  lemma NormalizedInUnit(c: GaugeConfig, b: real)
    requires c.minValue != c.maxValue
    requires b == Max(c.minValue, Min(c.maxValue, b))
    ensures c.minValue < c.maxValue ==> 0.0 <= (b - c.minValue) / (c.maxValue - c.minValue) <= 1.0
    ensures c.maxValue < c.minValue ==> (b - c.minValue) / (c.maxValue - c.minValue) == 0.0
    ensures b == c.minValue ==> (b - c.minValue) / (c.maxValue - c.minValue) == 0.0
    ensures b == c.maxValue ==> (b - c.minValue) / (c.maxValue - c.minValue) == 1.0
  {
    if c.minValue < c.maxValue {
      DivUnit(b - c.minValue, c.maxValue - c.minValue);
    }
  }

  lemma LerpBetween(a: real, b: real, t: real)
    requires 0.0 <= t
    ensures 0.0 <= t <= 1.0 ==> Between(a + t * (b - a), a, b)
    ensures t == 0.0 ==> a + t * (b - a) == a
    ensures t == 1.0 ==> a + t * (b - a) == b
  {
    if t <= 1.0 {
      if a <= b {
        FractionOfGap(t, a, b);
      } else {
        FractionOfGap(t, b, a);
      }
    }
  }

  /** The unclamped linear map the tick generator uses for each tick's angle. */
  function TickAngle(c: GaugeConfig, v: real): real
    requires c.minValue != c.maxValue
  {
    c.startAngle + (v - c.minValue) / (c.maxValue - c.minValue) * (c.endAngle - c.startAngle)
  }

  /** The tick map takes `minValue` to `startAngle` and `maxValue` to
      `endAngle`, whichever way round the range and the sweep run. */
  lemma TickAngleEnds(c: GaugeConfig)
    requires c.minValue != c.maxValue
    ensures TickAngle(c, c.minValue) == c.startAngle
    ensures TickAngle(c, c.maxValue) == c.endAngle
  {
    DivFacts(c.minValue - c.minValue, c.maxValue - c.minValue);
    DivFacts(c.maxValue - c.minValue, c.maxValue - c.minValue);
  }

  /** Inside the range, the needle mapping and the tick mapping agree. */
  lemma ValueToAngleInRange(c: GaugeConfig, v: real)
    requires c.minValue < c.maxValue && c.minValue <= v <= c.maxValue
    ensures ValueToAngle(c, v) == TickAngle(c, v)
  {
  }

  /** `valueToAngle` follows the direction of the sweep: non-decreasing for a
      clockwise sweep and non-increasing for a counter-clockwise one. */
  lemma {:induction false} ValueToAngleMonotone(c: GaugeConfig, v1: real, v2: real)
    requires c.minValue < c.maxValue && v1 <= v2
    ensures c.startAngle <= c.endAngle ==> ValueToAngle(c, v1) <= ValueToAngle(c, v2)
    ensures c.endAngle < c.startAngle ==> ValueToAngle(c, v1) >= ValueToAngle(c, v2)
  {
    var range := c.maxValue - c.minValue;
    var b1 := Max(c.minValue, Min(c.maxValue, v1));
    var b2 := Max(c.minValue, Min(c.maxValue, v2));
    var n1 := (b1 - c.minValue) / range;
    var n2 := (b2 - c.minValue) / range;
    DivMono(b1 - c.minValue, b2 - c.minValue, range);
    var sweep := c.endAngle - c.startAngle;
    assert n2 * sweep - n1 * sweep == (n2 - n1) * sweep;
    if sweep >= 0.0 {
      MulNonneg(n2 - n1, sweep);
    } else {
      MulNonneg(n2 - n1, -sweep);
    }
  }

  /** The middle of the value range lands on the middle of the sweep. */
  lemma ValueToAngleMidpoint(c: GaugeConfig)
    requires c.minValue < c.maxValue
    ensures ValueToAngle(c, (c.minValue + c.maxValue) / 2.0) == (c.startAngle + c.endAngle) / 2.0
  {
    var mid := (c.minValue + c.maxValue) / 2.0;
    var range := c.maxValue - c.minValue;
    assert mid - c.minValue == 0.5 * range;
    MulDivCancel(0.5, range);
    assert (mid - c.minValue) / range == 0.5;
  }

  /** The speedometer's configuration: 80 of 0..160 over -120..90 degrees. */
  lemma SpeedometerMidpoint()
    ensures ValueToAngle(GaugeConfig(0.0, 160.0, -120.0, 90.0), 80.0) == -15.0
  {
    ValueToAngleMidpoint(GaugeConfig(0.0, 160.0, -120.0, 90.0));
  }

  /** `angleToValue`: an affine map from angles back to values. It reads the
      angle as `-angle - 90`, so it maps `-90 - startAngle` to `minValue` and
      `-90 - endAngle` to `maxValue`. */
  function AngleToValue(c: GaugeConfig, angle: real): (v: real)
    requires c.startAngle != c.endAngle
    ensures angle == -90.0 - c.startAngle ==> v == c.minValue
    ensures angle == -90.0 - c.endAngle ==> v == c.maxValue
  {
    var normalizedAngle := (-angle - 90.0 - c.startAngle) / (c.endAngle - c.startAngle);
    DivFacts(-angle - 90.0 - c.startAngle, c.endAngle - c.startAngle);
    c.minValue + normalizedAngle * (c.maxValue - c.minValue)
  }

  /** Equal steps in angle give equal steps in value, at the (negated) ratio of
      the value range to the sweep. */
  lemma AngleToValueAffine(c: GaugeConfig, a1: real, a2: real)
    requires c.startAngle != c.endAngle
    ensures AngleToValue(c, a2) - AngleToValue(c, a1)
         == (a1 - a2) / (c.endAngle - c.startAngle) * (c.maxValue - c.minValue)
  {
    var sweep := c.endAngle - c.startAngle;
    var range := c.maxValue - c.minValue;
    var n1 := (-a1 - 90.0 - c.startAngle) / sweep;
    var n2 := (-a2 - 90.0 - c.startAngle) / sweep;
    assert n2 - n1 == (a1 - a2) / sweep;
    assert n2 * range - n1 * range == (n2 - n1) * range;
  }

  /** `angleToValue` undoes `valueToAngle` once the angle is mirrored as
      `-90 - angle`: this is the convention its formula is written in. */
  lemma AngleToValueUndoesValueToAngle(c: GaugeConfig, v: real)
    requires c.minValue < c.maxValue && c.startAngle != c.endAngle
    requires c.minValue <= v <= c.maxValue
    ensures AngleToValue(c, -90.0 - ValueToAngle(c, v)) == v
  {
    var n := (v - c.minValue) / (c.maxValue - c.minValue);
    var sweep := c.endAngle - c.startAngle;
    assert ValueToAngle(c, v) == c.startAngle + n * sweep;
    assert (-(-90.0 - (c.startAngle + n * sweep)) - 90.0 - c.startAngle) / sweep == n;
  }

  /** ... and in the other direction, for every angle of the mirrored sweep. */
  lemma ValueToAngleUndoesAngleToValue(c: GaugeConfig, a: real)
    requires c.minValue < c.maxValue && c.startAngle != c.endAngle
    requires Between(a, c.startAngle, c.endAngle)
    ensures ValueToAngle(c, AngleToValue(c, -90.0 - a)) == a
  {
    var sweep := c.endAngle - c.startAngle;
    var n := (a - c.startAngle) / sweep;
    assert AngleToValue(c, -90.0 - a) == c.minValue + n * (c.maxValue - c.minValue) by {
      assert -(-90.0 - a) - 90.0 - c.startAngle == a - c.startAngle;
    }
    SweepFraction(c.startAngle, c.endAngle, a);
    ValueToAngleOfFraction(c, n);
    DivMulCancel(a - c.startAngle, sweep);
  }

  /** Where an angle of the sweep lies in it, as a fraction from 0 to 1. */
  lemma SweepFraction(start: real, end: real, a: real)
    requires start != end && Between(a, start, end)
    ensures 0.0 <= (a - start) / (end - start) <= 1.0
  {
    if start < end {
      DivUnit(a - start, end - start);
    } else {
      assert (a - start) / (end - start) == (start - a) / (start - end);
      DivUnit(start - a, start - end);
    }
  }

  /** The value a fraction `n` into the range maps to the angle `n` into the sweep. */
  lemma ValueToAngleOfFraction(c: GaugeConfig, n: real)
    requires c.minValue < c.maxValue && 0.0 <= n <= 1.0
    ensures ValueToAngle(c, c.minValue + n * (c.maxValue - c.minValue))
         == c.startAngle + n * (c.endAngle - c.startAngle)
  {
    var range := c.maxValue - c.minValue;
    var v := c.minValue + n * range;
    MulMono(n, 1.0, range);
    MulNonneg(n, range);
    assert Max(c.minValue, Min(c.maxValue, v)) == v;
    assert v - c.minValue == n * range;
    MulDivCancel(n, range);
  }

  /** Without the mirroring the two maps are not inverse: on the speedometer's
      configuration 80 goes to -15 degrees and -15 degrees back to 240/7. */
  lemma AngleToValueIsNotPlainInverse()
    ensures AngleToValue(GaugeConfig(0.0, 160.0, -120.0, 90.0), ValueToAngle(GaugeConfig(0.0, 160.0, -120.0, 90.0), 80.0))
         == 240.0 / 7.0
  {
    SpeedometerMidpoint();
  }

  // ---------------------------------------------------------------------------
  // The "nice number" increment
  // ---------------------------------------------------------------------------

  /** `Math.pow(10, m)` for an integer exponent. */
  function Pow10(m: int): (p: real)
    ensures p > 0.0
    decreases if m < 0 then -m else m
  {
    if m == 0 then 1.0
    else if m > 0 then 10.0 * Pow10(m - 1)
    else Pow10(m + 1) / 10.0
  }

  lemma Pow10Succ(m: int)
    ensures Pow10(m + 1) == 10.0 * Pow10(m)
  {
  }

  lemma {:induction false} Pow10Monotone(a: int, b: int)
    requires a <= b
    ensures Pow10(a) <= Pow10(b)
    decreases b - a
  {
    if a < b {
      Pow10Succ(a);
      Pow10Monotone(a + 1, b);
    }
  }

  /** `Math.floor(Math.log10(x))`: the integer order of magnitude of `x`. */
  function Magnitude(x: real): (m: int)
    requires x > 0.0
    ensures Pow10(m) <= x < Pow10(m + 1)
    decreases if x < 1.0 then 1 else 0, if x < 1.0 then (1.0 / x).Floor else x.Floor
  {
    if x >= 10.0 then
      var m := Magnitude(x / 10.0);
      Pow10Succ(m);
      Pow10Succ(m + 1);
      m + 1
    else if x < 1.0 then
      assert 10.0 * x < 1.0 ==> (1.0 / (10.0 * x)) == (1.0 / x) / 10.0;
      var m := Magnitude(10.0 * x);
      Pow10Succ(m - 1);
      m - 1
    else
      0
  }

  /** The order of magnitude is determined by its defining bracket. */
  lemma MagnitudeUnique(x: real, m: int, n: int)
    requires Pow10(m) <= x < Pow10(m + 1)
    requires Pow10(n) <= x < Pow10(n + 1)
    ensures m == n
  {
    if m < n {
      Pow10Monotone(m + 1, n);
    } else if n < m {
      Pow10Monotone(n + 1, m);
    }
  }

  /** The candidate steps, normalised to one order of magnitude. */
  const NiceIncrements: seq<real> := [1.0, 2.0, 2.5, 5.0, 10.0, 100.0, 500.0, 1000.0]

  /** The index that `reduce` settles on when it keeps, over the first `n`
      candidates, whichever is strictly closer to `x`: a nearest candidate,
      and the earliest of them on a tie. */
  function NearestUpTo(cands: seq<real>, x: real, n: nat): (k: nat)
    requires 1 <= n <= |cands|
    ensures k < n
    ensures forall i :: 0 <= i < n ==> Abs(cands[k] - x) <= Abs(cands[i] - x)
    ensures forall i :: 0 <= i < k ==> Abs(cands[k] - x) < Abs(cands[i] - x)
  {
    if n == 1 then 0
    else
      var prev := NearestUpTo(cands, x, n - 1);
      if Abs(cands[n - 1] - x) < Abs(cands[prev] - x) then n - 1 else prev
  }

  /** `k` is the earliest candidate at least as close to `x` as every other. */
  ghost predicate IsEarliestNearest(cands: seq<real>, x: real, k: int)
  {
    && 0 <= k < |cands|
    && (forall i :: 0 <= i < |cands| ==> Abs(cands[k] - x) <= Abs(cands[i] - x))
    && (forall i :: 0 <= i < k ==> Abs(cands[k] - x) < Abs(cands[i] - x))
  }

  lemma NearestIsEarliestNearest(cands: seq<real>, x: real, k: nat)
    requires |cands| >= 1 && k == NearestUpTo(cands, x, |cands|)
    ensures IsEarliestNearest(cands, x, k)
  {
  }

  lemma EarliestNearestUnique(cands: seq<real>, x: real, k1: int, k2: int)
    requires IsEarliestNearest(cands, x, k1) && IsEarliestNearest(cands, x, k2)
    ensures k1 == k2
  {
    var d1, d2 := Abs(cands[k1] - x), Abs(cands[k2] - x);
    assert d1 <= d2 && d2 <= d1;
  }

  /** `calculateRoundingIncrement`: the rough step `range / (count - 1)`,
      normalised by its power of ten and snapped to the nearest nice number.
      The source requires at least two ticks and a positive range; otherwise
      its arithmetic yields an infinite or NaN step. */
  function RoundingIncrement(range: real, targetTickCount: int): (increment: real)
    requires range > 0.0 && targetTickCount >= 2
    ensures increment > 0.0
  {
    var roughIncrement := range / (targetTickCount - 1) as real;
    var magnitude := Magnitude(roughIncrement);
    SnappedIncrement(roughIncrement, magnitude)
  }

  /** The rough step normalised by `10^magnitude`, snapped to the nearest
      nice number and scaled back. */
  function SnappedIncrement(roughIncrement: real, magnitude: int): (increment: real)
    ensures increment > 0.0
  {
    SnapToNice(roughIncrement, Pow10(magnitude))
  }

  /** `rough` normalised by the power of ten `p`, snapped to the nearest nice
      number and scaled back by `p`. */
  function SnapToNice(rough: real, p: real): (increment: real)
    requires p > 0.0
    ensures increment > 0.0
  {
    NiceIncrements[NearestNice(rough / p)] * p
  }

  /** Index of the nice number nearest to `x`, the earliest one on a tie. */
  function NearestNice(x: real): (k: nat)
    ensures k < |NiceIncrements|
  {
    NearestUpTo(NiceIncrements, x, |NiceIncrements|)
  }

  /** The snapped increment is the earliest nearest nice number, scaled. */
  lemma SnappedIncrementIsNearestNice(rough: real, m: int, k: int)
    requires IsEarliestNearest(NiceIncrements, rough / Pow10(m), k)
    ensures SnappedIncrement(rough, m) == NiceIncrements[k] * Pow10(m)
  {
    NearestIndex(rough / Pow10(m), k);
    SnappedIncrementAt(rough, m, k);
  }

  /** The earliest nearest candidate is the one the reduction picks. */
  lemma NearestIndex(x: real, k: int)
    requires IsEarliestNearest(NiceIncrements, x, k)
    ensures NearestNice(x) == k
  {
    NearestNiceIsEarliest(x);
    EarliestNearestUnique(NiceIncrements, x, k, NearestNice(x));
  }

  /** The reduction picks the earliest nearest candidate. */
  lemma NearestNiceIsEarliest(x: real)
    ensures IsEarliestNearest(NiceIncrements, x, NearestNice(x))
  {
    NearestIsEarliestNearest(NiceIncrements, x, NearestNice(x));
  }

  /** Unfolds the snap for a known candidate index. */
  lemma SnappedIncrementAt(rough: real, m: int, k: int)
    requires k == NearestNice(rough / Pow10(m))
    ensures SnappedIncrement(rough, m) == NiceIncrements[k] * Pow10(m)
  {
    SnapToNiceAt(rough, Pow10(m), k);
  }

  /** Unfolds the snap for a known candidate index and power of ten. */
  lemma SnapToNiceAt(rough: real, p: real, k: int)
    requires p > 0.0 && k == NearestNice(rough / p)
    ensures SnapToNice(rough, p) == NiceIncrements[k] * p
  {
  }

  /** The increment is `nice * 10^m`, where `10^m <= rough < 10^(m+1)` and
      `nice` is the earliest candidate nearest to `rough / 10^m`. */
  lemma RoundingIncrementIsNearestNice(range: real, targetTickCount: int, m: int, k: int)
    requires range > 0.0 && targetTickCount >= 2
    requires Pow10(m) <= range / (targetTickCount - 1) as real < Pow10(m + 1)
    requires IsEarliestNearest(NiceIncrements, range / (targetTickCount - 1) as real / Pow10(m), k)
    ensures RoundingIncrement(range, targetTickCount) == NiceIncrements[k] * Pow10(m)
  {
    var rough := range / (targetTickCount - 1) as real;
    MagnitudeUnique(rough, Magnitude(rough), m);
    assert RoundingIncrement(range, targetTickCount) == SnappedIncrement(rough, m);
    SnappedIncrementIsNearestNice(rough, m, k);
  }

  /** Only 1, 2, 2.5, 5 and 10 are ever chosen, so the increment stays within
      a factor 2/3 .. 4/3 of the rough step. */
  lemma RoundingIncrementNearRough(range: real, targetTickCount: int)
    requires range > 0.0 && targetTickCount >= 2
    ensures var rough := range / (targetTickCount - 1) as real;
      2.0 * rough / 3.0 <= RoundingIncrement(range, targetTickCount) < 4.0 * rough / 3.0
  {
    var rough := range / (targetTickCount - 1) as real;
    var m := Magnitude(rough);
    var p := Pow10(m);
    var k := NearestNice(rough / p);
    NiceStepNearRough(rough, m, k);
    assert RoundingIncrement(range, targetTickCount) == SnappedIncrement(rough, m);
    SnappedIncrementAt(rough, m, k);
  }

  lemma NiceStepNearRough(rough: real, m: int, k: int)
    requires Pow10(m) <= rough < Pow10(m + 1)
    requires 0 <= k < |NiceIncrements| && k == NearestNice(rough / Pow10(m))
    ensures 2.0 * rough / 3.0 <= NiceIncrements[k] * Pow10(m) < 4.0 * rough / 3.0
  {
    Pow10Succ(m);
    NiceStepScaled(rough, Pow10(m), k);
  }

  lemma NiceStepScaled(rough: real, p: real, k: int)
    requires 0.0 < p <= rough < 10.0 * p
    requires 0 <= k < |NiceIncrements| && k == NearestNice(rough / p)
    ensures 2.0 * rough / 3.0 <= NiceIncrements[k] * p < 4.0 * rough / 3.0
  {
    var x := rough / p;
    DivBounds(rough, p, 1.0, 10.0);
    NearestNiceNearX(x);
    ScaledBounds(rough, p, NiceIncrements[k]);
  }

  /** The chosen nice number is within a factor 2/3 .. 4/3 of `x`. */
  lemma NearestNiceNearX(x: real)
    requires 1.0 <= x < 10.0
    ensures 2.0 * x / 3.0 <= NiceIncrements[NearestNice(x)] < 4.0 * x / 3.0
  {
    NearestNiceIsEarliest(x);
    NiceNearX(x, NearestNice(x));
  }

  /** `2x/3 <= nice < 4x/3` with `x = rough / p` scales to the rough step. */
  lemma ScaledBounds(rough: real, p: real, nice: real)
    requires p > 0.0
    requires 2.0 * (rough / p) / 3.0 <= nice < 4.0 * (rough / p) / 3.0
    ensures 2.0 * rough / 3.0 <= nice * p < 4.0 * rough / 3.0
  {
    var x := rough / p;
    var lo, hi := 2.0 * x / 3.0, 4.0 * x / 3.0;
    MulMono(lo, nice, p);
    MulStrictMono(nice, hi, p);
    assert lo * p == 2.0 * rough / 3.0 && hi * p == 4.0 * rough / 3.0 by {
      DivMulCancel(rough, p);
      ScaleThirds(x, p, rough);
    }
  }

  lemma ScaleThirds(x: real, p: real, rough: real)
    requires x * p == rough
    ensures (2.0 * x / 3.0) * p == 2.0 * rough / 3.0
    ensures (4.0 * x / 3.0) * p == 4.0 * rough / 3.0
  {
  }

  lemma NiceNearX(x: real, k: nat)
    requires 1.0 <= x < 10.0
    requires IsEarliestNearest(NiceIncrements, x, k)
    ensures k <= 4
    ensures 2.0 * x / 3.0 <= NiceIncrements[k] < 4.0 * x / 3.0
  {
    var d := Abs(NiceIncrements[k] - x);
    assert d <= Abs(NiceIncrements[4] - x);
    assert d <= Abs(NiceIncrements[0] - x);
    assert d <= Abs(NiceIncrements[1] - x);
    assert d <= Abs(NiceIncrements[2] - x);
    assert d <= Abs(NiceIncrements[3] - x);
    if k == 0 {
    } else if k == 1 {
      assert d < Abs(NiceIncrements[0] - x);
    } else if k == 2 {
      assert d < Abs(NiceIncrements[0] - x);
      assert d < Abs(NiceIncrements[1] - x);
    } else if k == 3 {
      assert d < Abs(NiceIncrements[1] - x);
      assert d < Abs(NiceIncrements[2] - x);
    } else if k == 4 {
      assert d < Abs(NiceIncrements[3] - x);
    } else {
      assert false;
    }
  }

  /** The scenario used to describe the algorithm: 0..100 with six requested
      ticks steps by 20. */
  lemma IncrementHundredSixTicks()
    ensures RoundingIncrement(100.0, 6) == 20.0
  {
    var rough := 100.0 / 5.0;
    assert Pow10(1) == 10.0 && Pow10(2) == 100.0;
    assert rough / Pow10(1) == 2.0;
    assert IsEarliestNearest(NiceIncrements, rough / Pow10(1), 1);
    MagnitudeUnique(rough, Magnitude(rough), 1);
    SnappedIncrementIsNearestNice(rough, 1, 1);
    assert RoundingIncrement(100.0, 6) == SnappedIncrement(rough, Magnitude(rough));
  }

  /** The increment algorithm on the temperature gauge's configuration (that
      component draws with a different hook): 0..320 with four requested
      ticks steps by 100. */
  lemma IncrementTemperatureGauge()
    ensures RoundingIncrement(320.0, 4) == 100.0
  {
    var rough := 320.0 / 3.0;
    assert Pow10(2) == 100.0 && Pow10(3) == 1000.0;
    assert rough / Pow10(2) == 16.0 / 15.0;
    NearestNiceIsOne(rough / Pow10(2));
    MagnitudeUnique(rough, Magnitude(rough), 2);
    SnappedIncrementIsNearestNice(rough, 2, 0);
    assert RoundingIncrement(320.0, 4) == SnappedIncrement(rough, Magnitude(rough));
  }

  /** A normalised step below 1.5 snaps to the first nice number, 1. */
  lemma NearestNiceIsOne(x: real)
    requires 1.0 <= x < 1.5
    ensures IsEarliestNearest(NiceIncrements, x, 0)
  {
  }

  /** The speedometer: 0..160 with fifteen requested ticks steps by 10. */
  lemma IncrementSpeedometer()
    ensures RoundingIncrement(160.0, 15) == 10.0
  {
    var rough := 160.0 / 14.0;
    assert Pow10(1) == 10.0 && Pow10(2) == 100.0;
    assert rough / Pow10(1) == 8.0 / 7.0;
    NearestNiceIsOne(rough / Pow10(1));
    MagnitudeUnique(rough, Magnitude(rough), 1);
    SnappedIncrementIsNearestNice(rough, 1, 0);
    assert RoundingIncrement(160.0, 15) == SnappedIncrement(rough, Magnitude(rough));
  }

  // ---------------------------------------------------------------------------
  // Tick generation
  // ---------------------------------------------------------------------------

  /** `startVal`: the first multiple of the increment at or above `minValue`. */
  function FirstMajor(c: GaugeConfig, increment: real): real
    requires increment > 0.0
  {
    Ceil(c.minValue / increment) as real * increment
  }

  /** `endVal`: the last multiple of the increment at or below `maxValue`. */
  function LastMajor(c: GaugeConfig, increment: real): real
    requires increment > 0.0
  {
    Floor(c.maxValue / increment) as real * increment
  }

  /** `startVal` is the first multiple of the increment at or above
      `minValue`, and `endVal` the last one at or below `maxValue`. */
  lemma MajorEnds(c: GaugeConfig, increment: real)
    requires increment > 0.0
    ensures c.minValue <= FirstMajor(c, increment) < c.minValue + increment
    ensures c.maxValue - increment < LastMajor(c, increment) <= c.maxValue
  {
    CeilMultiple(c.minValue, increment);
    FloorMultiple(c.maxValue, increment);
  }

  /** `actualMajorTickCount`: the number of multiples of the increment from
      `startVal` to `endVal`; zero or negative when no multiple fits. */
  function MajorCount(c: GaugeConfig, increment: real): (count: int)
    requires increment > 0.0
    ensures count == Floor(c.maxValue / increment) - Ceil(c.minValue / increment) + 1
  {
    MultipleGap(Ceil(c.minValue / increment), Floor(c.maxValue / increment), increment,
                FirstMajor(c, increment), LastMajor(c, increment));
    Floor((LastMajor(c, increment) - FirstMajor(c, increment)) / increment) + 1
  }

  function MajorValue(c: GaugeConfig, increment: real, i: int): real
    requires increment > 0.0
  {
    FirstMajor(c, increment) + i as real * increment
  }

  function Tick(c: GaugeConfig, v: real): TickMark
    requires c.minValue != c.maxValue
  {
    TickMark(TickAngle(c, v), v)
  }

  /** The first `n` major ticks, in the order they are pushed. */
  function MajorTicksUpTo(c: GaugeConfig, increment: real, n: nat): (ticks: seq<TickMark>)
    requires c.minValue != c.maxValue && increment > 0.0
    ensures |ticks| == n
    ensures forall i | 0 <= i < n :: ticks[i] == Tick(c, MajorValue(c, increment, i))
  {
    if n == 0 then []
    else MajorTicksUpTo(c, increment, n - 1) + [Tick(c, MajorValue(c, increment, n - 1))]
  }

  /** The major ticks: one for each multiple of the increment in the range. */
  function MajorTicks(c: GaugeConfig, increment: real): (ticks: seq<TickMark>)
    requires c.minValue != c.maxValue && increment > 0.0
    ensures c.minValue < c.maxValue ==>
      |ticks| == Floor(c.maxValue / increment) - Ceil(c.minValue / increment) + 1
    ensures forall i | 0 <= i < |ticks| :: ticks[i] == Tick(c, MajorValue(c, increment, i))
  {
    assert c.minValue < c.maxValue ==> MajorCount(c, increment) >= 0 by {
      if c.minValue < c.maxValue {
        MajorCountIsMultiples(c, increment);
      }
    }
    var count := MajorCount(c, increment);
    MajorTicksUpTo(c, increment, if count > 0 then count else 0)
  }

  /** The value of the `j`-th minor tick (counting from 1) after major tick `i`. */
  function MinorValue(c: GaugeConfig, increment: real, minorTicksPerMajor: nat, i: int, j: int): real
    requires increment > 0.0
  {
    MajorValue(c, increment, i) + j as real * (increment / (minorTicksPerMajor + 1) as real)
  }

  /** The first `n` minor ticks pushed after major tick `i`. */
  function MinorRunUpTo(c: GaugeConfig, increment: real, minorTicksPerMajor: nat, i: int, n: nat): (ticks: seq<TickMark>)
    requires c.minValue != c.maxValue && increment > 0.0
    ensures |ticks| == n
  {
    if n == 0 then []
    else MinorRunUpTo(c, increment, minorTicksPerMajor, i, n - 1)
         + [Tick(c, MinorValue(c, increment, minorTicksPerMajor, i, n))]
  }

  function MinorRun(c: GaugeConfig, increment: real, minorTicksPerMajor: nat, i: int): seq<TickMark>
    requires c.minValue != c.maxValue && increment > 0.0
  {
    MinorRunUpTo(c, increment, minorTicksPerMajor, i, minorTicksPerMajor)
  }

  /** The minor ticks pushed after the first `n` major ticks. */
  function MinorTicksAfter(c: GaugeConfig, increment: real, minorTicksPerMajor: nat, n: nat): (ticks: seq<TickMark>)
    requires c.minValue != c.maxValue && increment > 0.0
    ensures |ticks| == n * minorTicksPerMajor
  {
    if n == 0 then []
    else MinorTicksAfter(c, increment, minorTicksPerMajor, n - 1) + MinorRun(c, increment, minorTicksPerMajor, n - 1)
  }

  /** All minor ticks: one run after every major tick but the last. */
  function MinorTicks(c: GaugeConfig, increment: real, minorTicksPerMajor: nat): (ticks: seq<TickMark>)
    requires c.minValue != c.maxValue && increment > 0.0
    ensures |MajorTicks(c, increment)| <= 1 ==> ticks == []
    ensures |MajorTicks(c, increment)| >= 1 ==>
      |ticks| == (|MajorTicks(c, increment)| - 1) * minorTicksPerMajor
  {
    var count := MajorCount(c, increment);
    if count >= 1 then MinorTicksAfter(c, increment, minorTicksPerMajor, count - 1) else []
  }

  /** `generateTicks`: the major ticks from the first to the last multiple of
      the nice increment, and `minorTicksPerMajor` evenly spaced minor ticks
      between each adjacent pair. The requested count only shapes the
      increment. An empty range or fewer than two requested ticks make the
      source's increment infinite or NaN, and then nothing is pushed. */
  method GenerateTicks(c: GaugeConfig, targetMajorTickCount: int, minorTicksPerMajor: nat)
    returns (majorTicks: seq<TickMark>, minorTicks: seq<TickMark>)
    ensures !(c.minValue < c.maxValue && targetMajorTickCount >= 2) ==> majorTicks == [] && minorTicks == []
    ensures c.minValue < c.maxValue && targetMajorTickCount >= 2 ==>
      var increment := RoundingIncrement(c.maxValue - c.minValue, targetMajorTickCount);
      majorTicks == MajorTicks(c, increment) && minorTicks == MinorTicks(c, increment, minorTicksPerMajor)
  {
    if !(c.minValue < c.maxValue && targetMajorTickCount >= 2) {
      return [], [];
    }
    var increment := RoundingIncrement(c.maxValue - c.minValue, targetMajorTickCount);
    majorTicks, minorTicks := PushTicks(c, increment, minorTicksPerMajor);
  }

  /** The loops of `generateTicks` once the increment is known. */
  method PushTicks(c: GaugeConfig, increment: real, minorTicksPerMajor: nat)
    returns (majorTicks: seq<TickMark>, minorTicks: seq<TickMark>)
    requires c.minValue < c.maxValue && increment > 0.0
    ensures majorTicks == MajorTicks(c, increment)
    ensures minorTicks == MinorTicks(c, increment, minorTicksPerMajor)
  {
    majorTicks, minorTicks := [], [];
    var startVal := Ceil(c.minValue / increment) as real * increment;
    var endVal := Floor(c.maxValue / increment) as real * increment;
    var actualMajorTickCount := Floor((endVal - startVal) / increment) + 1;
    assert startVal == FirstMajor(c, increment);
    assert endVal == LastMajor(c, increment);
    assert actualMajorTickCount == MajorCount(c, increment);
    var i := 0;
    while i < actualMajorTickCount
      invariant actualMajorTickCount > 0 ==> 0 <= i <= actualMajorTickCount
      invariant actualMajorTickCount <= 0 ==> i == 0
      invariant majorTicks == MajorTicksUpTo(c, increment, i)
      invariant minorTicks == MinorTicksAfter(c, increment, minorTicksPerMajor,
                                              if 0 < i == actualMajorTickCount then i - 1 else i)
    {
      var tickValue := startVal + i as real * increment;
      assert tickValue == MajorValue(c, increment, i);
      majorTicks := majorTicks + [TickMark(TickAngle(c, tickValue), tickValue)];
      assert majorTicks == MajorTicksUpTo(c, increment, i + 1);

      if i < actualMajorTickCount - 1 {
        minorTicks := PushMinorRun(c, increment, minorTicksPerMajor, i, tickValue, minorTicks);
      }
      i := i + 1;
    }
  }

  /** The inner loop of `generateTicks`: the `minorTicksPerMajor` evenly
      spaced minor ticks after the major tick at `tickValue`, appended to
      `minorTicks`. */
  method PushMinorRun(c: GaugeConfig, increment: real, minorTicksPerMajor: nat, i: int, tickValue: real,
                      minorTicks: seq<TickMark>)
    returns (ticks: seq<TickMark>)
    requires c.minValue != c.maxValue && increment > 0.0
    requires tickValue == MajorValue(c, increment, i)
    ensures ticks == minorTicks + MinorRun(c, increment, minorTicksPerMajor, i)
  {
    ticks := minorTicks;
    var minorIncrement := increment / (minorTicksPerMajor + 1) as real;
    var j := 1;
    while j <= minorTicksPerMajor
      invariant 1 <= j <= minorTicksPerMajor + 1
      invariant ticks == minorTicks + MinorRunUpTo(c, increment, minorTicksPerMajor, i, j - 1)
    {
      var minorValue := tickValue + j as real * minorIncrement;
      assert Tick(c, minorValue) == Tick(c, MinorValue(c, increment, minorTicksPerMajor, i, j));
      ticks := ticks + [TickMark(TickAngle(c, minorValue), minorValue)];
      j := j + 1;
    }
  }

  // ---------------------------------------------------------------------------
  // What the generated ticks satisfy
  // ---------------------------------------------------------------------------

  /** The major-tick count is `floor(max/inc) - ceil(min/inc) + 1`, the number
      of multiples of the increment inside the range; it is never negative. */
  lemma MajorCountIsMultiples(c: GaugeConfig, increment: real)
    requires c.minValue < c.maxValue && increment > 0.0
    ensures MajorCount(c, increment) == Floor(c.maxValue / increment) - Ceil(c.minValue / increment) + 1
    ensures MajorCount(c, increment) >= 0
  {
    DivStrictMono(c.minValue, c.maxValue, increment);
  }

  /** Major tick `i` has value `startVal + i * increment` and lies in the range. */
  lemma MajorTickValueAt(c: GaugeConfig, increment: real, i: int)
    requires c.minValue < c.maxValue && increment > 0.0
    requires 0 <= i < |MajorTicks(c, increment)|
    ensures MajorTicks(c, increment)[i].value == FirstMajor(c, increment) + i as real * increment
    ensures c.minValue <= MajorTicks(c, increment)[i].value <= c.maxValue
  {
    MajorValueInRange(c, increment, i);
  }

  /** The `i`-th value from `startVal` stays in the range while `i` is below
      the number of multiples the range holds. */
  lemma MajorValueInRange(c: GaugeConfig, increment: real, i: int)
    requires c.minValue < c.maxValue && increment > 0.0
    requires 0 <= i < Floor(c.maxValue / increment) - Ceil(c.minValue / increment) + 1
    ensures c.minValue <= MajorValue(c, increment, i) <= c.maxValue
  {
    var lo := Ceil(c.minValue / increment);
    ShiftedMultiple(lo, i, increment, FirstMajor(c, increment));
    MultipleInRange(c.minValue, c.maxValue, increment, lo + i);
  }

  /** Major tick `i` is drawn at the needle's angle for its value. */
  lemma MajorTickAngleAt(c: GaugeConfig, increment: real, i: int)
    requires c.minValue < c.maxValue && increment > 0.0
    requires 0 <= i < |MajorTicks(c, increment)|
    ensures MajorTicks(c, increment)[i].angle == ValueToAngle(c, MajorTicks(c, increment)[i].value)
  {
    MajorTickValueAt(c, increment, i);
    ValueToAngleInRange(c, MajorTicks(c, increment)[i].value);
  }

  /** There are `floor(max/inc) - ceil(min/inc) + 1` major ticks, and none
      at all exactly when `startVal > endVal`. */
  lemma MajorTicksCount(c: GaugeConfig, increment: real)
    requires c.minValue < c.maxValue && increment > 0.0
    ensures |MajorTicks(c, increment)| == Floor(c.maxValue / increment) - Ceil(c.minValue / increment) + 1
    ensures MajorTicks(c, increment) == [] <==> FirstMajor(c, increment) > LastMajor(c, increment)
  {
    MajorCountIsMultiples(c, increment);
    MajorTicksEmpty(c, increment);
  }

  /** Every major tick is `startVal + i * increment`, lies in the range and is
      drawn at the needle's angle for its value. */
  lemma MajorTicksSpaced(c: GaugeConfig, increment: real)
    requires c.minValue < c.maxValue && increment > 0.0
    ensures forall i | 0 <= i < |MajorTicks(c, increment)| ::
      && MajorTicks(c, increment)[i].value == FirstMajor(c, increment) + i as real * increment
      && c.minValue <= MajorTicks(c, increment)[i].value <= c.maxValue
      && MajorTicks(c, increment)[i].angle == ValueToAngle(c, MajorTicks(c, increment)[i].value)
  {
    var ticks := MajorTicks(c, increment);
    forall i | 0 <= i < |ticks|
      ensures ticks[i].value == FirstMajor(c, increment) + i as real * increment
      ensures c.minValue <= ticks[i].value <= c.maxValue
      ensures ticks[i].angle == ValueToAngle(c, ticks[i].value)
    {
      MajorTickValueAt(c, increment, i);
      MajorTickAngleAt(c, increment, i);
    }
  }

  /** The major ticks are strictly ascending. */
  lemma MajorTicksAscending(c: GaugeConfig, increment: real)
    requires c.minValue < c.maxValue && increment > 0.0
    ensures forall i, j | 0 <= i < j < |MajorTicks(c, increment)| ::
      MajorTicks(c, increment)[i].value < MajorTicks(c, increment)[j].value
  {
    var ticks := MajorTicks(c, increment);
    forall i, j | 0 <= i < j < |ticks|
      ensures ticks[i].value < ticks[j].value
    {
      MajorTickPairAscending(c, increment, i, j);
    }
  }

  lemma MajorTickPairAscending(c: GaugeConfig, increment: real, i: int, j: int)
    requires c.minValue < c.maxValue && increment > 0.0
    requires 0 <= i < j < |MajorTicks(c, increment)|
    ensures MajorTicks(c, increment)[i].value < MajorTicks(c, increment)[j].value
  {
    MajorTickValueAt(c, increment, i);
    MajorTickValueAt(c, increment, j);
    StepsAscend(FirstMajor(c, increment), increment, i, j);
  }

  lemma MajorTicksEmpty(c: GaugeConfig, increment: real)
    requires c.minValue < c.maxValue && increment > 0.0
    ensures MajorTicks(c, increment) == [] <==> FirstMajor(c, increment) > LastMajor(c, increment)
  {
    var lo, hi := Ceil(c.minValue / increment), Floor(c.maxValue / increment);
    MajorCountIsMultiples(c, increment);
    if lo > hi {
      MulStrictMono(hi as real, lo as real, increment);
    } else {
      MulMono(lo as real, hi as real, increment);
    }
  }

  /** The major ticks are exactly the multiples of the increment inside the
      range: `k * increment` is in the range if and only if it is a tick. */
  lemma MajorTicksAreAllMultiples(c: GaugeConfig, increment: real, k: int)
    requires c.minValue < c.maxValue && increment > 0.0
    ensures var first := Ceil(c.minValue / increment);
      (c.minValue <= k as real * increment <= c.maxValue) <==> 0 <= k - first < |MajorTicks(c, increment)|
    ensures var first := Ceil(c.minValue / increment);
      0 <= k - first < |MajorTicks(c, increment)| ==> MajorTicks(c, increment)[k - first].value == k as real * increment
  {
    var lo := Ceil(c.minValue / increment);
    MajorCountIsMultiples(c, increment);
    MultipleInRange(c.minValue, c.maxValue, increment, k);
    if 0 <= k - lo < |MajorTicks(c, increment)| {
      MajorTickValueAt(c, increment, k - lo);
      Distrib(lo as real, (k - lo) as real, increment);
    }
  }

  lemma {:induction false} MinorRunUpToAt(c: GaugeConfig, increment: real, minorTicksPerMajor: nat, i: int, n: nat, j: int)
    requires c.minValue != c.maxValue && increment > 0.0
    requires 0 <= j < n
    ensures MinorRunUpTo(c, increment, minorTicksPerMajor, i, n)[j] == Tick(c, MinorValue(c, increment, minorTicksPerMajor, i, j + 1))
  {
    if j < n - 1 {
      MinorRunUpToAt(c, increment, minorTicksPerMajor, i, n - 1, j);
    }
  }

  /** Minor tick `j` (from 0) of run `i` sits at index `i * m + j` of the
      minor ticks pushed after the first `n` majors. */
  lemma {:induction false} MinorTicksAfterAt(c: GaugeConfig, increment: real, minorTicksPerMajor: nat, n: nat, i: int, j: int)
    requires c.minValue != c.maxValue && increment > 0.0
    requires 0 <= i < n && 0 <= j < minorTicksPerMajor
    ensures i * minorTicksPerMajor + j < n * minorTicksPerMajor
    ensures MinorTicksAfter(c, increment, minorTicksPerMajor, n)[i * minorTicksPerMajor + j]
         == Tick(c, MinorValue(c, increment, minorTicksPerMajor, i, j + 1))
  {
    var m := minorTicksPerMajor;
    var before := MinorTicksAfter(c, increment, m, n - 1);
    assert MinorTicksAfter(c, increment, m, n) == before + MinorRun(c, increment, m, n - 1);
    assert |before| == (n - 1) * m;
    if i < n - 1 {
      MinorTicksAfterAt(c, increment, m, n - 1, i, j);
    } else {
      assert i * m + j == (n - 1) * m + j;
      MinorRunUpToAt(c, increment, m, i, m, j);
    }
  }

  /** The `j`-th minor value after major `i` lies strictly between majors `i`
      and `i + 1`, and the minor values rise with `j`. */
  lemma MinorValueBetween(c: GaugeConfig, increment: real, minorTicksPerMajor: nat, i: int, j: int)
    requires increment > 0.0
    requires 1 <= j <= minorTicksPerMajor
    ensures MajorValue(c, increment, i) < MinorValue(c, increment, minorTicksPerMajor, i, j) < MajorValue(c, increment, i + 1)
    ensures j < minorTicksPerMajor ==>
      MinorValue(c, increment, minorTicksPerMajor, i, j) < MinorValue(c, increment, minorTicksPerMajor, i, j + 1)
  {
    var k := (minorTicksPerMajor + 1) as real;
    var step := increment / k;
    DivUnit(0.0, 1.0);
    DivMulCancel(increment, k);
    assert step > 0.0 by {
      if step <= 0.0 { MulMono(step, 0.0, k); }
    }
    MulStrictMono(0.0, j as real, step);
    MulStrictMono(j as real, k, step);
    MulStrictMono(j as real, (j + 1) as real, step);
    Distrib(i as real, 1.0, increment);
  }

  /** Every major tick but the last is followed by exactly `m` minor ticks;
      each lies strictly between its two neighbouring majors and is drawn at
      the needle's angle for its value. */
  lemma MinorTicksBetweenMajors(c: GaugeConfig, increment: real, minorTicksPerMajor: nat, i: int, j: int)
    requires c.minValue < c.maxValue && increment > 0.0
    requires 0 <= i < |MajorTicks(c, increment)| - 1 && 0 <= j < minorTicksPerMajor
    ensures |MinorTicks(c, increment, minorTicksPerMajor)| == (|MajorTicks(c, increment)| - 1) * minorTicksPerMajor
    ensures 0 <= i * minorTicksPerMajor + j < |MinorTicks(c, increment, minorTicksPerMajor)|
    ensures var t := MinorTicks(c, increment, minorTicksPerMajor)[i * minorTicksPerMajor + j];
      && MajorTicks(c, increment)[i].value < t.value < MajorTicks(c, increment)[i + 1].value
      && t.angle == ValueToAngle(c, t.value)
  {
    var m := minorTicksPerMajor;
    MinorTickAt(c, increment, m, i, j);
    MinorTickBetween(c, increment, m, i, j);
    var v := MinorValue(c, increment, m, i, j + 1);
    ValueToAngleInRange(c, v);
  }

  /** Where minor tick `j` of run `i` sits in the minor ticks. */
  lemma MinorTickAt(c: GaugeConfig, increment: real, minorTicksPerMajor: nat, i: int, j: int)
    requires c.minValue < c.maxValue && increment > 0.0
    requires 0 <= i < |MajorTicks(c, increment)| - 1 && 0 <= j < minorTicksPerMajor
    ensures |MinorTicks(c, increment, minorTicksPerMajor)| == (|MajorTicks(c, increment)| - 1) * minorTicksPerMajor
    ensures 0 <= i * minorTicksPerMajor + j < |MinorTicks(c, increment, minorTicksPerMajor)|
    ensures MinorTicks(c, increment, minorTicksPerMajor)[i * minorTicksPerMajor + j]
         == Tick(c, MinorValue(c, increment, minorTicksPerMajor, i, j + 1))
  {
    var n := MajorCount(c, increment) - 1;
    assert |MajorTicks(c, increment)| == n + 1;
    assert MinorTicks(c, increment, minorTicksPerMajor) == MinorTicksAfter(c, increment, minorTicksPerMajor, n);
    MinorTicksAfterAt(c, increment, minorTicksPerMajor, n, i, j);
  }

  /** Minor tick `j` of run `i` lies strictly between majors `i` and `i + 1`
      and inside the range. */
  lemma MinorTickBetween(c: GaugeConfig, increment: real, minorTicksPerMajor: nat, i: int, j: int)
    requires c.minValue < c.maxValue && increment > 0.0
    requires 0 <= i < |MajorTicks(c, increment)| - 1 && 0 <= j < minorTicksPerMajor
    ensures MajorTicks(c, increment)[i].value < MinorValue(c, increment, minorTicksPerMajor, i, j + 1)
    ensures MinorValue(c, increment, minorTicksPerMajor, i, j + 1) < MajorTicks(c, increment)[i + 1].value
    ensures c.minValue <= MinorValue(c, increment, minorTicksPerMajor, i, j + 1) <= c.maxValue
  {
    MajorTickValueAt(c, increment, i);
    MajorTickValueAt(c, increment, i + 1);
    MinorValueBetween(c, increment, minorTicksPerMajor, i, j + 1);
  }

  /** Without a second major tick there are no minor ticks at all. */
  lemma MinorTicksNeedTwoMajors(c: GaugeConfig, increment: real, minorTicksPerMajor: nat)
    requires c.minValue < c.maxValue && increment > 0.0
    ensures |MajorTicks(c, increment)| <= 1 ==> MinorTicks(c, increment, minorTicksPerMajor) == []
    ensures |MajorTicks(c, increment)| >= 1 ==>
      |MinorTicks(c, increment, minorTicksPerMajor)| == (|MajorTicks(c, increment)| - 1) * minorTicksPerMajor
  {
  }

  /** 0..100 with six requested ticks: majors 0, 20, 40, 60, 80, 100. */
  lemma TicksHundredSix()
    ensures var c := GaugeConfig(0.0, 100.0, DefaultStartAngle, DefaultEndAngle);
      var majors := MajorTicks(c, RoundingIncrement(100.0, 6));
      |majors| == 6 && forall i | 0 <= i < 6 :: majors[i].value == 20.0 * i as real
  {
    var c := GaugeConfig(0.0, 100.0, DefaultStartAngle, DefaultEndAngle);
    IncrementHundredSixTicks();
    assert Floor(100.0 / 20.0) == 5 && Ceil(0.0 / 20.0) == 0;
    MajorTicksCount(c, 20.0);
    MajorTicksSpaced(c, 20.0);
  }

  /** The tick generator on the temperature gauge's configuration (that
      component draws with a different hook), 0..320 with four requested:
      0, 100, 200, 300. */
  lemma TicksTemperatureGauge()
    ensures var c := GaugeConfig(0.0, 320.0, -90.0, 90.0);
      var majors := MajorTicks(c, RoundingIncrement(320.0, 4));
      |majors| == 4 && forall i | 0 <= i < 4 :: majors[i].value == 100.0 * i as real
  {
    var c := GaugeConfig(0.0, 320.0, -90.0, 90.0);
    IncrementTemperatureGauge();
    assert Floor(320.0 / 100.0) == 3 && Ceil(0.0 / 100.0) == 0;
    MajorTicksCount(c, 100.0);
    MajorTicksSpaced(c, 100.0);
  }

  /** The speedometer asks for 15 ticks on 0..160 and gets 17 (0, 10, .., 160):
      the requested count only shapes the increment. */
  lemma TicksSpeedometer()
    ensures var c := GaugeConfig(0.0, 160.0, -120.0, 90.0);
      var majors := MajorTicks(c, RoundingIncrement(160.0, 15));
      |majors| == 17 && majors[0].value == 0.0 && majors[16].value == 160.0
  {
    var c := GaugeConfig(0.0, 160.0, -120.0, 90.0);
    IncrementSpeedometer();
    assert Floor(160.0 / 10.0) == 16 && Ceil(0.0 / 10.0) == 0;
    assert MajorValue(c, 10.0, 16) == 160.0;
  }

  // ---------------------------------------------------------------------------
  // Needle animation
  // ---------------------------------------------------------------------------

  /** Below this distance the needle snaps onto its target. */
  const SnapDistance: real := 0.1
  /** Fraction of the remaining distance covered on each frame. */
  const EasingFactor: real := 0.1

  /** One animation frame: move a tenth of the way towards the target, or
      land on it once within `SnapDistance`. The needle never passes the
      target and, unless it lands, is left exactly nine tenths as far away. */
  function AnimationStep(value: real, target: real): (next: real)
    ensures Between(next, value, target)
    ensures Abs(target - value) <= SnapDistance ==> next == target
    ensures Abs(target - value) > SnapDistance ==>
      next != target && Abs(target - next) == (1.0 - EasingFactor) * Abs(target - value)
  {
    if Abs(target - value) > SnapDistance then value + (target - value) * EasingFactor
    else target
  }

  /** The needle after `n` frames towards a fixed target: still between its
      start and the target, and no farther from the target than it began. */
  function Animate(value: real, target: real, n: nat): (v: real)
    ensures Between(v, value, target)
    ensures Abs(target - v) <= Abs(target - value)
  {
    if n == 0 then value
    else
      var prev := Animate(value, target, n - 1);
      var next := AnimationStep(prev, target);
      BetweenTrans(next, prev, value, target);
      next
  }

  function Pow(x: real, n: nat): (p: real)
    ensures x >= 0.0 ==> p >= 0.0
  {
    if n == 0 then 1.0 else x * Pow(x, n - 1)
  }

  /** `distance` shrunk by the retained fraction `n` times over. */
  function Shrunk(distance: real, n: nat): real
  {
    if n == 0 then distance else (1.0 - EasingFactor) * Shrunk(distance, n - 1)
  }

  lemma {:induction false} ShrunkIsGeometric(distance: real, n: nat)
    ensures Shrunk(distance, n) == Pow(1.0 - EasingFactor, n) * distance
  {
    if n > 0 {
      ShrunkIsGeometric(distance, n - 1);
      var p := Pow(1.0 - EasingFactor, n - 1);
      assert (1.0 - EasingFactor) * (p * distance) == ((1.0 - EasingFactor) * p) * distance;
    }
  }

  /** After `n` frames the needle is still between its start and the target
      and at most `0.9^n` of the initial distance away from the target. */
  lemma AnimateConverges(value: real, target: real, n: nat)
    ensures Between(Animate(value, target, n), value, target)
    ensures Abs(target - Animate(value, target, n)) <= Pow(1.0 - EasingFactor, n) * Abs(target - value)
  {
    AnimateShrinks(value, target, n);
    ShrunkIsGeometric(Abs(target - value), n);
  }

  lemma {:induction false} AnimateShrinks(value: real, target: real, n: nat)
    ensures Between(Animate(value, target, n), value, target)
    ensures Abs(target - Animate(value, target, n)) <= Shrunk(Abs(target - value), n)
  {
    if n > 0 {
      AnimateShrinks(value, target, n - 1);
      var prev := Animate(value, target, n - 1);
      var cur := Animate(value, target, n);
      assert cur == AnimationStep(prev, target);
      BetweenTrans(cur, prev, value, target);
    }
  }

  lemma BetweenTrans(x: real, y: real, a: real, b: real)
    requires Between(x, y, b) && Between(y, a, b)
    ensures Between(x, a, b)
  {
  }

  /** Each frame moves the needle towards the target and never away from it:
      the frames form a monotone sequence that ends on the target. */
  lemma AnimateMonotone(value: real, target: real, n: nat)
    ensures Between(Animate(value, target, n + 1), Animate(value, target, n), target)
    ensures Abs(target - Animate(value, target, n + 1)) <= Abs(target - Animate(value, target, n))
  {
  }

  /** Once the target is reached the needle stays on it. */
  lemma {:induction false} AnimateStaysAtTarget(value: real, target: real, n: nat, k: nat)
    requires Animate(value, target, n) == target
    ensures Animate(value, target, n + k) == target
  {
    if k > 0 {
      AnimateStaysAtTarget(value, target, n, k - 1);
    }
  }

  /** The needle lands exactly on the target one frame after the geometric
      bound drops to the snap distance. */
  lemma AnimateSettles(value: real, target: real, n: nat)
    requires Pow(1.0 - EasingFactor, n) * Abs(target - value) <= SnapDistance
    ensures Animate(value, target, n + 1) == target
  {
    AnimateConverges(value, target, n);
  }

  /** Whatever the distance, the needle lands exactly on the target after
      finitely many frames, so the animation effect stops rescheduling. */
  lemma AnimateReachesTarget(value: real, target: real)
    ensures exists n: nat :: Animate(value, target, n) == target
  {
    var d := Abs(target - value);
    var k: nat := Floor(90.0 * d) + 1;
    PowBernoulli(k);
    SettleBound(Pow(1.0 - EasingFactor, k), d, k as real);
    AnimateSettles(value, target, k);
  }

  /** `0.9^n <= 9 / (9 + n)`: the retained fraction of the distance falls at
      least as fast as this harmonic bound. */
  lemma {:induction false} PowBernoulli(n: nat)
    ensures Pow(1.0 - EasingFactor, n) * (9.0 + n as real) <= 9.0
  {
    if n > 0 {
      PowBernoulli(n - 1);
      BernoulliStep(Pow(1.0 - EasingFactor, n - 1), (n - 1) as real);
    }
  }

  /** One more frame keeps `p * (9 + k) <= 9`: the factor 0.9 takes away more
      than the extra `p` that the larger bound adds. */
  lemma BernoulliStep(p: real, k: real)
    requires p >= 0.0 && k >= 0.0 && p * (9.0 + k) <= 9.0
    ensures (0.9 * p) * (10.0 + k) <= 9.0
  {
    assert (0.9 * p) * (10.0 + k) == p * (9.0 + k) - 0.1 * (k * p);
    MulNonneg(k, p);
  }

  /** With `s <= 9 / (9 + k)` and `k > 90 * d`, the distance `d` shrunk by `s`
      is within the snap distance. */
  lemma SettleBound(s: real, d: real, k: real)
    requires s >= 0.0 && d >= 0.0 && s * (9.0 + k) <= 9.0 && 90.0 * d < k
    ensures s * d <= SnapDistance
  {
    ShrunkScaled(s, d, 9.0 + k);
    DivMono((s * d) * (9.0 + k), 0.1 * (9.0 + k), 9.0 + k);
    MulDivCancel(s * d, 9.0 + k);
    MulDivCancel(0.1, 9.0 + k);
  }

  /** Multiplying `s * t <= 9` by `d` gives `(s * d) * t <= 9 * d`. */
  lemma ShrunkScaled(s: real, d: real, t: real)
    requires d >= 0.0 && s * t <= 9.0
    ensures (s * d) * t <= 9.0 * d
  {
    MulMono(s * t, 9.0, d);
    assert (s * d) * t == (s * t) * d;
  }

  /** The state behind the `useGauge` hook: the displayed `value` and the
      `targetValue` it is animated towards. */
  class GaugeState {
    const config: GaugeConfig
    var value: real
    var targetValue: real

    /** Both the shown value and the target start at the initial value. */
    constructor(initialValue: real, config: GaugeConfig)
      ensures this.config == config
      ensures value == initialValue && targetValue == initialValue
    {
      this.config := config;
      value := initialValue;
      targetValue := initialValue;
    }

    /** The hook's `setValue`: only the target moves; the needle follows on
        later frames. */
    method SetValue(newTarget: real)
      modifies this`targetValue
      ensures targetValue == newTarget
    {
      targetValue := newTarget;
    }

    /** The animation effect run on one frame. */
    method AnimationFrame()
      modifies this`value
      ensures value == AnimationStep(old(value), targetValue)
      ensures Between(value, old(value), targetValue)
    {
      if Abs(targetValue - value) > SnapDistance {
        value := value + (targetValue - value) * EasingFactor;
      } else {
        value := targetValue;
      }
    }

    /** The needle angle for the value currently shown; inside the sweep
        whenever the range runs upwards. */
    function Angle(): (a: real)
      reads this
      requires config.minValue != config.maxValue
      ensures config.minValue < config.maxValue ==> Between(a, config.startAngle, config.endAngle)
      ensures a == ValueToAngle(config, value)
    {
      ValueToAngle(config, value)
    }
  }
}
