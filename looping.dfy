/** The looping-value hook: a sawtooth that climbs by `step` on every timer
    tick and falls back to `minValue` once it would pass `maxValue`
    (src/hooks/useLoopingValue.ts). */
module LoopingValue {
  import opened Arith

  /** The state updater run on each tick. */
  function NextValue(current: real, step: real, minValue: real, maxValue: real): (next: real)
    ensures current + step <= maxValue ==> next == current + step
    ensures current + step > maxValue ==> next == minValue
    ensures minValue <= current && 0.0 <= step && minValue <= maxValue ==> minValue <= next <= maxValue
  {
    var nextValue := current + step;
    if nextValue > maxValue then minValue else nextValue
  }

  /** The value after `k` ticks starting from `value`. From any start at or
      above `minValue`, every tick lands in the range, even when the start
      lies above `maxValue`. */
  function Steps(value: real, step: real, minValue: real, maxValue: real, k: nat): (v: real)
    ensures k > 0 && minValue <= value && 0.0 <= step && minValue <= maxValue ==> minValue <= v <= maxValue
  {
    if k == 0 then value else NextValue(Steps(value, step, minValue, maxValue, k - 1), step, minValue, maxValue)
  }

  /** Ticks compose: `a + b` ticks are `a` ticks followed by `b` more. */
  lemma {:induction false} StepsCompose(value: real, step: real, minValue: real, maxValue: real, a: nat, b: nat)
    ensures Steps(value, step, minValue, maxValue, a + b)
         == Steps(Steps(value, step, minValue, maxValue, a), step, minValue, maxValue, b)
  {
    if b > 0 {
      StepsCompose(value, step, minValue, maxValue, a, b - 1);
    }
  }

  /** Every value reached from a value in the range stays in the range. */
  lemma {:induction false} StepsInRange(value: real, step: real, minValue: real, maxValue: real, k: nat)
    requires 0.0 <= step && minValue <= value <= maxValue
    ensures minValue <= Steps(value, step, minValue, maxValue, k) <= maxValue
  {
    if k > 0 {
      StepsInRange(value, step, minValue, maxValue, k - 1);
    }
  }

  /** From `minValue` the value climbs by whole steps, `minValue + k * step`,
      for as long as that does not pass `maxValue`. */
  lemma ClimbFromMin(step: real, minValue: real, maxValue: real, k: nat)
    requires step > 0.0
    requires minValue + k as real * step <= maxValue
    ensures Steps(minValue, step, minValue, maxValue, k) == minValue + k as real * step
  {
    MultipleIsProduct(k, step);
    ClimbByMultiples(step, minValue, maxValue, k);
  }

  /** `k` steps added one at a time. */
  function Multiple(k: nat, step: real): real
  {
    if k == 0 then 0.0 else Multiple(k - 1, step) + step
  }

  lemma {:induction false} MultipleIsProduct(k: nat, step: real)
    ensures Multiple(k, step) == k as real * step
  {
    if k > 0 {
      MultipleIsProduct(k - 1, step);
      MulSucc(k, step);
    }
  }

  lemma {:induction false} ClimbByMultiples(step: real, minValue: real, maxValue: real, k: nat)
    requires step > 0.0
    requires minValue + Multiple(k, step) <= maxValue
    ensures Steps(minValue, step, minValue, maxValue, k) == minValue + Multiple(k, step)
  {
    if k > 0 {
      ClimbByMultiples(step, minValue, maxValue, k - 1);
    }
  }

  /** The index of the last value before the wrap: the number of whole steps
      that fit between `minValue` and `maxValue`. */
  function TopIndex(step: real, minValue: real, maxValue: real): (k: nat)
    requires step > 0.0 && minValue <= maxValue
    ensures minValue + k as real * step <= maxValue < minValue + (k + 1) as real * step
  {
    var n := Floor((maxValue - minValue) / step);
    DivUnit(0.0, 1.0);
    ScaledOrder(maxValue - minValue, n as real, step);
    ScaledOrder(maxValue - minValue, (n + 1) as real, step);
    DivMono(0.0, maxValue - minValue, step);
    n
  }

  /** The tick after the top value returns to `minValue`. */
  lemma WrapAfterTop(step: real, minValue: real, maxValue: real)
    requires step > 0.0 && minValue <= maxValue
    ensures Steps(minValue, step, minValue, maxValue, TopIndex(step, minValue, maxValue) + 1) == minValue
  {
    var k := TopIndex(step, minValue, maxValue);
    ClimbFromMin(step, minValue, maxValue, k);
    Distrib(k as real, 1.0, step);
  }

  /** The sawtooth repeats with period `TopIndex + 1` ticks. */
  lemma Periodic(step: real, minValue: real, maxValue: real, k: nat)
    requires step > 0.0 && minValue <= maxValue
    ensures var period := TopIndex(step, minValue, maxValue) + 1;
      Steps(minValue, step, minValue, maxValue, period + k) == Steps(minValue, step, minValue, maxValue, k)
  {
    var period := TopIndex(step, minValue, maxValue) + 1;
    StepsCompose(minValue, step, minValue, maxValue, period, k);
    WrapAfterTop(step, minValue, maxValue);
  }

  /** The hook's state: the value it returns, advanced by the interval timer. */
  class Looper {
    const minValue: real
    const maxValue: real
    const step: real
    var value: real

    /** The value starts at `minValue`. */
    constructor(minValue: real, maxValue: real, step: real)
      ensures this.minValue == minValue && this.maxValue == maxValue && this.step == step
      ensures value == minValue
    {
      this.minValue := minValue;
      this.maxValue := maxValue;
      this.step := step;
      value := minValue;
    }

    /** One tick of the interval timer. */
    method Step()
      modifies this`value
      ensures value == NextValue(old(value), step, minValue, maxValue)
      ensures minValue <= old(value) && 0.0 <= step && minValue <= maxValue ==> minValue <= value <= maxValue
    {
      var nextValue := value + step;
      if nextValue > maxValue {
        value := minValue;
      } else {
        value := nextValue;
      }
    }
  }
}
