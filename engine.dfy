/** The engine-rev hook: a per-frame RPM transition with throttle, power loss
    near the rev limit and a jittery idle (src/hooks/useEngineRev.ts).
    Each call of `Math.random()` is an injected sample `r` with `0 <= r < 1`;
    every path through one transition draws at most one sample. */
module EngineRev {
  import opened Arith

  datatype EngineConfig = EngineConfig(
    idleRPM: real,
    maxRPM: real,
    redLine: real,
    revUpRate: real,
    revDownRate: real,
    throttleResponse: real,
    idleFluctuation: real,
    powerLossThreshold: real)

  /** The values the hook uses for any option a caller leaves out. */
  const DefaultEngine: EngineConfig :=
    EngineConfig(800.0, 8000.0, 7500.0, 3000.0, 2000.0, 0.15, 50.0, 0.95)

  /** What `Math.random()` may return. */
  predicate IsSample(r: real)
  {
    0.0 <= r < 1.0
  }

  // ---------------------------------------------------------------------------
  // Idle jitter
  // ---------------------------------------------------------------------------

  /** `getIdleVariation`: idle plus a uniform offset in
      `[-idleFluctuation, idleFluctuation)`. */
  function IdleVariation(e: EngineConfig, r: real): (rpm: real)
    requires IsSample(r)
    ensures e.idleFluctuation >= 0.0 ==>
      e.idleRPM - e.idleFluctuation <= rpm <= e.idleRPM + e.idleFluctuation
    ensures e.idleFluctuation > 0.0 ==> rpm < e.idleRPM + e.idleFluctuation
  {
    var randomVariation := (r - 0.5) * 2.0 * e.idleFluctuation;
    OffsetBounds(r, e.idleFluctuation);
    e.idleRPM + randomVariation
  }

  lemma OffsetBounds(r: real, f: real)
    requires IsSample(r)
    ensures f >= 0.0 ==> -f <= (r - 0.5) * 2.0 * f <= f
    ensures f > 0.0 ==> (r - 0.5) * 2.0 * f < f
  {
    assert (r - 0.5) * 2.0 * f == 2.0 * (r * f) - f;
    if f > 0.0 {
      MulNonneg(r, f);
      MulStrictMono(r, 1.0, f);
    } else if f == 0.0 {
      assert r * f == 0.0;
    }
  }

  /** Every RPM in the idle band is the idle sample of exactly one random
      draw, so the band is covered, not just bounded. */
  lemma IdleVariationCovers(e: EngineConfig, rpm: real)
    requires e.idleFluctuation > 0.0
    requires e.idleRPM - e.idleFluctuation <= rpm < e.idleRPM + e.idleFluctuation
    ensures exists r | IsSample(r) :: IdleVariation(e, r) == rpm
  {
    var f := e.idleFluctuation;
    var r := (rpm - e.idleRPM + f) / (2.0 * f);
    DivBounds(rpm - e.idleRPM + f, 2.0 * f, 0.0, 1.0);
    DivMulCancel(rpm - e.idleRPM + f, 2.0 * f);
    assert (r - 0.5) * 2.0 * f == r * (2.0 * f) - f;
    assert IdleVariation(e, r) == rpm;
  }

  /** A larger draw never gives a lower idle sample. */
  lemma IdleVariationMonotone(e: EngineConfig, r1: real, r2: real)
    requires IsSample(r1) && IsSample(r2) && r1 <= r2
    requires e.idleFluctuation >= 0.0
    ensures IdleVariation(e, r1) <= IdleVariation(e, r2)
  {
    MulMono(r1 - 0.5, r2 - 0.5, 2.0 * e.idleFluctuation);
    assert (r1 - 0.5) * 2.0 * e.idleFluctuation == (r1 - 0.5) * (2.0 * e.idleFluctuation);
    assert (r2 - 0.5) * 2.0 * e.idleFluctuation == (r2 - 0.5) * (2.0 * e.idleFluctuation);
  }

  // ---------------------------------------------------------------------------
  // Power loss
  // ---------------------------------------------------------------------------

  /** The RPM above which power loss sets in. */
  function PowerLossStart(e: EngineConfig): real
  {
    e.maxRPM * e.powerLossThreshold
  }

  /** For a positive `maxRPM`, the zone starts below the rev limit exactly
      when the threshold is below 1, and is empty exactly when it is 1. */
  lemma PowerLossZoneShape(e: EngineConfig)
    requires e.maxRPM > 0.0
    ensures PowerLossStart(e) < e.maxRPM <==> e.powerLossThreshold < 1.0
    ensures PowerLossStart(e) == e.maxRPM <==> e.powerLossThreshold == 1.0
  {
    ScaleAgainstOne(e.maxRPM, e.powerLossThreshold, PowerLossStart(e));
  }

  /** `s = m * t` compares with `m` as `t` compares with 1, for a positive `m`. */
  lemma ScaleAgainstOne(m: real, t: real, s: real)
    requires m > 0.0 && s == m * t
    ensures s < m <==> t < 1.0
    ensures s == m <==> t == 1.0
  {
    if t < 1.0 {
      MulStrictMono(t, 1.0, m);
    } else if t == 1.0 {
    } else {
      MulStrictMono(1.0, t, m);
    }
  }

  /** The loss formula divides by `maxRPM - PowerLossStart`; it is only
      reached for RPMs above the start, and there the zone must not be empty. */
  predicate PowerLossDefined(e: EngineConfig, rpm: real)
  {
    rpm > PowerLossStart(e) ==> PowerLossStart(e) != e.maxRPM
  }

  /** How far `rpm` lies into the power-loss zone; 0 at its start, 1 at `maxRPM`. */
  function ZoneProgress(e: EngineConfig, rpm: real): (progress: real)
    requires PowerLossStart(e) != e.maxRPM
    ensures PowerLossStart(e) < rpm && PowerLossStart(e) < e.maxRPM ==> progress > 0.0
    ensures rpm == e.maxRPM ==> progress == 1.0
  {
    var start := PowerLossStart(e);
    QuotientFacts(rpm - start, e.maxRPM - start);
    (rpm - start) / (e.maxRPM - start)
  }

  lemma QuotientFacts(p: real, q: real)
    requires q != 0.0
    ensures 0.0 < p && 0.0 < q ==> p / q > 0.0
    ensures p == q ==> p / q == 1.0
  {
    if 0.0 < p && 0.0 < q {
      DivStrictMono(0.0, p, q);
    }
  }

  /** `calculatePowerLoss`: nothing up to the start of the zone; above it a
      random loss of up to 500 RPM per unit of progress into the zone. */
  function PowerLoss(e: EngineConfig, rpm: real, r: real): (loss: real)
    requires IsSample(r) && PowerLossDefined(e, rpm)
    ensures rpm <= PowerLossStart(e) ==> loss == 0.0
    ensures rpm > PowerLossStart(e) && e.maxRPM > PowerLossStart(e) ==>
      0.0 <= loss < 500.0 * ZoneProgress(e, rpm)
  {
    if rpm > PowerLossStart(e) then
      var progress := ZoneProgress(e, rpm);
      LossBounds(r, progress);
      r * progress * 500.0
    else
      0.0
  }

  lemma LossBounds(r: real, progress: real)
    requires IsSample(r)
    ensures progress > 0.0 ==> 0.0 <= r * progress * 500.0 < 500.0 * progress
  {
    if progress > 0.0 {
      MulNonneg(r, progress);
      MulStrictMono(r, 1.0, progress);
    }
  }

  /** For a fixed draw the loss grows with the RPM: the deeper into the zone,
      the more severe. */
  lemma PowerLossMonotone(e: EngineConfig, rpm1: real, rpm2: real, r: real)
    requires IsSample(r) && PowerLossStart(e) < e.maxRPM
    requires rpm1 <= rpm2
    ensures PowerLoss(e, rpm1, r) <= PowerLoss(e, rpm2, r)
  {
    var start := PowerLossStart(e);
    if rpm1 > start {
      DivMono(rpm1 - start, rpm2 - start, e.maxRPM - start);
      MulMono(ZoneProgress(e, rpm1), ZoneProgress(e, rpm2), r);
      assert r * ZoneProgress(e, rpm1) <= r * ZoneProgress(e, rpm2);
      MulMono(r * ZoneProgress(e, rpm1), r * ZoneProgress(e, rpm2), 500.0);
    } else if rpm2 > start {
      MulNonneg(r, ZoneProgress(e, rpm2));
    }
  }

  /** Inside the zone every loss in `[0, 500 * progress)` is the loss of some draw. */
  lemma PowerLossCovers(e: EngineConfig, rpm: real, loss: real)
    requires PowerLossStart(e) < rpm && PowerLossStart(e) < e.maxRPM
    requires 0.0 <= loss < 500.0 * ZoneProgress(e, rpm)
    ensures exists r | IsSample(r) :: PowerLoss(e, rpm, r) == loss
  {
    var scale := 500.0 * ZoneProgress(e, rpm);
    var r := loss / scale;
    DivBounds(loss, scale, 0.0, 1.0);
    DivMulCancel(loss, scale);
    assert r * ZoneProgress(e, rpm) * 500.0 == r * scale;
    assert PowerLoss(e, rpm, r) == loss;
  }

  // ---------------------------------------------------------------------------
  // One frame
  // ---------------------------------------------------------------------------

  /** The throttle-on RPM before power loss: a step towards `maxRPM` of
      `throttleResponse * revUpRate * deltaTime` of the remaining gap. */
  function Accelerated(e: EngineConfig, current: real, deltaTime: real): (rpm: real)
    ensures e.maxRPM - rpm == (e.maxRPM - current) * (1.0 - e.throttleResponse * (e.revUpRate * deltaTime))
  {
    var acceleration := (e.maxRPM - current) * e.throttleResponse;
    current + acceleration * (e.revUpRate * deltaTime)
  }

  /** The throttle-off RPM before the idle check: a step towards `idleRPM` of
      `0.1 * revDownRate * deltaTime` of the remaining distance. */
  function Decayed(e: EngineConfig, current: real, deltaTime: real): (rpm: real)
    ensures rpm - e.idleRPM == (current - e.idleRPM) * (1.0 - 0.1 * (e.revDownRate * deltaTime))
  {
    var deceleration := (current - e.idleRPM) * 0.1;
    current - deceleration * (e.revDownRate * deltaTime)
  }

  /** `calculateRPM`: one frame of `deltaTime` seconds with or without throttle. */
  function CalculateRPM(e: EngineConfig, current: real, throttle: bool, deltaTime: real, r: real): (next: real)
    requires IsSample(r)
    requires throttle ==> PowerLossDefined(e, Accelerated(e, current, deltaTime))
    ensures throttle ==> next <= e.maxRPM
    ensures throttle && Accelerated(e, current, deltaTime) <= PowerLossStart(e) ==>
      next == Min(Accelerated(e, current, deltaTime), e.maxRPM)
    ensures throttle && PowerLossStart(e) < e.maxRPM && Accelerated(e, current, deltaTime) > PowerLossStart(e) ==>
      var a := Accelerated(e, current, deltaTime);
      Min(a - 500.0 * ZoneProgress(e, a), e.maxRPM) <= next <= Min(a, e.maxRPM)
    ensures !throttle && Decayed(e, current, deltaTime) <= e.idleRPM + e.idleFluctuation ==>
      next == IdleVariation(e, r)
    ensures !throttle && Decayed(e, current, deltaTime) > e.idleRPM + e.idleFluctuation ==>
      next == Max(Decayed(e, current, deltaTime), IdleVariation(e, r))
    ensures !throttle && e.idleFluctuation >= 0.0 ==> next >= e.idleRPM - e.idleFluctuation
  {
    if throttle then
      var newRPM := Accelerated(e, current, deltaTime);
      var powerLoss := PowerLoss(e, newRPM, r);
      Min(newRPM - powerLoss, e.maxRPM)
    else
      var newRPM := Decayed(e, current, deltaTime);
      if newRPM <= e.idleRPM + e.idleFluctuation then IdleVariation(e, r)
      else Max(newRPM, IdleVariation(e, r))
  }

  /** With throttle held, rates and frame time non-negative and no power loss
      drawn, the RPM never drops; with a frame step of at most the whole gap
      it also never jumps past the rev limit before the clamp. */
  lemma ThrottleNeverDecreases(e: EngineConfig, current: real, deltaTime: real, r: real)
    requires IsSample(r)
    requires current <= e.maxRPM
    requires e.throttleResponse >= 0.0 && e.revUpRate >= 0.0 && deltaTime >= 0.0
    requires Accelerated(e, current, deltaTime) <= PowerLossStart(e) || r == 0.0
    requires PowerLossDefined(e, Accelerated(e, current, deltaTime))
    ensures current <= CalculateRPM(e, current, true, deltaTime, r) <= e.maxRPM
    ensures e.throttleResponse * (e.revUpRate * deltaTime) <= 1.0 ==>
      Accelerated(e, current, deltaTime) <= e.maxRPM
  {
    var k := e.throttleResponse * (e.revUpRate * deltaTime);
    MulNonneg(e.revUpRate, deltaTime);
    MulNonneg(e.throttleResponse, e.revUpRate * deltaTime);
    MulNonneg(e.maxRPM - current, e.throttleResponse);
    MulNonneg((e.maxRPM - current) * e.throttleResponse, e.revUpRate * deltaTime);
    if k <= 1.0 {
      MulNonneg(e.maxRPM - current, 1.0 - k);
    }
    var a := Accelerated(e, current, deltaTime);
    if r == 0.0 && a > PowerLossStart(e) {
      assert PowerLoss(e, a, r) == 0.0 * ZoneProgress(e, a) * 500.0;
    }
  }

  /** The release step's decay factor `0.1 * revDownRate * deltaTime` lies
      within `[0, 2]`, so the step does not overshoot idle by more than the
      distance it started at. */
  predicate GentleDecay(e: EngineConfig, deltaTime: real)
  {
    0.0 <= 0.1 * (e.revDownRate * deltaTime) <= 2.0
  }

  /** Off throttle, an RPM inside the idle band stays inside it whenever the
      frame's decay factor `0.1 * revDownRate * deltaTime` is at most 2: the
      decayed value cannot leave the band upwards, so a fresh idle sample is
      taken. */
  lemma IdleBandKept(e: EngineConfig, current: real, deltaTime: real, r: real)
    requires IsSample(r) && e.idleFluctuation >= 0.0
    requires e.idleRPM - e.idleFluctuation <= current <= e.idleRPM + e.idleFluctuation
    requires GentleDecay(e, deltaTime)
    ensures CalculateRPM(e, current, false, deltaTime, r) == IdleVariation(e, r)
    ensures e.idleRPM - e.idleFluctuation <= CalculateRPM(e, current, false, deltaTime, r) <= e.idleRPM + e.idleFluctuation
  {
    var q := 1.0 - 0.1 * (e.revDownRate * deltaTime);
    MulWithinBand(current - e.idleRPM, q, e.idleFluctuation);
  }

  /** With the default options at 60 frames a second the decay factor is
      10/3, beyond the bound above: releasing the throttle at the bottom of
      the idle band (750) overshoots to about 916.67, outside the band. */
  lemma IdleBandEscapesAtSixtyFrames()
    ensures CalculateRPM(DefaultEngine, 750.0, false, 1.0 / 60.0, 0.0) > 850.0
  {
    var e := DefaultEngine;
    assert Decayed(e, 750.0, 1.0 / 60.0) == 750.0 + 5.0 * 2000.0 / 60.0;
  }

  /** With the default options at 60 frames a second the throttle step is 7.5
      times the gap to `maxRPM`, so the power loss is computed far beyond the
      zone and a high draw drives the RPM below zero: from idle (800) with
      `r = 0.99` the next RPM is -3610. */
  lemma ThrottleOvershootsAtSixtyFrames()
    ensures PowerLossDefined(DefaultEngine, Accelerated(DefaultEngine, 800.0, 1.0 / 60.0))
    ensures CalculateRPM(DefaultEngine, 800.0, true, 1.0 / 60.0, 0.99) == -3610.0
  {
    var e := DefaultEngine;
    assert Accelerated(e, 800.0, 1.0 / 60.0) == 54800.0;
    assert PowerLossStart(e) == 7600.0;
    assert ZoneProgress(e, 54800.0) == 118.0;
  }

  // ---------------------------------------------------------------------------
  // Several frames with the throttle held in one position
  // ---------------------------------------------------------------------------

  /** One animation frame: its duration in seconds and the random draw it uses. */
  datatype Frame = Frame(deltaTime: real, sample: real)

  predicate ValidFrames(frames: seq<Frame>)
  {
    forall i | 0 <= i < |frames| :: IsSample(frames[i].sample)
  }

  /** The power-loss zone is not empty, so every throttle-on frame is defined. */
  predicate HasLossZone(e: EngineConfig)
  {
    PowerLossStart(e) != e.maxRPM
  }

  /** The RPM after the frames in order, the throttle unchanged throughout:
      capped at `maxRPM` under throttle and never below the idle band
      without it, once at least one frame has passed. */
  function Run(e: EngineConfig, rpm: real, throttle: bool, frames: seq<Frame>): (final: real)
    requires (throttle ==> HasLossZone(e)) && ValidFrames(frames)
    ensures |frames| == 0 ==> final == rpm
    ensures |frames| > 0 && throttle ==> final <= e.maxRPM
    ensures |frames| > 0 && !throttle && e.idleFluctuation >= 0.0 ==> final >= e.idleRPM - e.idleFluctuation
    decreases |frames|
  {
    if |frames| == 0 then rpm
    else
      var last := frames[|frames| - 1];
      CalculateRPM(e, Run(e, rpm, throttle, frames[..|frames| - 1]), throttle, last.deltaTime, last.sample)
  }

  /** Running two batches of frames one after the other is running them
      together: a run depends only on the RPM it starts from. */
  lemma {:induction false} RunCompose(e: EngineConfig, rpm: real, throttle: bool, first: seq<Frame>, second: seq<Frame>)
    requires (throttle ==> HasLossZone(e)) && ValidFrames(first) && ValidFrames(second)
    ensures ValidFrames(first + second)
    ensures Run(e, rpm, throttle, first + second) == Run(e, Run(e, rpm, throttle, first), throttle, second)
    decreases |second|
  {
    var all := first + second;
    assert ValidFrames(all) by {
      forall i | 0 <= i < |all| ensures IsSample(all[i].sample) {
        if i < |first| { assert all[i] == first[i]; } else { assert all[i] == second[i - |first|]; }
      }
    }
    if |second| == 0 {
      assert all == first;
    } else {
      var init := second[..|second| - 1];
      assert ValidFrames(init) by {
        forall i | 0 <= i < |init| ensures IsSample(init[i].sample) {
          assert init[i] == second[i];
        }
      }
      RunCompose(e, rpm, throttle, first, init);
      assert all[..|all| - 1] == first + init;
      assert all[|all| - 1] == second[|second| - 1];
    }
  }

  /** However long the throttle is held, the RPM shown never exceeds `maxRPM`
      after the first frame. */
  lemma RunThrottleCapped(e: EngineConfig, rpm: real, frames: seq<Frame>)
    requires HasLossZone(e) && ValidFrames(frames) && |frames| > 0
    ensures Run(e, rpm, true, frames) <= e.maxRPM
  {
  }

  /** Off throttle, frames whose decay factor stays within `[0, 2]` keep an
      RPM that starts in the idle band inside it. */
  lemma {:induction false} RunIdleKept(e: EngineConfig, rpm: real, frames: seq<Frame>)
    requires ValidFrames(frames) && e.idleFluctuation >= 0.0
    requires e.idleRPM - e.idleFluctuation <= rpm <= e.idleRPM + e.idleFluctuation
    requires forall i | 0 <= i < |frames| :: GentleDecay(e, frames[i].deltaTime)
    ensures e.idleRPM - e.idleFluctuation <= Run(e, rpm, false, frames) <= e.idleRPM + e.idleFluctuation
    decreases |frames|
  {
    if |frames| > 0 {
      var init := frames[..|frames| - 1];
      assert ValidFrames(init) by {
        forall i | 0 <= i < |init| ensures IsSample(init[i].sample) {
          assert init[i] == frames[i];
        }
      }
      assert forall i | 0 <= i < |init| :: GentleDecay(e, init[i].deltaTime) by {
        forall i | 0 <= i < |init| ensures GentleDecay(e, init[i].deltaTime) {
          assert init[i] == frames[i];
        }
      }
      RunIdleKept(e, rpm, init);
      var n := |frames| - 1;
      assert IsSample(frames[n].sample) && GentleDecay(e, frames[n].deltaTime);
      IdleBandKept(e, Run(e, rpm, false, init), frames[n].deltaTime, frames[n].sample);
    }
  }

  // ---------------------------------------------------------------------------
  // The hook's state
  // ---------------------------------------------------------------------------

  /** The state behind `useEngineRev`: the RPM shown and whether the throttle
      is held. */
  class EngineState {
    const config: EngineConfig
    var rpm: real
    var isRevving: bool

    /** The engine starts at idle with the throttle released. */
    constructor(config: EngineConfig)
      ensures this.config == config
      ensures rpm == config.idleRPM && !isRevving
    {
      this.config := config;
      rpm := config.idleRPM;
      isRevving := false;
    }

    /** `startRevving`: press the throttle; pressing it again changes nothing. */
    method StartRevving()
      modifies this`isRevving
      ensures isRevving
      ensures rpm == old(rpm)
    {
      isRevving := true;
    }

    /** `stopRevving`: release the throttle; releasing it again changes nothing. */
    method StopRevving()
      modifies this`isRevving
      ensures !isRevving
      ensures rpm == old(rpm)
    {
      isRevving := false;
    }

    /** One animation frame of `deltaTime` seconds, drawing `r`. */
    method Tick(deltaTime: real, r: real)
      requires IsSample(r)
      requires isRevving ==> PowerLossDefined(config, Accelerated(config, rpm, deltaTime))
      modifies this`rpm
      ensures rpm == CalculateRPM(config, old(rpm), isRevving, deltaTime, r)
      ensures isRevving ==> rpm <= config.maxRPM
    {
      rpm := CalculateRPM(config, rpm, isRevving, deltaTime, r);
    }

    /** `isInRedLine`. */
    function IsInRedLine(): (inRedLine: bool)
      reads this
      ensures inRedLine <==> rpm >= config.redLine
    {
      rpm >= config.redLine
    }
  }
}
