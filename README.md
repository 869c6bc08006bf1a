# Gauge maths and dashboard simulation, modelled in Dafny

This project models the arithmetic behind the dashboard gauges: the
React hooks that map a value onto a needle angle, pick "nice" tick
increments and lay out major and minor tick marks, animate the needle
towards its target, simulate engine RPM under throttle, drive a looping
demo value, and convert temperatures. Numbers are exact `real`s.

- `arith.dfy` (`Arith`): `Math.abs/min/max/floor/ceil` on reals and small
  lemmas about products and quotients.
- `gauge.dfy` (`Gauge`): `valueToAngle`, `angleToValue`,
  `calculateRoundingIncrement`, `generateTicks` (a method with the source's
  nested loops, proved against recursive specification functions), the
  per-frame animation step, and a `GaugeState` class with the hook's
  `value`/`targetValue` state.
- `engine.dfy` (`EngineRev`): `getIdleVariation`, `calculatePowerLoss`,
  `calculateRPM`, runs of several frames, and an `EngineState` class with
  `rpm`/`isRevving`, `startRevving`, `stopRevving`, a per-frame `Tick` and
  `isInRedLine`.
- `looping.dfy` (`LoopingValue`): the sawtooth updater and a `Looper` class
  whose `Step` is one interval tick.
- `units.dfy` (`Units`): Fahrenheit/Celsius conversion.

`Math.random()` is an injected sample `r` with `0 <= r < 1`. One transition
of `calculateRPM` draws at most one sample on every path, so one `r` per
frame is exact. `Math.floor(Math.log10(x))` is `Magnitude(x)`, the unique
integer `m` with `10^m <= x < 10^(m+1)`.

Where the code does not do what its names and comments suggest, the model
follows the code:

- `angleToValue` is not the inverse of `valueToAngle`. Its formula reads the
  angle as `-angle - 90`. The model proves the round trip for the mirrored
  angle `-90 - a`, in both directions. It also proves that the plain round
  trip fails: on the speedometer's configuration, 80 maps to -15 degrees
  and -15 degrees maps back to 240/7.
- The idle band is not kept for every frame time. Off throttle, an RPM in
  `idleRPM ± idleFluctuation` stays there only while
  `0.1 * revDownRate * deltaTime` is at most 2. With the default options at
  60 frames a second that factor is 10/3, and the RPM jumps from 750 to
  about 916.67.
- The RPM is not kept above idle under throttle. With the default options
  at 60 frames a second, one throttle frame from idle overshoots to 54800
  before power loss. The loss is then scaled by a zone progress of 118, and
  a draw of 0.99 gives -3610 RPM.

## Model

| member | source | states |
|---|---|---|
| Gauge.ValueToAngle | src/hooks/useGauge.ts:28-34 | with `min < max` the angle lies between `startAngle` and `endAngle`; it is `startAngle` for every value at or below `min` and `endAngle` for every value at or above `max` |
| Gauge.ValueToAngleInRange | src/hooks/useGauge.ts:28-34 | inside the range the clamped needle mapping equals the unclamped formula `generateTicks` uses for tick angles |
| Gauge.ValueToAngleMonotone | src/hooks/useGauge.ts:30-33 | the angle is non-decreasing in the value when `endAngle >= startAngle` and non-increasing otherwise |
| Gauge.ValueToAngleMidpoint | src/hooks/useGauge.ts:30-33 | the middle of the value range maps to the middle of the sweep |
| Gauge.SpeedometerMidpoint | src/components/Speedometer.tsx:14-19 | on the 0..160, -120..90 speedometer, 80 maps to -15 degrees |
| Gauge.AngleToValue | src/hooks/useGauge.ts:37-41 | `-90 - startAngle` maps to `minValue` and `-90 - endAngle` maps to `maxValue` |
| Gauge.AngleToValueAffine | src/hooks/useGauge.ts:37-41 | the map is affine: a difference of angles gives a proportional, negated difference of values |
| Gauge.AngleToValueUndoesValueToAngle | src/hooks/useGauge.ts:28-41 | for every value in the range, `angleToValue(-90 - valueToAngle(v)) == v` |
| Gauge.ValueToAngleUndoesAngleToValue | src/hooks/useGauge.ts:28-41 | for every angle of the sweep, `valueToAngle(angleToValue(-90 - a)) == a` |
| Gauge.AngleToValueIsNotPlainInverse | src/hooks/useGauge.ts:37-41 | without the mirroring the maps are not inverse: -15 degrees maps back to 240/7, not 80 |
| Gauge.TickAngleEnds | src/hooks/useGauge.ts:118-119 | the per-tick angle formula takes `minValue` to `startAngle` and `maxValue` to `endAngle`, in either orientation |
| Gauge.Pow10 | src/hooks/useGauge.ts:85 | `Math.pow(10, m)` is positive |
| Gauge.Pow10Monotone | src/hooks/useGauge.ts:84-85 | powers of ten grow with the exponent |
| Gauge.Magnitude | src/hooks/useGauge.ts:84 | `floor(log10 x)` is an integer `m` with `10^m <= x < 10^(m+1)` |
| Gauge.MagnitudeUnique | src/hooks/useGauge.ts:84 | exactly one integer has that property |
| Gauge.NearestUpTo | src/hooks/useGauge.ts:89-91 | the reduce's result is a candidate no farther from the target than any other, and strictly nearer than every earlier one |
| Gauge.NearestIsEarliestNearest | src/hooks/useGauge.ts:89-91 | the reduce picks the earliest of the nearest candidates |
| Gauge.EarliestNearestUnique | src/hooks/useGauge.ts:89-91 | the earliest nearest candidate is unique, so ties go to the earlier candidate |
| Gauge.RoundingIncrement | src/hooks/useGauge.ts:79-94 | the increment is positive |
| Gauge.SnappedIncrement | src/hooks/useGauge.ts:85-93 | snapping the normalised step to a nice number and scaling it back gives a positive increment |
| Gauge.SnappedIncrementIsNearestNice | src/hooks/useGauge.ts:85-93 | the snapped increment is `nice * 10^m` for the earliest candidate nearest to the normalised step |
| Gauge.RoundingIncrementIsNearestNice | src/hooks/useGauge.ts:83-93 | the increment is `nice * 10^m`, with `m` the magnitude of the rough step and `nice` the earliest candidate nearest to the normalised step |
| Gauge.RoundingIncrementNearRough | src/hooks/useGauge.ts:83-93 | the increment lies between 2/3 and 4/3 of the rough step `range / (count - 1)` |
| Gauge.IncrementHundredSixTicks | src/hooks/useGauge.ts:83-93 | range 100 with 6 requested ticks gives increment 20 |
| Gauge.IncrementTemperatureGauge | src/components/TemperatureGague.tsx:10-17 | the increment algorithm on the temperature gauge's configuration (the component itself draws through another hook): range 320 with 4 requested ticks gives increment 100 |
| Gauge.IncrementSpeedometer | src/components/Speedometer.tsx:14-20 | range 160 with 15 requested ticks gives increment 10 |
| Gauge.GenerateTicks | src/hooks/useGauge.ts:97-138 | the ticks built are the major and minor tick sequences of the nice increment, and empty when the range is empty or fewer than two ticks are requested |
| Gauge.PushTicks | src/hooks/useGauge.ts:111-135 | the nested loops push exactly the major ticks from `startVal` and the `minorTicksPerMajor` minor ticks after every major tick but the last |
| Gauge.PushMinorRun | src/hooks/useGauge.ts:125-133 | the inner loop appends exactly the `minorTicksPerMajor` minor ticks of run `i`, at `tickValue + j * increment / (minorTicksPerMajor + 1)` for `j = 1..minorTicksPerMajor` |
| Gauge.MajorEnds | src/hooks/useGauge.ts:111-112 | `startVal` is at or above `minValue` by less than one increment, and `endVal` at or below `maxValue` by less than one increment |
| Gauge.MajorCount | src/hooks/useGauge.ts:113-114 | `actualMajorTickCount` equals the number of integers from `ceil(min/inc)` to `floor(max/inc)` |
| Gauge.MajorTicksUpTo | src/hooks/useGauge.ts:116-121 | the first `n` major ticks are `n` ticks, tick `i` at value `startVal + i * increment` and its angle |
| Gauge.MajorTicks | src/hooks/useGauge.ts:111-121 | for an upward range there are `floor(max/inc) - ceil(min/inc) + 1` major ticks, tick `i` at value `startVal + i * increment` |
| Gauge.MinorTicks | src/hooks/useGauge.ts:123-134 | no minor ticks with at most one major tick; otherwise `minorTicksPerMajor` for each major tick but the last |
| Gauge.MajorValueInRange | src/hooks/useGauge.ts:116-117 | every `startVal + i * increment` with `i` below the count lies inside the range |
| Gauge.MajorCountIsMultiples | src/hooks/useGauge.ts:111-114 | `actualMajorTickCount` is `floor(max/inc) - ceil(min/inc) + 1` and never negative |
| Gauge.MajorTickValueAt | src/hooks/useGauge.ts:116-121 | major tick `i` has value `startVal + i * increment`, inside the range |
| Gauge.MajorTickAngleAt | src/hooks/useGauge.ts:117-121 | a major tick is drawn at `valueToAngle` of its value |
| Gauge.MajorTicksCount | src/hooks/useGauge.ts:111-116 | the number of major ticks is `floor(max/inc) - ceil(min/inc) + 1`; there are none exactly when `startVal > endVal` |
| Gauge.MajorTicksSpaced | src/hooks/useGauge.ts:116-121 | every major tick is `startVal + i * increment`, lies in the range and is drawn at the needle's angle for its value |
| Gauge.MajorTicksAscending | src/hooks/useGauge.ts:116-121 | the major tick values are strictly ascending |
| Gauge.MajorTicksEmpty | src/hooks/useGauge.ts:111-116 | there are no major ticks exactly when `startVal > endVal` |
| Gauge.MajorTicksAreAllMultiples | src/hooks/useGauge.ts:111-121 | a multiple of the increment lies in the range if and only if it is a major tick, at the expected index |
| Gauge.MinorTicksAfterAt | src/hooks/useGauge.ts:124-133 | minor tick `j` after major `i` is at index `i * minorTicksPerMajor + j` with value `tickValue + (j + 1) * minorIncrement` |
| Gauge.MinorValueBetween | src/hooks/useGauge.ts:125-127 | each minor value lies strictly between its two neighbouring major values, and the minor values rise |
| Gauge.MinorTicksBetweenMajors | src/hooks/useGauge.ts:124-133 | there are `(majorCount - 1) * minorTicksPerMajor` minor ticks; each lies strictly between its neighbouring majors and is drawn at `valueToAngle` of its value |
| Gauge.MinorTicksNeedTwoMajors | src/hooks/useGauge.ts:124 | with at most one major tick there are no minor ticks |
| Gauge.TicksHundredSix | src/hooks/useGauge.ts:105-121 | 0..100 with 6 requested ticks gives majors 0, 20, 40, 60, 80, 100 |
| Gauge.TicksTemperatureGauge | src/components/TemperatureGague.tsx:10-17 | the tick generator on the temperature gauge's configuration (the component itself draws through another hook): 0..320 with 4 requested ticks gives majors 0, 100, 200, 300 |
| Gauge.TicksSpeedometer | src/components/Speedometer.tsx:14-20 | 0..160 with 15 requested ticks gives 17 majors from 0 to 160 |
| Gauge.AnimationStep | src/hooks/useGauge.ts:143-147 | a frame never passes the target; within 0.1 it lands on the target, otherwise it leaves nine tenths of the distance |
| Gauge.Animate | src/hooks/useGauge.ts:141-151 | after any number of frames the needle is between its start and the target, and no farther from the target than it began |
| Gauge.AnimateConverges | src/hooks/useGauge.ts:141-151 | after `n` frames the needle is between its start and the target and at most `0.9^n` of the initial distance away |
| Gauge.ShrunkIsGeometric | src/hooks/useGauge.ts:144 | shrinking by nine tenths `n` times is multiplying by `0.9^n` |
| Gauge.AnimateShrinks | src/hooks/useGauge.ts:141-151 | after `n` frames the distance to the target is at most the initial distance shrunk `n` times |
| Gauge.AnimateMonotone | src/hooks/useGauge.ts:143-147 | each frame moves the needle towards the target and never away from it |
| Gauge.AnimateStaysAtTarget | src/hooks/useGauge.ts:145-146 | once on the target the needle stays there |
| Gauge.AnimateSettles | src/hooks/useGauge.ts:143-147 | the needle lands exactly on the target one frame after `0.9^n` times the initial distance drops to 0.1 |
| Gauge.PowBernoulli | src/hooks/useGauge.ts:144 | `0.9^n * (9 + n) <= 9`, so the remaining distance shrinks at least like `9 / (9 + n)` |
| Gauge.AnimateReachesTarget | src/hooks/useGauge.ts:141-151 | from any start the needle lands exactly on the target after finitely many frames |
| Gauge.GaugeState.constructor | src/hooks/useGauge.ts:22-25 | value and target both start at the initial value |
| Gauge.GaugeState.SetValue | src/hooks/useGauge.ts:155 | `setValue` changes only the target |
| Gauge.GaugeState.AnimationFrame | src/hooks/useGauge.ts:141-151 | one frame moves `value` by the animation step and keeps it between its old value and the target |
| Gauge.GaugeState.Angle | src/hooks/useGauge.ts:156 | the needle angle is `valueToAngle` of the shown value, inside the sweep when the range runs upwards |
| EngineRev.IdleVariation | src/hooks/useEngineRev.ts:28-31 | with `idleFluctuation >= 0` the idle sample lies in `[idleRPM - idleFluctuation, idleRPM + idleFluctuation]`, and with `idleFluctuation > 0` strictly below the upper end |
| EngineRev.IdleVariationCovers | src/hooks/useEngineRev.ts:28-31 | with `idleFluctuation > 0`, every RPM of `[idleRPM - idleFluctuation, idleRPM + idleFluctuation)` is the sample of some draw |
| EngineRev.IdleVariationMonotone | src/hooks/useEngineRev.ts:29-30 | with `idleFluctuation >= 0`, a larger draw never gives a lower idle sample |
| EngineRev.ZoneProgress | src/hooks/useEngineRev.ts:36-40 | progress is 1 at `maxRPM`; when the zone starts below `maxRPM` it is positive above the start |
| EngineRev.PowerLoss | src/hooks/useEngineRev.ts:34-48 | no loss up to `maxRPM * powerLossThreshold`; when that start lies below `maxRPM`, the loss above it is in `[0, 500 * progress)` |
| EngineRev.PowerLossZoneShape | src/hooks/useEngineRev.ts:36 | for a positive `maxRPM` the loss zone starts below it exactly when the threshold is below 1, and is empty exactly when the threshold is 1 |
| EngineRev.PowerLossMonotone | src/hooks/useEngineRev.ts:36-45 | when the zone starts below `maxRPM`, for a fixed draw the loss grows with the RPM |
| EngineRev.PowerLossCovers | src/hooks/useEngineRev.ts:39-43 | when the zone starts below `maxRPM`, every loss in `[0, 500 * progress)` at an RPM above the start is the loss of some draw |
| EngineRev.Accelerated | src/hooks/useEngineRev.ts:54-55 | the throttle step closes the gap to `maxRPM` by the factor `throttleResponse * revUpRate * deltaTime` |
| EngineRev.Decayed | src/hooks/useEngineRev.ts:64-65 | the release step closes the distance to `idleRPM` by the factor `0.1 * revDownRate * deltaTime` |
| EngineRev.CalculateRPM | src/hooks/useEngineRev.ts:50-74 | under throttle the result never exceeds `maxRPM`; it is the accelerated RPM capped at `maxRPM` when that is at or below the zone start, and above the start it lies between `min(a - 500 * progress, maxRPM)` and `min(a, maxRPM)` for the accelerated RPM `a`; off throttle it is a fresh idle sample when the decayed RPM is at most `idleRPM + idleFluctuation`, otherwise the larger of the decayed RPM and an idle sample, and, when `idleFluctuation >= 0`, never below `idleRPM - idleFluctuation` |
| EngineRev.ThrottleNeverDecreases | src/hooks/useEngineRev.ts:52-61 | under throttle from at most `maxRPM`, with non-negative rates and time and no loss drawn, the RPM does not drop and stays at most `maxRPM` |
| EngineRev.IdleBandKept | src/hooks/useEngineRev.ts:62-70 | off throttle, with `idleFluctuation >= 0`, an RPM in the idle band stays in it (as a fresh idle sample) when the decay factor is within `[0, 2]` |
| EngineRev.IdleBandEscapesAtSixtyFrames | src/hooks/useEngineRev.ts:15-22 | with the default options at 60 frames a second, the RPM leaves the idle band from 750 |
| EngineRev.Run | src/hooks/useEngineRev.ts:86-101 | with no frames the RPM is unchanged; after at least one frame it is at most `maxRPM` under throttle, and without throttle at least `idleRPM - idleFluctuation` when `idleFluctuation >= 0` |
| EngineRev.RunCompose | src/hooks/useEngineRev.ts:86-101 | running two batches of frames one after the other is running their concatenation |
| EngineRev.ThrottleOvershootsAtSixtyFrames | src/hooks/useEngineRev.ts:52-61 | with the default options at 60 frames a second, one throttle frame from idle with draw 0.99 gives -3610 |
| EngineRev.RunThrottleCapped | src/hooks/useEngineRev.ts:86-101 | with the throttle held, the RPM never exceeds `maxRPM` after the first frame |
| EngineRev.RunIdleKept | src/hooks/useEngineRev.ts:86-101 | off throttle, with `idleFluctuation >= 0` and from an RPM in the idle band, frames whose decay factor lies within `[0, 2]` keep the RPM in the band, whatever the power-loss settings |
| EngineRev.EngineState.constructor | src/hooks/useEngineRev.ts:24-25 | the engine starts at `idleRPM` with the throttle released |
| EngineRev.EngineState.StartRevving | src/hooks/useEngineRev.ts:103-105 | sets `isRevving`, leaves `rpm` unchanged |
| EngineRev.EngineState.StopRevving | src/hooks/useEngineRev.ts:107-109 | clears `isRevving`, leaves `rpm` unchanged |
| EngineRev.EngineState.Tick | src/hooks/useEngineRev.ts:90-95 | one frame sets `rpm` to `calculateRPM` of the old RPM and the throttle flag, at most `maxRPM` while revving |
| EngineRev.EngineState.IsInRedLine | src/hooks/useEngineRev.ts:118 | holds exactly when `rpm >= redLine` |
| LoopingValue.NextValue | src/hooks/useLoopingValue.ts:21-22 | the next value is `current + step` unless that passes `maxValue`, when it is `minValue`; from at or above `minValue`, with a non-negative step and `minValue <= maxValue`, it lies in the range |
| LoopingValue.Steps | src/hooks/useLoopingValue.ts:19-26 | after at least one tick from any start at or above `minValue`, with a non-negative step and `minValue <= maxValue`, the value lies in the range |
| LoopingValue.StepsCompose | src/hooks/useLoopingValue.ts:19-26 | `a + b` ticks are `a` ticks followed by `b` ticks |
| LoopingValue.StepsInRange | src/hooks/useLoopingValue.ts:21-22 | with a non-negative step, every value reached from a value in the range stays in the range |
| LoopingValue.ClimbFromMin | src/hooks/useLoopingValue.ts:16-23 | with a positive step, from `minValue`, after `k` ticks the value is `minValue + k * step` while that does not pass `maxValue` |
| LoopingValue.TopIndex | src/hooks/useLoopingValue.ts:21-22 | with a positive step and `minValue <= maxValue`, the last index before the wrap is the number of whole steps that fit in the range |
| LoopingValue.WrapAfterTop | src/hooks/useLoopingValue.ts:21-22 | with a positive step and `minValue <= maxValue`, the tick after the top value returns to `minValue` |
| LoopingValue.Periodic | src/hooks/useLoopingValue.ts:16-23 | with a positive step and `minValue <= maxValue`, the values repeat with a period of `TopIndex + 1` ticks |
| LoopingValue.Looper.constructor | src/hooks/useLoopingValue.ts:16 | the value starts at `minValue` |
| LoopingValue.Looper.Step | src/hooks/useLoopingValue.ts:20-23 | one tick applies the updater; from at or above `minValue`, with a non-negative step and `minValue <= maxValue`, the value lies in the range |
| Units.ToCelsius | src/lib.ts:1-3 | `9 * celsius == 5 * (fahrenheit - 32)` |
| Units.ToFahrenheit | src/lib.ts:5-7 | `5 * (fahrenheit - 32) == 9 * celsius` |
| Units.CelsiusRoundTrip | src/lib.ts:1-7 | converting to Fahrenheit and back returns the Celsius value |
| Units.FahrenheitRoundTrip | src/lib.ts:1-7 | converting to Celsius and back returns the Fahrenheit value |
| Units.FixedPoints | src/lib.ts:1-7 | 0 C is 32 F, 100 C is 212 F, and -40 is the only temperature equal on both scales |
| Units.StrictlyIncreasing | src/lib.ts:1-7 | both conversions are strictly increasing |

## Left out

- `calculateArcPath` and `calculateSegmentPath` (src/hooks/useGauge.ts:44-76): trigonometry and SVG path strings.
- The React components: they only draw and wire the hooks together.
- `requestAnimationFrame`, `performance.now()` and `setInterval`: a frame is a method call. The engine's frame duration is a `deltaTime` parameter of `EngineState.Tick`; the needle animation and the looping value take no duration, as in the source.
- The `setInterval` period `duration / ((maxValue - minValue) / step)`: it only sets how often the looping value ticks.
- The `Math.random()` generator: each draw is a parameter `r` with `0 <= r < 1`.
- IEEE-754 rounding, `Infinity` and `NaN`: numbers are exact reals. The inputs for which the source computes `NaN` or `Infinity` are excluded by preconditions or modelled as empty results, as follows.
- Gauge.ValueToAngle: requires `minValue != maxValue`, because the source divides by zero there.
- Gauge.AngleToValue: requires `startAngle != endAngle`, because the source divides by zero there.
- Gauge.RoundingIncrement: requires a positive range and at least two ticks, because otherwise `log10` of a non-positive or infinite step gives `NaN` or `Infinity`.
- Gauge.GenerateTicks: returns no ticks when `minValue >= maxValue` or fewer than two ticks are requested, where the source's loop bound is `NaN` or the increment not finite. `minorTicksPerMajor` is a natural number, since a negative count only ever yields no minor ticks.
- Gauge.GaugeState.Angle: requires `minValue != maxValue`, because the source divides by zero there; the angle lies inside the sweep only for an upward range, as in `ValueToAngle`.
- EngineRev.PowerLoss: requires a non-empty power-loss zone (`maxRPM * powerLossThreshold != maxRPM`) whenever the RPM is above its start, because the source divides by zero there.
- EngineRev.CalculateRPM and EngineRev.EngineState.Tick carry the same requirement for the accelerated RPM under throttle.
- EngineRev.Run: under throttle requires a non-empty power-loss zone, so that every frame's accelerated RPM satisfies that requirement whatever it reaches.
- The engine options are unchecked numbers. The bounds on the idle sample, the power loss and the RPM hold only for a non-negative `idleFluctuation` and a power-loss zone that starts below `maxRPM`. The option comments at src/hooks/useEngineRev.ts:21-22 describe exactly these settings: an RPM variation, and a fraction of `maxRPM`. Each row above names the hypothesis its contract carries.
- The hook's `redLine` and `maxRPM` return values are plain configuration and are read from `EngineState.config`.
