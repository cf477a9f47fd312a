# Verification model of the pgov control daemon

`pgov` is a scheduler daemon: it reads CPU pressure, temperature, battery and display state, filters
them in fixed-point arithmetic, and steers six kernel scheduler tunables. This project models its
control loop, its stateful write-back and its run-level state machines in Dafny 4.11 and proves
properties of the model for every input and every run. `dafny verify dfyconfig.toml` checks all of it.

How the model is built:

- C code that computes a value is a function; objects that are updated in place (the filter, the load
  state, the write cache, the property table, the poll state, the PSI monitor, the limiter, the context)
  are classes with the same fields; loops over buffers are methods with loops. Each method is tied to a
  function of the old state, and the lemmas are about those functions.
- Machine arithmetic is explicit (`Machine`): 32- and 64-bit sums, products and narrowing conversions
  wrap (`W32`, `W64`, `U32`, `U64`), C division truncates (`TruncDiv`), a right shift of a signed value
  is floor division. Signed sums that C leaves undefined on overflow are taken to wrap, as
  docs/ARCHITECTURE.md:193 says of the fixed-point operations; where the text below says "exact", the wrap is proved not to happen.
- System calls, clocks and the property service are oracles: their results are parameters, and what they
  do to nodes, properties and descriptors is a map. A node write either succeeds or changes nothing.
- The Android build is modelled (`NDK_BUILD`, which CMakeLists.txt:39 always defines).

Files, from the bottom up: `Machine`, `WideMul`, `Isqrt`, `FixedPoint`, `AlgSigOrder`, `Quantizer` (arithmetic);
`Kalman`, `KalmanReal` (the filter in fixed point and in exact real arithmetic), `KalmanNear`, `KalmanPosterior`,
`KalmanTrack` (how far apart the two are: covariance of a prediction and of a correction, estimate and noise of a whole
update); `LoadDemand`, `DemandLaws` (the load model and its laws); `Tune`, `Shaping`, `Mapping` (from pressure to
the six values and their writes); `Bytes`, `NumText`, `Conf`, `Props` (text and configuration); `Sysfs`, `Restore`
(write cache and restore); `Time`, `Psi`, `Poll`, `LogLimit`, `Display`, `Descriptors`, `Ledger`, `Governor` (inputs and
state machines).

What turned out differently than one would expect, with an input that shows it and the exact condition:

- The quantizer is a nearest rounding if and only if the step is even or the remainder is not the truncated
  half step; an odd step rounds up too early (`Quantizer.RoundNearest`, `Quantizer.OddStepRoundsUp`). The governor's
  step, 65536, is even.
- The algebraic sigmoid is not monotone: its rounded divisor makes 67196 give less than 67195. On the arguments from -b
  to b the order is kept if and only if b <= 67195 (`AlgSigOrder.OrderedIff`), and over all pairs of arguments the
  result never falls by more than one unit of 2^-16 (`AlgSigOrder.AlmostMono`).
- Over the reals the covariance stays symmetric and positive semidefinite on every run (`KalmanReal.Run`). In fixed
  point an update keeps it symmetric if and only if k0 * p01 rounded up equals k1 * p00 rounded down
  (`Kalman.SymmetryKept`); the first correction after a reset, a millisecond after the seeding one, never does,
  whatever is measured (`Kalman.SymmetryLost`).
- `pg_parse_u64` is exact if and only if the digit run is at most 2^64 - 1; the text of 2^64 reads as 0
  (`NumText.ParseU64`, `NumText.FoldWraps`).
- A captured boot value saturates at 2^31 - 1, so a restore is exact if and only if the boot value is at
  most that or the node was never written (`Sysfs.Cache.Restore`, `Mapping.Life`, `Sysfs.BootTooLarge`).
- The value 2^64 - 1 is the cache's own "never written" mark: cache and node agree after a run if and only if the
  last value written is not that one over another boot value (`Sysfs.RunAgrees`, `Sysfs.UnsetLooksUnwritten`). No value
  the governor computes comes near it (`Mapping.MapInBands`).
- The daemon moves its log onto descriptor 2. Started without that descriptor it may leave the log open at exit (if and
  only if 0, 1 and 2 are free, no node opens and the log does), or take a file away from the lock or a node (if and only
  if lock and nodes are enough to reach 2 and the log opens); a lock taken away is no longer held. When 2 is
  inherited, or the log itself lands on it, neither happens (`Governor.Daemon`,
  `Governor.Context.Acquire` and the witnesses beside them).
- Calm growth of the poll interval reaches 10000 ms if and only if the start is a whole number of 200 ms
  steps below it (`Poll.CalmRun`).
- The 32-bit retry comparison says "not yet" exactly when the clock lies in the half of the circle before the
  deadline; within 2^31 ms that is unbounded time (`Sysfs.HeldExactly`, `Sysfs.HeldNear`).
- An override whose value is already in force still takes one of the 64 table slots (`Props.Overrides.AddProp`);
  docs/ARCHITECTURE.md:212 describes the table as tracking overrides.
- docs/ARCHITECTURE.md names the wake-up from `Suspend` as what restarts the filter; the code does it whenever
  the display comes on, also from `Grace` and `Unknown` (`Governor.Context.UpdateDisp`). The same document says
  the capability index drives all limits; the code leaves the WALT pair and the lower utilisation limit alone
  (`Tune.Policy.TuneLimits`).

## Model

| member | source | states |
|---|---|---|
| `WideMul.Q32MulWideIsFloor` | include/pg/math.h:46-50 | the 128-bit multiply is floor(a*b / 2^32) reduced to a signed 64-bit value, and that floor itself if and only if it fits |
| `WideMul.Q32MulParts` | include/pg/math.h:52-74 | four wrapping partial products with sign corrections give the same result as the 128-bit build, for all pairs |
| `Isqrt.FloorSqrtUnique` | include/pg/math.h:88-109 | r*r <= n < (r+1)*(r+1) pins down the reference root |
| `Isqrt.IsqrtFrom` | include/pg/math.h:93-108 | the digit loop returns the exact floor root from any large enough start bit 4^k, 4^31 included |
| `Isqrt.Isqrt64` | include/pg/math.h:88-109 | with the start bit from the leading-zero count, the root of every 64-bit value is exact |
| `FixedPoint.AlgSigDen` | include/pg/math.h:144-159 | below saturation nothing overflows and the root used as divisor is at least abs(x) and at least 1 |
| `FixedPoint.AlgSigRange` | include/pg/math.h:144-159 | the algebraic sigmoid keeps the sign of x and stays in [-1, 1] for every x |
| `FixedPoint.AlgSigOdd` | include/pg/math.h:144-159 | the algebraic sigmoid is odd |
| `AlgSigOrder.AlmostMono` | include/pg/math.h:144-159 | for every pair x <= y the result for x exceeds that for y by at most one unit of 2^-16 |
| `AlgSigOrder.NearExact` | include/pg/math.h:144-159 | between 0 and 180 the result is x / sqrt(1 + x^2) up to one unit of 2^-16, either way |
| `AlgSigOrder.Falls` | include/pg/math.h:144-159 | the first fall: 67196 gives less than 67195 |
| `AlgSigOrder.OrderKept` | include/pg/math.h:144-159 | for -67195 <= x <= y <= 67195 (about 1.025) the result for x is at most that for y |
| `AlgSigOrder.OrderedIff` | include/pg/math.h:144-159 | the order is kept on all arguments from -b to b if and only if b <= 67195 |
| `FixedPoint.SigmoidIsSoft` | include/pg/math.h:119-127 | where its argument fits, the sigmoid is the truncated softsign rescaled to [0, 1] |
| `FixedPoint.SigmoidMono` | include/pg/math.h:119-127 | for a non-negative slope, and where nothing overflows, the truncating sigmoid never falls as its argument rises |
| `FixedPoint.DecayRange` | include/pg/math.h:129-142 | the decay stays in [0, 1] for all arguments |
| `FixedPoint.DecayAntitone` | include/pg/math.h:129-142 | for a non-negative coefficient, and where neither product wraps, a larger argument never decays less, through all three branches |
| `FixedPoint.LerpRange` | include/pg/math.h:190-194 | an interpolation with a factor in [0, 1] is the exact floor and lies between its ends, in either order |
| `FixedPoint.MulOrder` | include/pg/math.h:33-36 | the flooring multiply keeps order when neither product wraps |
| `FixedPoint.DivUnitAbs` | include/pg/math.h:38-44 | a quotient of magnitude at most 1 is exact, keeps its sign and does not wrap |
| `Quantizer.PowerTest` | include/pg/math.h:180 | step & (step - 1) is zero exactly for powers of two |
| `Quantizer.MaskLow` | include/pg/math.h:180-181 | the and with the complement mask drops the remainder |
| `Quantizer.SanQuantIsRound` | include/pg/math.h:170-188 | for every value, fallback and step both paths are the remainder-based rounding (none for steps 0 and 1), and neither result wraps |
| `Quantizer.RoundNearest` | include/pg/math.h:183-187 | the result is a multiple of the step, and a nearest one exactly outside the odd-step case |
| `Quantizer.OddStepRoundsUp` | include/pg/math.h:183-187 | an input for the odd-step case: 15 ns become 31 at step 31 |
| `Quantizer.SanQuantMono` | include/pg/math.h:170-188 | for non-negative values and any step above 1 quantization keeps order |
| `Quantizer.SanU64Mono` | include/pg/math.h:161-168 | below the value whose rounding overflows the integer sanitizer rounds to nearest and keeps order |
| `Kalman.Filter.Reset` | src/core/kalman.c:11-27 | a reset gives the initial state |
| `Kalman.Filter.AdaptNoise` | src/core/kalman.c:75-98 | the in-place noise adaptation is the specified one and touches nothing else |
| `Kalman.Filter.Update` | src/core/kalman.c:29-121 | the whole update in place is the specified step and returns the non-negative position |
| `Kalman.CovStep` | src/core/kalman.c:75-91 | the innovation average is the exact weighted sum of the clamped squared innovation, does not wrap and stays in [0, 400] |
| `Kalman.StepEnvelope` | src/core/kalman.c:29-121 | one update from any covariance keeps cov_y in [0, 400], r in [0.1, 50], q in [0.01, 20] |
| `Kalman.RunEnvelope` | src/core/kalman.c:11-121 | the same over every run from reset, for any measurements and any time steps |
| `Kalman.LongGapForgets` | src/core/kalman.c:34-42 | a gap over 5 s makes the result independent of the state before |
| `Kalman.GainUnit` | src/core/kalman.c:100-104 | whenever the predicted variance is non-negative and in range, 0 <= k0 <= 1 |
| `Kalman.CorrectionIsConvex` | src/core/kalman.c:100-111 | then the estimate lies between prediction and measurement and the variance does not grow |
| `Kalman.LargeInnovation` | src/core/kalman.c:75-91 | an innovation of 20 or more forces the innovation variance to at least 19.99 |
| `Kalman.NisNeverWraps` | src/core/kalman.c:75-118 | narrowing the NIS to Q16 loses nothing for innovations up to 800, and it lies in [0, INT32_MAX] |
| `Kalman.SecondUpdate` | src/core/kalman.c:29-121 | the second update after any reset needs no assumption: the estimate lies between the measurements and the NIS is non-negative |
| `Kalman.PredictSymmetric` | src/core/kalman.c:65-73 | a prediction is symmetric if and only if the covariance it starts from is, wrapping included |
| `Kalman.SymmetryKept` | src/core/kalman.c:65-114 | from a symmetric covariance, with the predicted variance in range, one update keeps it symmetric if and only if k0 * p01 rounded up is k1 * p00 rounded down (wrapped to 64 bits) |
| `Kalman.SymmetryLost` | src/core/kalman.c:29-114 | seeded with a step of 1 s and updated with one of 1 ms, as its callers do, the filter has an asymmetric covariance after the first correction, for any two measurements |
| `KalmanReal.PropagateDet` | src/core/kalman.c:65-73 | in real arithmetic the transition preserves the determinant |
| `KalmanReal.AddPsd` | src/core/kalman.c:70-73 | a sum of positive semidefinite matrices is one, and its determinant is at least the sum |
| `KalmanReal.PredictPsd` | src/core/kalman.c:47-73 | prediction keeps the covariance symmetric positive semidefinite for every dt > 0 and any positive noise, and its determinant does not fall |
| `KalmanReal.CorrectDet` | src/core/kalman.c:109-114 | the posterior determinant is exactly r/s times the predicted one |
| `KalmanReal.CorrectShrinks` | src/core/kalman.c:109-114 | the posterior variance is at most the prior one and at most r |
| `KalmanReal.CorrectPsd` | src/core/kalman.c:109-114 | correction keeps positive semidefiniteness |
| `KalmanReal.StepValid` | src/core/kalman.c:29-121 | one update with adaptive noise keeps the covariance positive semidefinite and q, r positive |
| `KalmanReal.PsdQuad` | src/core/kalman.c:47-73 | a positive semidefinite covariance gives no combination of position and velocity a negative variance |
| `KalmanReal.Run` | src/core/kalman.c:11-121 | over every run of updates from reset, with any measurements and time steps, the covariance stays symmetric positive semidefinite |
| `KalmanNear.PredictNear` | src/core/kalman.c:47-73 | for steps up to 5 s and covariances up to 2^20 the fixed-point prediction is within 63 units of 2^-32 of the real filter's off the diagonal, and on it within 165 units after subtracting what rounding a hundredth of q takes, at most 0.00063 |
| `KalmanNear.NoiseLossReached` | src/core/kalman.c:55-63 | that loss is real: 2359296 units of 2^-32 at q = 20 and 5 s |
| `KalmanNear.GainNear` | src/core/kalman.c:100-104 | the position gain never exceeds p / s and falls short of it by less than p + 1 units of 2^-16 |
| `KalmanPosterior.GainClose` | src/core/kalman.c:100-104 | for entries up to 3000 each gain is within (c * (1 + g^2) + g + 2) units of 2^-16 of the real one, with c the entry's magnitude and g = 1 / s |
| `KalmanPosterior.AdaptSized` | src/core/kalman.c:80-91 | for entries up to 3000 the filter's own adapted noise meets what the two bounds around this row assume |
| `KalmanPosterior.CorrectNear` | src/core/kalman.c:100-114 | each entry of the corrected covariance is within that gain error, times the entry it multiplies, and one unit of 2^-32, of the real correction of the same prior with the same r |
| `KalmanTrack.InitialIs` | src/core/kalman.c:11-27 | fixed-point and real filter start from the same state |
| `KalmanTrack.SeedIs` | src/core/kalman.c:32-42 | the first measurement, and one after more than 5 s, is taken over, cut to [0, 500]; the gap resets everything else |
| `KalmanTrack.PositionNear` | src/core/kalman.c:52-53 | where nothing wraps the predicted position is x + v * dt up to one unit of 2^-16, and the velocity is kept |
| `KalmanTrack.PositionTracks` | src/core/kalman.c:29-121 | one update, for states within stated sizes: from the predicted position the estimate moves by p00 / (p00 + r) of the innovation, up to the gain's error times the innovation and one unit |
| `KalmanTrack.VelocityTracks` | src/core/kalman.c:29-121 | and the velocity by p10 / (p00 + r) of it, where it fits its word |
| `KalmanTrack.NoiseTracks` | src/core/kalman.c:75-98 | the innovation average is 0.95 old + 0.05 y^2 with y cut at 20, up to 0.0062; r is what it leaves over p00, in [0.1, 50], up to one unit; q grows by 0.05 of the excess or decays by 5%, in [0.01, 20], up to 0.005 |
| `KalmanTrack.NisTracks` | src/core/kalman.c:101-118 | for innovations up to 800 the NIS is y^2 / s, short of it by less than y^2 + 1 units of 2^-16 |
| `LoadDemand.LoadState.UpdIntg` | src/core/cpu.c:17-48 | the battery integral and its change over 5 s, with their ranges |
| `LoadDemand.DepletionIs` | src/core/cpu.c:23-28 | the depletion term is the exact cubic of the missing charge, floor by floor |
| `LoadDemand.DepletionAntitone` | src/core/cpu.c:23-28 | a fuller battery never raises the depletion term |
| `LoadDemand.LTermExact` | src/core/cpu.c:50-56 | the integral term in wide arithmetic is the exact one, without overflow |
| `LoadDemand.CFinalExact` | src/core/cpu.c:58-90 | the damping in machine arithmetic is the exact one: no overflow, no zero divisor |
| `LoadDemand.UpdEffIs` | src/core/cpu.c:92-119 | each of the ten parameters is its exact formula of health, thermal scale and baseline, without wrap |
| `LoadDemand.UpdEffInRange` | src/core/cpu.c:92-119 | for any battery level, thermal scale in [0.1, 1] and baseline in [0, 100] every parameter is in range |
| `LoadDemand.StepExact` | src/core/cpu.c:170-183 | the integration step is exact, with divisor at least 1 |
| `LoadDemand.LoadState.CalcLoadDemand` | src/core/cpu.c:121-186 | whatever the state and the inputs are, psi ends in [0, 500]; for inputs in range the step equals the model on unbounded integers |
| `LoadDemand.LoadState.MovingIs` | src/core/cpu.c:6-15 | for loads in [0, 500] the load moves exactly if its rate exceeds one threshold or its distance from the last remapping the other |
| `LoadDemand.MachineIsDemand` | src/core/cpu.c:121-186 | for every state and input in range no intermediate result of the step leaves its 32 or 64 bits |
| `LoadDemand.DivisorPositive` | src/core/cpu.c:64-72 | the unguarded divisor of the damping is at least 65 for every velocity |
| `LoadDemand.RunInBand` | src/core/cpu.c:121-186 | over every run, with any inputs, rates and velocities, psi is in [0, 500] after each step |
| `LoadDemand.DemandBounds` | src/core/cpu.c:121-186 | psi stays in [0, 500] and one step adds at most 0.095 abs(vel) + 3200 to the rate |
| `DemandLaws.DampingIs` | src/core/cpu.c:58-90 | the damping is the larger of 2 sqrt(k) times the stability ratio over sqrt(th) and 3.1 times the battery term cut at four times the undivided one, floor by floor |
| `DemandLaws.NeverUnderdamped` | src/core/cpu.c:58-90 | for every velocity, battery and thermal scale the damping is at least 2 * stab_rat * sqrt(k / th), up to 27 units of 2^-16 |
| `DemandLaws.StepIs` | src/core/cpu.c:141-183 | one step of a model that is not quiet and sees no break, as one formula: spring, lookahead, integral term, surge nudge, backward Euler, cut to [0, 500] |
| `DemandLaws.QuietStops` | src/core/cpu.c:130-137 | target and load below 1 and velocity and rate below 0.01 together, and only together (`DemandLaws.StepIs`), switch the model off |
| `DemandLaws.RestStays` | src/core/cpu.c:121-186 | at rest on a target of at least 1, without velocity and battery term, the model stays there |
| `DemandLaws.TowardTarget` | src/core/cpu.c:121-186 | from standstill, without surge and battery term, a step moves toward the target seen one lookahead ahead |
| `DemandLaws.BreakContinues` | src/core/cpu.c:139-142 | after a structural break the model goes on from standstill at the target, whatever its state was |
| `DemandLaws.FirstStep` | src/core/cpu.c:121-186 | a worked step: full battery, cool device, pressure 100 from rest gives 11.61 after 0.1 s |
| `DemandLaws.TrendGainIs` | src/core/cpu.c:188-194 | no gain for a velocity that is not positive, 1 from 180 on, vel / sqrt(1 + vel^2) up to one unit in between |
| `Tune.CapMono` | src/policy/tune.c:9-22 | more cores and a higher clock, each up to 32767, never lower the capability |
| `Tune.Policy.TuneLimits` | src/policy/tune.c:24-69 | the table after the nine assignments, or unchanged for unreadable hardware |
| `Tune.BetweenExact` | src/policy/tune.c:34-68 | a limit interpolated by a capability in [0, 1] is the exact floor, so its clamp never acts |
| `Tune.LimitsOrdered` | src/policy/tune.c:31-68 | for every capability all minimum/maximum pairs are ordered and min_gran <= min_lat |
| `Tune.TunedOrdered` | src/policy/tune.c:9-69 | the same for any core count and any frequency, and for the defaults of src/policy/config.c |
| `Tune.LimitsMono` | src/policy/tune.c:24-69 | more cores and a higher clock, each up to 32767, never lengthen a limit or lower the utilisation cap |
| `Tune.Policy.TuneCpuConfigs` | src/policy/tune.c:104-131 | the configuration after the six assignments |
| `Tune.ConfigsInBand` | src/policy/tune.c:104-131 | every configured value lies in its interval, for any ratios |
| `Tune.HeuristicCapIs` | src/policy/tune.c:9-22 | 0.4 of the cores, cut at 8, plus 0.6 of the clock, cut at 3500 MHz, floor by floor; unreadable hardware counts as 8 cores or 2000 MHz |
| `Tune.LimitsAre` | src/policy/tune.c:31-68 | the nine limits as linear formulas of the capability |
| `Tune.ConfigsAre` | src/policy/tune.c:104-131 | the six configured values as linear formulas of ratios in [0, 1] |
| `Shaping.EffPressIs` | src/core/cpu.c:196-204 | the effective pressure is its exact formula, without wrap |
| `Shaping.EffPressRange` | src/core/cpu.c:196-204 | the effective pressure is at least the demand and at most 558 |
| `Shaping.EffPressMono` | src/core/cpu.c:196-204 | more demand never lowers the effective pressure |
| `Shaping.UpdEffHeat` | src/core/cpu.c:98-108 | at equal battery and baseline, heat weakens the trend, slows the decay and leaves the midpoints alone |
| `Shaping.ThermLatIs` | src/core/cpu.c:206-214 | the thermal latency is the exact interpolation |
| `Shaping.LatIs` | src/core/cpu.c:216-236 | the latency is the lesser of the softsign response and the linear ceiling, but at least the thermal one; the last clamp never acts |
| `Shaping.LatMono` | src/core/cpu.c:216-236 | the latency stays in its limits and never rises with pressure and demand |
| `Shaping.GranIs` | src/core/cpu.c:238-248 | the granularity is the scaled latency cut to its limits and to the latency |
| `Shaping.GranMono` | src/core/cpu.c:238-248 | the granularity is in its limits, at most the latency, and rises with it |
| `Shaping.WakeupIs` | src/core/cpu.c:250-261 | the wake-up granularity is minimum plus 1 / (1 + x + x*x/2) of the range, floor by floor; neither saturation nor clamp acts |
| `Shaping.WakeupMono` | src/core/cpu.c:250-261 | the wake-up granularity is in its limits and never rises with pressure |
| `Shaping.MigrationIs` | src/core/cpu.c:263-280 | the migration cost is the squared free share, reduced by up to half as the velocity nears 25, cut to its limits |
| `Shaping.MigrationMono` | src/core/cpu.c:263-280 | the migration cost is in its limits and never rises with pressure |
| `Shaping.WaltIs` | src/core/cpu.c:282-292 | the initial load share is 10 plus 30 times the squared share of 100 |
| `Shaping.WaltMono` | src/core/cpu.c:282-292 | the initial load share is in its limits and never falls with pressure |
| `Shaping.UclampIs` | src/core/cpu.c:294-306 | the utilisation clamp is the softsign share of the cap times the thermal scale; the last clamp never acts |
| `Shaping.UclampMono` | src/core/cpu.c:294-306 | the utilisation clamp is in its limits and never falls with pressure |
| `Mapping.MapInBands` | src/core/gov.c:243-295 | every value written lies in the quantized band of its limits, 0 for inactive nodes, and granularity <= latency |
| `Mapping.MoreDemand` | src/core/gov.c:243-295 | in one tick more load demand never weakens the reaction, through sigmoid, decay, clamps and quantization |
| `Mapping.MoreHeat` | src/core/gov.c:187-295 | heat never strengthens the reaction, with parameters and pressure derived from each thermal scale as the code does; the latency written is at least the quantized thermal floor |
| `Mapping.EndToEnd` | src/core/gov.c:178-295 | for any hardware, battery level, baseline and velocity: values in the bands, limits ordered, and more demand with less heat never weakens the reaction |
| `Mapping.LatencyIs` | src/core/gov.c:264-274 | the latency written is the larger of the thermal latency and the lesser of softsign response and linear ceiling, in milliseconds rounded to the nearest 65536 ns, as one formula |
| `Mapping.GranularityIs` | src/core/gov.c:276-279 | the granularity written is the configured share of that latency, cut to its limits and to the latency, rounded likewise |
| `Mapping.WakeIs` | src/core/gov.c:281-284 | the wake-up granularity written, as one formula of pressure and decay |
| `Mapping.CostIs` | src/core/gov.c:286-289 | the migration cost written, as one formula of pressure and this tick's velocity |
| `Mapping.ShareWrittenIs` | src/core/gov.c:291-294 | the initial load share written: 10 + 30 times the squared share of 100, to the nearest whole |
| `Mapping.ClampWrittenIs` | src/core/gov.c:296-299 | the utilisation clamp written: the softsign share of the cap times this tick's thermal scale, to the nearest whole |
| `Mapping.CalcDemand` | src/core/gov.c:187-214 | the demand is in [0, 500] for any sample and state, the pressure in its range for scales in [0.1, 1] and baselines in [0, 100], and for samples and rates in range the step is the exact model |
| `Mapping.EveryTick` | src/core/gov.c:187-295 | at every tick of every run of demand steps, with any rates and velocities so far, the values are in the bands of the tuned limits |
| `Mapping.PressureIs` | src/core/cpu.c:196-204 | the pressure of a tick is its demand amplified by the trend gain of its own velocity, as one formula |
| `Mapping.ApplyMapping` | src/core/gov.c:243-312 | each open node takes one unforced, debounced call for its mapped value with its own tolerance (10, 10, 15%, 50000, 5, 32), so without a pending failure it is within that of the value, as long as its descriptor is the node's (`Governor.Context.Acquire`); the crash hook stays armed |
| `Mapping.Life` | src/core/daemon.c:79-116 | from opened caches, through any ticks with any writes failing, to the teardown: a node whose last write succeeds is back at its boot value exactly if that fits 32 bits or nothing was written |
| `Sysfs.Cache.Init` | src/sys/sysfs.c:24-58 | the first candidate that opens is taken, and its boot value captured if it reads as non-negative |
| `Sysfs.Cache.Update` | src/sys/sysfs.c:234-287 | when a write is tried, what it changes in cache and node, and that fails = 0 leaves the node equal to a value the request does not differ from |
| `Sysfs.Cache.Restore` | src/sys/sysfs.c:60-71 | a successful restore leaves the captured base, which is the boot value exactly if that fits 32 bits; an unwritten node is left alone |
| `Sysfs.BootTooLarge` | src/sys/sysfs.c:46-52 | the smallest boot value that is not brought back: 2^31 is captured as 2^31 - 1 |
| `Sysfs.NotExceeding` | src/sys/sysfs.c:207-232 | "not worth a write" is exactly "within the tolerance" while the products fit 64 bits |
| `Sysfs.RunAgrees` | src/sys/sysfs.c:234-287 | over every run node and `last` are the last value written, which some request asked for, or untouched; they agree if and only if that value is not 2^64 - 1 over another boot value |
| `Sysfs.CallAgrees` | src/sys/sysfs.c:234-287 | agreement survives a call if and only if the call does not write 2^64 - 1 over another boot value |
| `Sysfs.UnsetLooksUnwritten` | src/sys/sysfs.c:33-34 | the input that breaks it: one successful write of 2^64 - 1 over a node that booted with 5 |
| `Sysfs.RetryWraps` | src/sys/sysfs.c:286 | the wrapped deadline is the unbounded one modulo 2^32 |
| `Sysfs.HeldExactly` | src/sys/sysfs.c:269-271 | when the 32-bit comparison holds a write back, for every distance |
| `Sysfs.HeldNear` | src/sys/sysfs.c:269-271 | within 2^31 ms it agrees with unbounded time |
| `Sysfs.StepWaits` | src/sys/sysfs.c:269-286 | a call leaves a deadline at most a minute after its last clock reading |
| `Sysfs.BackoffBound` | src/sys/sysfs.c:269-286 | under persistent failure a cache that waits at most a minute tries at most 7 + T/60000 writes in any T ms, however often update is called |
| `Sysfs.BackoffAlways` | src/sys/sysfs.c:269-286 | the same for every cache any run from start-up reaches, whatever succeeded or failed before |
| `Sysfs.TriesCount` | src/sys/sysfs.c:269-286 | every call that leaves a trace in the cache is one of the counted tries |
| `Sysfs.CallIs` | src/sys/sysfs.c:234-287 | one call in unbounded time: a forced, first or out-of-tolerance request is written at or after the deadline and not before it; success forgets the failures, a failure waits 1, 2, 4, 8, 16, 32 or 60 s |
| `Sysfs.Recovers` | src/sys/sysfs.c:234-287 | after a failed write, once writes succeed, the first call at least a minute later leaves the node within tolerance of its request, whatever was asked in between |
| `Restore.RowsDistinct` | src/core/daemon.c:79-95 | the crash table lists no descriptor twice |
| `Restore.Sinks.Snapshot` | src/core/daemon.c:79-95 | the table holds exactly the sinks with a captured base |
| `Restore.Sinks.Update` | src/core/gov.c:306-311 | one debounced write keeps the crash hook armed and every other node and cache unchanged |
| `Restore.Sinks.CrashRestore` | src/core/daemon.c:97-105 | whatever happened since, each captured node whose write succeeds holds its base |
| `Restore.Sinks.RestoreAll` | src/core/daemon.c:107-116 | every written sink with a captured base whose write succeeds is restored, unwritten nodes are untouched, and the crash table is disarmed |
| `NumText.ValueOfDigits` | include/parser.h:13-57 | reading the decimal digits of n gives n |
| `NumText.FmtU64` | include/parser.h:13-35 | in a buffer with just enough room, the digits without leading zeros and a newline are written, and nothing else |
| `NumText.FmtU32` | include/parser.h:37-57 | the same without newline: at most ten digits, so sixteen bytes of scratch suffice |
| `NumText.ParseU64` | include/parser.h:104-125 | the digit run is consumed, and its value is exact if and only if it fits 64 bits |
| `NumText.FoldWraps` | include/parser.h:117-118 | the text of 2^64 reads as 0 |
| `NumText.RoundTripU64` | include/parser.h:13-125 | parsing inverts formatting for every 64-bit value |
| `NumText.ParseI32` | include/parser.h:59-102 | for any bytes the result is the exact decimal saturated to 32 bits, or invalid, as the reference says |
| `NumText.ReadBack` | include/parser.h:59-102 | a printed integer reads back saturated |
| `NumText.ReadParts` | include/parser.h:59-102 | any blanks and signs, the digits of a number, then a blank, a line end or nothing read as the number, negated by a minus sign and cut to 32 bits; anything else behind the digits is invalid |
| `NumText.ReadNothing` | include/parser.h:59-102 | without a digit behind the blanks and signs the text is invalid |
| `NumText.ParseQ16` | include/parser.h:127-171 | the run of digits and points is folded as specified, in bounds, for any bytes |
| `NumText.ReadDecimal` | include/parser.h:127-171 | a decimal up to 32767 with up to six fraction digits reads as floor(value * 65536) |
| `Time.DtNear` | include/pg/time.h:11-25 | within its clamp the elapsed time is exact to one unit |
| `Time.DtLonger` | include/pg/time.h:11-25 | a reading above k seconds means strictly more than k seconds |
| `Time.DtAtLeast` | include/pg/time.h:11-25 | at least k seconds read as at least k seconds |
| `Psi.Parse` | src/sys/psi.c:128-174 | the tokenizer stays in bounds, terminates on any bytes and computes the token-by-token reference |
| `Psi.Find` | src/sys/psi.c:246-263 | the scan finds the first line that starts with "some ", if there is one |
| `Psi.FindByLine` | src/sys/psi.c:246-263 | told line by line: a line that starts with "some " gives what is behind these five bytes, any other is passed over |
| `Psi.ParseKernelLine` | src/sys/psi.c:128-174 | from any kernel-format line the total is exact, avg300 and, on a first run, avg10 are floor(value * 65536) |
| `Psi.RawRateExact` | src/sys/psi.c:187-200 | below the 64-bit limit the stall rate is the exact floor cut at 500 |
| `Psi.Monitor.Read` | src/sys/psi.c:176-273 | when a read succeeds and what it does to filter and monitor; a first run is seeded from avg10 with zero velocity and NIS; a failure changes nothing |
| `Psi.FirstReport` | src/sys/psi.c:176-187 | the first read reports avg10, with no velocity and no NIS, and seeds the filter with it |
| `Psi.NextReport` | src/sys/psi.c:187-239 | every other read feeds the filter with the stalled share of the elapsed time in percent, cut at 500, and reports the filter |
| `Psi.SecondReport` | src/sys/psi.c:176-273 | the second read reports a pressure between the first avg10 and the stalled share of the time in between |
| `Psi.Monitor.Restart` | src/sys/psi.c:79-81 | the next successful read starts afresh |
| `Conf.TrimTrailing` | src/sys/conf.c:16-31 | trailing blanks are cut in place and nothing else |
| `Conf.ParseLine` | src/sys/conf.c:33-68 | the in-place line parser makes exactly the callback the reference assigns to the line |
| `Conf.DispatchLine` | src/sys/conf.c:81-88 | a buffered piece of at most 255 bytes makes the callback of that piece, an empty one none |
| `Conf.SettingLine` | src/sys/conf.c:33-68 | a line "key = value # comment" of at most 255 bytes, with any blanks, makes the call (key, value); the value may hold '=' and may be empty |
| `Conf.IdleLine` | src/sys/conf.c:33-68 | a line without '=' before its comment, or with only blanks before the '=', makes none |
| `Conf.SplitSnoc` | src/sys/conf.c:108-142 | one more byte extends the last piece or opens a new one |
| `Conf.DoneIsSplit` | src/sys/conf.c:108-150 | byte-by-byte processing with a last flush equals splitting the whole text first |
| `Conf.CallsPrefix` | src/sys/conf.c:108-154 | the callbacks of a prefix come first |
| `Conf.ConfParse` | src/sys/conf.c:90-155 | for every text, every chunking and every callback behaviour the callbacks are those of the split text with long lines dropped, up to the first failure or read error |
| `Props.PropSet` | src/sys/prop.c:46-75 | the present value is remembered before the set; a refused set leaves no mark |
| `Props.PropReset` | src/sys/prop.c:77-89 | the remembered value is put back, or the entry stays marked |
| `Props.PropCleanup` | src/sys/prop.c:91-102 | reset if overridden, then forget |
| `Props.PushKeeps` | src/sys/opt.c:21-37 | pushing an entry that captured the present value keeps every original value |
| `Props.Overrides.AddProp` | src/sys/opt.c:21-37 | full table, value in force, success and refusal, each with its effect on table and service |
| `Props.ParseCb` | src/sys/opt.c:39-60 | one directive changes properties and table as specified and never stops the parser |
| `Props.PropDirective` | src/sys/opt.c:39-60 | "prop.x" with value v leaves x reading v unless the table is full or the service refuses; no other name changes |
| `Props.OtherDirective` | src/sys/opt.c:39-60 | a key that does not start with "prop." changes no property |
| `Props.UndoStep` | src/sys/opt.c:76-84 | undoing one entry keeps each name on its way back to its boot value |
| `Props.Overrides.Exit` | src/sys/opt.c:76-84 | whatever else fails, a name is back at its boot value if its first entry could be reset |
| `Props.OptInit` | src/sys/opt.c:62-74 | any text in any chunks: exactly its directives, in order |
| `Props.ConfigUndone` | src/sys/opt.c:21-84 | any text and any failed sets, then successful resets: every name reads as it did, repeated names included (one that was unset may be left as the empty text) |
| `Poll.PollState.NextRandom` | src/core/poll.c:23-44 | the next state and a result below the range, for the generators of both builds |
| `Poll.DrawIs` | src/core/poll.c:23-44 | the next state and the number drawn by each generator, in numbers |
| `Poll.XorshiftOfOne` | src/core/poll.c:36-40 | a worked xorshift: state 1 becomes 1082269761 |
| `Poll.XorshiftAlive` | src/core/poll.c:36-40 | the xorshift generator reaches state 0 only from 0 |
| `Poll.PollState.Jitter` | src/core/poll.c:46-78 | the interval moves at most 5% from its rounded value and stays in bounds, by the amount the generator draws |
| `Poll.PollState.CalcNext` | src/core/poll.c:80-129 | one tick is one deterministic step of interval, wait, clock and generator; both stay in [100, 10000]; a late tick starts over |
| `Poll.StepIs` | src/core/poll.c:80-129 | one tick in numbers: only more than 200 ms late starts over; pressure ahead of 5 or velocity 2 asks for 100, pressure ahead of 1.5 for half, a baseline below 2 for 200 more, and otherwise the interval is kept |
| `Poll.RunInRange` | src/core/poll.c:80-129 | for both generators, every seed, clock and run, late ticks included, interval and wait stay in [100, 10000] and each wait is within 5% of the rounded interval |
| `Poll.CalmRun` | src/core/poll.c:103-124 | with no late ticks, n calm ticks give c + 200 * min(n, (10000 - c) / 200), so 10000 exactly for whole steps |
| `Poll.ModerateRun` | src/core/poll.c:103-124 | seven ticks of moderate pressure reach 100 from anywhere, on time or not |
| `Poll.SurgeResets` | src/core/poll.c:106-107 | one surge resets the interval at once |
| `LogLimit.Limiter.ShouldRateLimit` | src/sys/log.c:17-46 | credit, clock and drop counter after a call, and what a passed message reports |
| `LogLimit.PassesCost` | src/sys/log.c:31-42 | each passed message costs ten seconds of credit |
| `LogLimit.WindowBound` | src/sys/log.c:17-46 | any window of T ms in any run passes at most 128 + T/10000 messages |
| `LogLimit.FreshPasses` | src/sys/log.c:17-46 | the first 128 messages pass |
| `LogLimit.QuietPasses` | src/sys/log.c:17-46 | after m times ten quiet seconds, up to 128, m messages in a row pass |
| `LogLimit.RunValid` | src/sys/log.c:17-46 | every state a run reaches meets the premises of the window bound |
| `LogLimit.DropsConserved` | src/sys/log.c:17-46 | reported plus pending drops equal all drops, below counter wrap |
| `Display.SuspendedIff` | src/core/gov.c:37-80 | over every run: suspended if and only if some tick saw the display go off, every tick since read it off, and one came more than ten seconds later |
| `Display.SuspendedAfterTenSeconds` | src/core/gov.c:37-80 | in nanoseconds of the clock: strictly more than 10^10 of nothing but "off" |
| `Display.OffNoticed` | src/core/gov.c:40-62 | an "off" reading a second or more after every earlier tick leaves the display not On |
| `Display.DarkSuspends` | src/core/gov.c:37-65 | in times and readings alone: nothing but "off", one tick a second or more after all before it and one more than ten seconds after those, and the daemon is suspended |
| `Display.DarkSuspendsInTime` | src/core/gov.c:37-65 | the same in nanoseconds: a second and then eleven of darkness suspend the daemon |
| `Display.OnHolds` | src/core/gov.c:40-42 | a display that has just come on is not read again within the second |
| `Display.LitWakes` | src/core/gov.c:52-56 | one lit or failed reading ends every dark spell |
| `Governor.Context.UpdateDisp` | src/core/gov.c:37-80 | the tick refines the display machine; whenever the display comes on, filter, load state and monitor start afresh |
| `Governor.Context.OpenTrg` | src/sys/psi.c:12-57 | a trigger whose configuration cannot be written is closed again |
| `Governor.Context.ArmTrigger` | src/core/gov.c:82-94 | a trigger that cannot be registered is closed at once; an armed one is open, registered and in trg_fd |
| `Governor.Context.RecovPsi` | src/sys/psi.c:65-82 | the pressure file is reopened without losing a descriptor |
| `Governor.Context.ReadPsi` | src/core/gov.c:96-130 | a read succeeds exactly if the file is open and its text has a "some" line; the first sample after each wake is avg10 with zero velocity and NIS; a failure doubles the wait up to 30 s and re-arms; the sample enters the history |
| `Governor.Context.PollBattery` | src/core/gov.c:132-145 | every five seconds the battery readings are stored and a missing trigger is re-armed |
| `Governor.Context.Demand` | src/core/gov.c:147-215 | one load-model step on this tick's sample, battery level, thermal scale and elapsed time; the thermal scale is renewed once a second; the demand is in [0, 500] whatever the sample is |
| `Governor.Context.Gate` | src/core/gov.c:217-241 | the next wait is the poll interval, cut to 50 ms while the load moves; a remapping happens exactly if it moves or one is due |
| `Governor.RetryMs` | src/core/gov.c:116-117 | the retry waits are 1, 2, 4, 8, 16 and 30 seconds |
| `Governor.Context.Process` | src/core/gov.c:314-364 | a tick with any outcomes keeps the loop-head invariant; the next wait is 5 s while suspended, the retry wait after a failed read, else the poll wait or its cut, less the time the tick took, but at least one millisecond |
| `Governor.Context.HandleEvents` | src/core/epoll.c:58-70 | any batch of events keeps the invariant; a readable termination signal is always noticed, after it no trigger is handled, and before it a trigger leads to a tick |
| `Governor.Context.EpollSetup` | src/core/epoll.c:99-127 | success establishes the invariant, failure leaves no epoll instance |
| `Governor.Context.EpollRun` | src/core/epoll.c:129-165 | every loop head of the returned trace has at most one PSI trigger, registered and in trg_fd; every timeout is answered by a look at the display; every first sample of the history is seeded; the display history is a run of its machine; the epoll instance is closed at the end |
| `Governor.Context.OneTrigger` | src/core/epoll.c:72-97 | at every loop head the open PSI triggers are exactly trg_fd, if any, and it is registered |
| `Governor.Context.SuspendedIsDark` | src/core/gov.c:37-80 | a suspended reactor has read nothing but "off" for more than ten seconds |
| `Governor.Context.DarkIsSuspended` | src/core/gov.c:37-65 | and the reactor is suspended after that much darkness |
| `Governor.Context.LockIsLock` | src/core/daemon.c:261-265 | while the standard error descriptor is inherited, the lock descriptor is the lock file |
| `Governor.Context.OpenLock` | src/sys/lockfile.c:11-35 | a lock held by another process leaves nothing open |
| `Governor.Context.OpenNodes` | src/core/daemon.c:172-184 | the number of nodes with a candidate that opens; no descriptor is lost |
| `Governor.Context.RedirectLog` | src/core/daemon.c:118-125 | the log stays on descriptor 2 if and only if 2 was free and not the lowest; a daemon file is lost exactly if the daemon held 2 |
| `Governor.Context.Acquire` | src/core/daemon.c:258-281 | up to the log: every descriptor is accounted for, and refers to its own file if and only if not (2 was free and lock and nodes are enough to reach it) |
| `Governor.Context.InitSensors` | src/core/daemon.c:186-221 | when acquisition succeeds, and that every descriptor stays accounted for |
| `Governor.Context.Cleanup` | src/core/daemon.c:231-248 | from any point of the boot sequence, exactly the daemon's own descriptors are closed |
| `Governor.Context.Start` | src/core/daemon.c:258-321 | the reactor runs exactly if every needed acquisition succeeds; whichever fails, every open descriptor is in its field, inherited, or the log left on 2 |
| `Governor.Daemon` | src/core/daemon.c:251-326 | for any inherited descriptors, failure pattern and wake-ups: what is open at exit is what was inherited, and 2 if and only if the log was left there |
| `Governor.LogStaysWitness` | src/core/daemon.c:118-125 | with nothing inherited and no node the log is left on 2 |
| `Governor.FileLostWitness` | src/core/daemon.c:118-125 | with only 0 and 1 inherited the lock takes 2 and loses it to the log |
| `Governor.StandardErrorInherited` | src/core/daemon.c:118-125 | neither happens when the standard error descriptor is inherited |

## Left out

- Governor.Context.Process: does not perform the six node writes of `apply_mapping`; they are proved on their own (`Mapping.ApplyMapping`, `Mapping.Life`), for thermal scales and baselines in range, while a tick of the reactor model accepts any bytes from the pressure file.
- Governor.Context.Demand: takes the thermal scale of each second as an input; `src/core/thermal.c` is not modelled beyond its output range [0.1, 1].
- Mapping.ApplyMapping: writes to the descriptors the caches hold; if the log was moved over one of them, the node behind it is no longer written.
- Governor.Context.Cleanup: covers descriptors only; restoring the nodes and the properties is `Restore.Sinks.RestoreAll` and `Props.Overrides.Exit`.
- Real system calls, clocks and the property service: replaced by oracles; what is not modelled is a partial node write.
- Long-run stability of the fixed-point filter and of the load model (convergence, a bound of the covariance or of the rate over all runs): the code clamps no covariance entry and resets the rate only where psi leaves [0, 500]; the one-step bounds are `Kalman.CorrectionIsConvex` and `LoadDemand.DemandBounds`.
- The cache sweep (`src/sys/fs.c`, `src/core/sweep.c`), discovery, hardening and process setup (`scan.c`, `topo.c`, `task.c`, `memory.c`, `rlimit.c`, `signal.c`, `detect.c`, `block.c`): wrappers and string tables.
- Temporary descriptors opened and closed inside one call (one-shot node reads and writes, the configuration file).
- Reading several backlight panels: the combined answer is taken as a predicate on the individual answers.
- Props.ParseCb: does not perform the one-shot node write of a `sysfs.` directive, which touches no state modelled here.
- The thermal tuning table and the topology metrics of `src/policy/tune.c`: the configuration ratios are arbitrary inputs here.
- `pg_kalman_update` is one function in the source; the model splits it into prediction, noise adaptation and correction.
- A run of the reactor is any finite list of wake-ups; it may be cut off at a loop head.
