/** The fixed-point filter of src/core/kalman.c against its equations in real arithmetic, the state estimate and the
    adaptive noise this time: what each update predicts, how far it corrects, and what it learns about its noise. */
module KalmanTrack {
  import opened Machine
  import opened FixedPoint
  import opened WideMul
  import opened Kalman
  import opened KalmanNear
  import opened KalmanPosterior
  import R = KalmanReal

  /** Both filters start from the same state. */
  lemma InitialIs()
    ensures var r := R.INITIAL;
            && Re16(INITIAL.xPos) == r.x && Re16(INITIAL.xVel) == r.v && INITIAL.firstRun == r.firstRun
            && Re(INITIAL.p00) == r.p.a00 && Re(INITIAL.p01) == r.p.a01
            && Re(INITIAL.p10) == r.p.a10 && Re(INITIAL.p11) == r.p.a11
            && Re16(INITIAL.qVel) == r.q && Re16(INITIAL.rMeas) == r.r && Re(INITIAL.covY) == r.cov
  {
  }

  /** A first measurement, and one after more than five seconds, is taken over, cut to [0, 500]. */
  lemma SeedIs(s: State, zMeas: q16, dtSec: q16)
    requires s.firstRun || dtSec > 327_680
    ensures var s' := Step(s, zMeas, dtSec);
            s'.xPos == Max(0, Min(zMeas, 32_768_000)) && s'.xVel == 0 && !s'.firstRun
            && (dtSec > 327_680 ==> s' == INITIAL.(xPos := s'.xPos, firstRun := false))
            && (dtSec <= 327_680 ==> s' == s.(xPos := s'.xPos, xVel := 0, firstRun := false))
  {
    hide Predict, Adapt, Correct;
  }

  // ----- the state estimate

  /** A quotient of reals, kept closed in the proofs below. */
  function Quot(a: real, b: real): real
    requires b != 0.0
  {
    a / b
  }

  /** A product of two words floored to a word. */
  lemma ProductNear(a: q16, b: q16)
    requires FitsI32(a * b / TWO16)
    ensures Re16(a) * Re16(b) - EPS <= Re16(Q16Mul(a, b)) <= Re16(a) * Re16(b)
  {
    ProductReal(a, b);
    assert Times(Re16(a), Re16(b)) == Re16(a) * Re16(b);
  }

  /** The predicted position is x + v dt, up to one unit of 2^-16; the velocity is kept. */
  lemma PositionNear(s: State, dt: q16)
    requires FitsI32(s.xVel * dt / TWO16) && FitsI32(s.xPos + s.xVel * dt / TWO16)
    ensures var x := Re16(s.xPos) + Times(Re16(s.xVel), Re16(dt));
            x - EPS <= Re16(Predict(s, dt).x) <= x && Predict(s, dt).v == s.xVel
  {
    PredictedState(s, dt);
    hide Predict;
    ProductNear(s.xVel, dt);
  }

  lemma PredictedState(s: State, dt: q16)
    ensures Predict(s, dt).x == Add32(s.xPos, Q16Mul(s.xVel, dt)) && Predict(s, dt).v == s.xVel
  {
    hide Q32Mul, TruncDiv, Add64, W64, Add32, Q16Mul;
  }

  /** A correction by a gain known up to e. */
  lemma CorrectedBy(x: q16, k: q16, a: real, e: real, y: q16)
    requires AbsR(Re16(k) - a) <= e && FitsI32(k * y / TWO16) && FitsI32(x + k * y / TWO16)
    ensures AbsR(Re16(Add32(x, Q16Mul(k, y))) - (Re16(x) + Times(a, Re16(y)))) <= Times(e, AbsR(Re16(y))) + EPS
  {
    ProductNear(k, y);
    AbsProd(Re16(k) - a, e, Re16(y), AbsR(Re16(y)));
    assert Times(Re16(k) - a, Re16(y)) == Re16(k) * Re16(y) - Times(a, Re16(y));
    assert Re16(Add32(x, Q16Mul(k, y))) == Re16(x) + Re16(Q16Mul(k, y));
  }

  lemma StateWords(pr: Prior, n: Noise, y: q16)
    ensures var s := Correct(pr, n, y);
            && s.xPos == Add32(pr.x, Q16Mul(Gain(pr.p00, n.s), y))
            && s.xVel == Add32(pr.v, Q16Mul(Gain(pr.p10, n.s), y))
            && s.covY == n.covY && s.rMeas == n.rMeas && s.qVel == n.qVel && s.nis == Nis(y, n.s) && !s.firstRun
  {
    hide Gain, Q16Mul, Q32Mul, Nis;
  }

  /** The corrected position is that of the real correction with the same prior and noise, up to the error of the
      gain times the innovation and one unit. */
  lemma PositionCorrected(pr: Prior, n: Noise, y: q16)
    requires Sized(pr, n) && FitsI32(pr.x + y)
    ensures Re16(n.s) != 0.0 && Re(pr.p00) + Re16(n.rMeas) > 0.0
    ensures var k := Quot(Re(pr.p00), Re(pr.p00) + Re16(n.rMeas));
            var e := GainError(AbsR(Re(pr.p00)), Quot(1.0, Re16(n.s)));
            AbsR(Re16(Correct(pr, n, y).xPos) - (Re16(pr.x) + Times(k, Re16(y)))) <= Times(e, AbsR(Re16(y))) + EPS
  {
    GainClose(pr, n, pr.p00);
    GainUnit(pr.p00, n.s);
    GainFits(pr.x, Gain(pr.p00, n.s), y);
    StateWords(pr, n, y);
    var k := Quot(Re(pr.p00), Re(pr.p00) + Re16(n.rMeas));
    var e := GainError(AbsR(Re(pr.p00)), Quot(1.0, Re16(n.s)));
    hide Re, Re16, Gain, GainError, AbsR, Correct, Q16Mul, Add32, Times;
    CorrectedBy(pr.x, Gain(pr.p00, n.s), k, e, y);
  }

  /** And so is the velocity, where it fits its word. */
  lemma VelocityCorrected(pr: Prior, n: Noise, y: q16)
    requires Sized(pr, n)
    requires var k1 := Gain(pr.p10, n.s); FitsI32(k1 * y / TWO16) && FitsI32(pr.v + k1 * y / TWO16)
    ensures Re16(n.s) != 0.0 && Re(pr.p00) + Re16(n.rMeas) > 0.0
    ensures var k := Quot(Re(pr.p10), Re(pr.p00) + Re16(n.rMeas));
            var e := GainError(AbsR(Re(pr.p10)), Quot(1.0, Re16(n.s)));
            AbsR(Re16(Correct(pr, n, y).xVel) - (Re16(pr.v) + Times(k, Re16(y)))) <= Times(e, AbsR(Re16(y))) + EPS
  {
    GainClose(pr, n, pr.p10);
    StateWords(pr, n, y);
    var k := Quot(Re(pr.p10), Re(pr.p00) + Re16(n.rMeas));
    var e := GainError(AbsR(Re(pr.p10)), Quot(1.0, Re16(n.s)));
    hide Re, Re16, Gain, GainError, AbsR, Correct, Q16Mul, Add32, Times;
    CorrectedBy(pr.v, Gain(pr.p10, n.s), k, e, y);
  }

  /** A gain in [0, 1] never takes the position out of 32 bits. */
  lemma GainFits(x: q16, k0: q16, y: q16)
    requires 0 <= k0 <= ONE && FitsI32(x + y)
    ensures FitsI32(k0 * y / TWO16) && FitsI32(x + k0 * y / TWO16)
  {
    if y >= 0 {
      MulBounds(k0, ONE, y, y);
    } else {
      MulBounds(k0, ONE, -1 * y, -1 * y);
      assert k0 * (-1 * y) == -(k0 * y);
    }
  }

  // ----- the adaptive noise

  lemma SquareReal(c: int)
    ensures Re(c * c) == Re16(c) * Re16(c)
  {
    assert (c * c) as real == c as real * c as real;
  }

  /** The clamped innovation is the same number in both filters. */
  lemma ClampReal(y: q16)
    ensures Re16(Clamp(y, -20 * ONE, 20 * ONE)) == R.Clamp(Re16(y), -20.0, 20.0)
  {
  }

  /** Two floored products with the words of 0.95 and 0.05, against the real sum. */
  lemma MeanNear(a: int, b: int)
    requires 0 <= a && 0 <= b && Re(a) <= 400.0 && Re(b) <= 400.0
    ensures var m := 0.95 * Re(a) + 0.05 * Re(b);
            m - 0.0062 <= Re(62259 * a / TWO16 + 3276 * b / TWO16) <= m
  {
    assert 62259 * a == 62259 * a / TWO16 * TWO16 + 62259 * a % TWO16;
    assert 3276 * b == 3276 * b / TWO16 * TWO16 + 3276 * b % TWO16;
  }

  /** The square of the clamped innovation as a word. */
  lemma AverageWords(covY: q32, qVel: q16, y: q16, p00Pred: q32) returns (w: nat)
    requires 0 <= covY <= COV_MAX
    ensures var c := R.Clamp(Re16(y), -20.0, 20.0); Re(w) == Times(c, c)
    ensures w <= 400 * TWO32 && Adapt(covY, qVel, y, p00Pred).covY == 62259 * covY / TWO16 + 3276 * w / TWO16
  {
    var c: int := Clamp(y, -20 * ONE, 20 * ONE);
    SquareSize(c);
    CovStep(covY, qVel, y, p00Pred);
    ClampReal(y);
    hide Adapt, Clamp, R.Clamp, Re, Re16, Times;
    w := c * c;
  }

  lemma SquareSize(c: int)
    requires Abs(c) <= 20 * ONE
    ensures 0 <= c * c <= 400 * TWO32 && Re(c * c) == Times(Re16(c), Re16(c))
  {
    AbsMulBounds(c, 20 * ONE, c, 20 * ONE);
    SquareReal(c);
  }

  /** The innovation average is 0.95 of the old one plus 0.05 of the square of the innovation, cut at 20, short of it
      by at most 0.0062 (0.95 and 0.05 are rounded down). */
  lemma AverageNear(covY: q32, qVel: q16, y: q16, p00Pred: q32)
    requires 0 <= covY <= COV_MAX
    ensures var c := R.Clamp(Re16(y), -20.0, 20.0);
            var m := 0.95 * Re(covY) + 0.05 * Times(c, c);
            m - 0.0062 <= Re(Adapt(covY, qVel, y, p00Pred).covY) <= m
  {
    var w := AverageWords(covY, qVel, y, p00Pred);
    hide Adapt, Times, Re16, R.Clamp;
    MeanNear(covY, w);
  }

  /** The words of r and q in terms of those of the average and the variance. */
  lemma NoiseWords(covY: q32, qVel: q16, y: q16, p00Pred: q32)
    requires 0 <= covY <= COV_MAX && PriorInRange(p00Pred) && 0 <= qVel <= Q_MAX
    ensures var n := Adapt(covY, qVel, y, p00Pred);
            var cy, p := n.covY / TWO16, p00Pred / TWO16;
            && 0 <= cy <= 400 * ONE && n.s == p + n.rMeas
            && n.rMeas == Max(6553, Min(cy - p, 3_276_800))
            && var q := if cy > n.s then qVel + 3276 * (cy - n.s) / TWO16 else 62259 * qVel / TWO16;
               n.qVel == Max(655, Min(q, 1_310_720))
  {
    CovStep(covY, qVel, y, p00Pred);
    Variance(covY, qVel, y, p00Pred);
    hide Q32Mul;
  }

  /** The measurement noise is what the innovation average leaves over the predicted variance, in [0.1, 50], up to one
      unit of 2^-16. */
  lemma MeasurementNoiseNear(covY: q32, qVel: q16, y: q16, p00Pred: q32)
    requires 0 <= covY <= COV_MAX && PriorInRange(p00Pred) && 0 <= qVel <= Q_MAX
    ensures var n := Adapt(covY, qVel, y, p00Pred);
            AbsR(Re16(n.rMeas) - R.NextR(Re(n.covY), Re(p00Pred))) <= EPS
  {
    NoiseWords(covY, qVel, y, p00Pred);
    hide Adapt;
    var n := Adapt(covY, qVel, y, p00Pred);
    FloorReal(n.covY);
    FloorReal(p00Pred);
  }

  /** The process noise grows by 0.05 of what the innovations exceed the variance by, and otherwise decays by 5 percent,
      in [0.01, 20], up to 0.005; which of the two is decided on the filter's own words. */
  lemma ProcessNoiseNear(covY: q32, qVel: q16, y: q16, p00Pred: q32)
    requires 0 <= covY <= COV_MAX && PriorInRange(p00Pred) && 0 <= qVel <= Q_MAX
    ensures var n := Adapt(covY, qVel, y, p00Pred);
            AbsR(Re16(n.qVel) - R.NextQ(Re16(qVel), Re16(n.covY / TWO16), Re16(n.s))) <= 0.005
  {
    NoiseWords(covY, qVel, y, p00Pred);
    hide Adapt;
    var n := Adapt(covY, qVel, y, p00Pred);
    var d := n.covY / TWO16 - n.s;
    assert 3276 * d == 3276 * d / TWO16 * TWO16 + 3276 * d % TWO16;
    assert 62259 * qVel == 62259 * qVel / TWO16 * TWO16 + 62259 * qVel % TWO16;
  }

  /** The normalized squared innovation is y^2 / s, short of it by less than y^2 + 1 units of 2^-16. */
  lemma NisNear(y: q16, s: q16)
    requires 3 <= s && y * y * (TWO32 / s) / TWO32 < TWO31 && Nis(y, s) == y * y * (TWO32 / s) / TWO32
    ensures var z := Times(Re16(y), Re16(y));
            Re16(s) > 0.0 && Quot(z, Re16(s)) - EPS * (z + 1.0) <= Re16(Nis(y, s)) <= Quot(z, Re16(s))
  {
    InverseNear(s);
    hide Nis, InvS;
    NisReal(y, TWO32 / s, 1.0 / Re16(s));
    TimesInverse(Re16(y) * Re16(y), Re16(s));
  }

  lemma NisReal(y: int, i: nat, g: real)
    requires g - EPS <= Re16(i) <= g
    ensures var z := Re16(y) * Re16(y);
            Times(z, g) - EPS * (z + 1.0) <= Re16(y * y * i / TWO32) <= Times(z, g)
  {
    var z := Re16(y) * Re16(y);
    SquareReal(y);
    assert z >= 0.0;
    var n := y * y * i;
    assert n == n / TWO32 * TWO32 + n % TWO32;
    assert n as real == (y * y) as real * i as real;
    R.ProdNonNeg(z, g - Re16(i));
    R.ProdNonNeg(z, EPS - (g - Re16(i)));
    assert Re16(n / TWO32) <= z * Re16(i) <= Re16(n / TWO32) + EPS;
  }

  // ----- one update

  /** Sizes at which neither prediction nor innovation wraps. */
  predicate Tracked(s: State, dt: q16) {
    && !s.firstRun && Envelope(s) && Abs(s.xPos) <= 1000 * ONE && Abs(s.xVel) <= 5000 * ONE && 0 <= dt <= 5 * ONE
    && var pr := Predict(s, dt);
       0 <= pr.p00 <= 3000 * TWO32 && Abs(pr.p01) <= 3000 * TWO32
       && Abs(pr.p10) <= 3000 * TWO32 && Abs(pr.p11) <= 3000 * TWO32
  }

  /** The innovation in words: the measurement cut to [0, 500] less the predicted position. */
  function Innovation(s: State, zMeas: q16, dt: q16): q16 { Sub32(Max(0, Min(zMeas, 32_768_000)), Predict(s, dt).x) }

  lemma StepIsCorrect(s: State, zMeas: q16, dtSec: q16)
    requires !s.firstRun && dtSec <= 327_680
    ensures var dt := Max(dtSec, 6);
            var pr, y := Predict(s, dt), Innovation(s, zMeas, dt);
            Step(s, zMeas, dtSec) == Correct(pr, Adapt(s.covY, s.qVel, y, pr.p00), y)
  {
    hide Predict, Adapt, Correct;
  }

  lemma PredictedSize(s: State, dt: q16)
    requires Abs(s.xPos) <= 1000 * ONE && Abs(s.xVel) <= 5000 * ONE && 0 <= dt <= 5 * ONE
    ensures FitsI32(s.xVel * dt / TWO16) && FitsI32(s.xPos + s.xVel * dt / TWO16)
    ensures Abs(Predict(s, dt).x) <= 26_001 * ONE
  {
    PredictedState(s, dt);
    hide Predict;
    AbsMulBounds(s.xVel, 5000 * ONE, dt, 5 * ONE);
    ScaledDown(s.xVel * dt, 25_000 * ONE);
  }

  lemma ScaledDown(x: int, h: int)
    requires Abs(x) <= h * TWO16
    ensures Abs(x / TWO16) <= h
  {
    DivMono(-h * TWO16, x, TWO16);
    DivMono(x, h * TWO16, TWO16);
    DivUnique(-h * TWO16, TWO16, -h, 0);
    DivUnique(h * TWO16, TWO16, h, 0);
  }

  lemma InnovationReal(x: q16, zMeas: q16)
    requires Abs(x) <= 26_001 * ONE
    ensures var y := Sub32(Max(0, Min(zMeas, 32_768_000)), x);
            Re16(y) == R.Clamp(Re16(zMeas), 0.0, 500.0) - Re16(x) && FitsI32(x + y)
  {
  }

  lemma StepParts(s: State, zMeas: q16, dtSec: q16)
    requires Tracked(s, Max(dtSec, 6)) && dtSec <= 327_680
    ensures var pr, y := Predict(s, Max(dtSec, 6)), Innovation(s, zMeas, Max(dtSec, 6));
            var n := Adapt(s.covY, s.qVel, y, pr.p00);
            && Step(s, zMeas, dtSec) == Correct(pr, n, y) && Sized(pr, n) && n.s == pr.p00 / TWO16 + n.rMeas
            && 0 <= s.covY <= COV_MAX
            && 0 <= s.qVel <= Q_MAX && PriorInRange(pr.p00)
            && Re16(y) == R.Clamp(Re16(zMeas), 0.0, 500.0) - Re16(pr.x) && FitsI32(pr.x + y)
    ensures var x := Re16(s.xPos) + Times(Re16(s.xVel), Re16(Max(dtSec, 6)));
            x - EPS <= Re16(Predict(s, Max(dtSec, 6)).x) <= x && Predict(s, Max(dtSec, 6)).v == s.xVel
  {
    hide Predict, Adapt, Correct, Step, Re, Re16, R.Clamp, Times;
    var dt := Max(dtSec, 6);
    PredictedSize(s, dt);
    PositionNear(s, dt);
    var pr, y := Predict(s, dt), Innovation(s, zMeas, dt);
    StepIsCorrect(s, zMeas, dtSec);
    InnovationReal(pr.x, zMeas);
    AdaptSized(s.covY, s.qVel, y, pr);
  }

  /** Position: predicted to x + v dt, and moved from there by k0 = p00 / (p00 + r) of the innovation. */
  lemma PositionTracks(s: State, zMeas: q16, dtSec: q16)
    requires Tracked(s, Max(dtSec, 6)) && dtSec <= 327_680
    ensures var s', pr := Step(s, zMeas, dtSec), Predict(s, Max(dtSec, 6));
            var p, r, sum := Re(pr.p00), Re16(s'.rMeas), Re16(pr.p00 / TWO16 + s'.rMeas);
            var x := Re16(s.xPos) + Times(Re16(s.xVel), Re16(Max(dtSec, 6)));
            && sum > 0.0 && p + r > 0.0 && x - EPS <= Re16(pr.x) <= x
            && var y := R.Clamp(Re16(zMeas), 0.0, 500.0) - Re16(pr.x);
               AbsR(Re16(s'.xPos) - (Re16(pr.x) + Times(Quot(p, p + r), y)))
               <= Times(GainError(AbsR(p), Quot(1.0, sum)), AbsR(y)) + EPS
  {
    hide Predict, Adapt, Correct, Step, Innovation, Re, Re16, GainError, AbsR, Times, R.Clamp, Quot, Sized;
    StepParts(s, zMeas, dtSec);
    var pr, y := Predict(s, Max(dtSec, 6)), Innovation(s, zMeas, Max(dtSec, 6));
    var n := Adapt(s.covY, s.qVel, y, pr.p00);
    SumNear(pr, n);
    PositionCorrected(pr, n, y);
    StateWords(pr, n, y);
  }

  /** Velocity: kept by the prediction, and moved by k1 = p10 / (p00 + r) of the innovation. */
  lemma VelocityTracks(s: State, zMeas: q16, dtSec: q16)
    requires Tracked(s, Max(dtSec, 6)) && dtSec <= 327_680
    requires var pr, y := Predict(s, Max(dtSec, 6)), Innovation(s, zMeas, Max(dtSec, 6));
             var k1 := Gain(pr.p10, Adapt(s.covY, s.qVel, y, pr.p00).s);
             FitsI32(k1 * y / TWO16) && FitsI32(s.xVel + k1 * y / TWO16)
    ensures var s', pr := Step(s, zMeas, dtSec), Predict(s, Max(dtSec, 6));
            var p, c, r := Re(pr.p00), Re(pr.p10), Re16(s'.rMeas);
            var sum := Re16(pr.p00 / TWO16 + s'.rMeas);
            && sum > 0.0 && p + r > 0.0
            && var y := R.Clamp(Re16(zMeas), 0.0, 500.0) - Re16(pr.x);
               AbsR(Re16(s'.xVel) - (Re16(s.xVel) + Times(Quot(c, p + r), y)))
               <= Times(GainError(AbsR(c), Quot(1.0, sum)), AbsR(y)) + EPS
  {
    hide Predict, Adapt, Correct, Step, Innovation, Re, Re16, GainError, AbsR, Times, R.Clamp, Quot, Gain, Sized;
    StepParts(s, zMeas, dtSec);
    var pr, y := Predict(s, Max(dtSec, 6)), Innovation(s, zMeas, Max(dtSec, 6));
    var n := Adapt(s.covY, s.qVel, y, pr.p00);
    SumNear(pr, n);
    VelocityCorrected(pr, n, y);
    StateWords(pr, n, y);
  }

  /** Noise: the innovation average, the measurement noise and the process noise of the updated state. */
  lemma NoiseTracks(s: State, zMeas: q16, dtSec: q16)
    requires Tracked(s, Max(dtSec, 6)) && dtSec <= 327_680
    ensures var s', pr := Step(s, zMeas, dtSec), Predict(s, Max(dtSec, 6));
            var c := R.Clamp(R.Clamp(Re16(zMeas), 0.0, 500.0) - Re16(pr.x), -20.0, 20.0);
            var m := 0.95 * Re(s.covY) + 0.05 * Times(c, c);
            && m - 0.0062 <= Re(s'.covY) <= m
            && AbsR(Re16(s'.rMeas) - R.NextR(Re(s'.covY), Re(pr.p00))) <= EPS
            && AbsR(Re16(s'.qVel)
                    - R.NextQ(Re16(s.qVel), Re16(s'.covY / TWO16), Re16(pr.p00 / TWO16 + s'.rMeas))) <= 0.005
  {
    hide Predict, Adapt, Correct, Step, Innovation, Re, Re16, AbsR, Times, R.Clamp, R.NextR, R.NextQ;
    StepParts(s, zMeas, dtSec);
    var pr, y := Predict(s, Max(dtSec, 6)), Innovation(s, zMeas, Max(dtSec, 6));
    var n := Adapt(s.covY, s.qVel, y, pr.p00);
    AverageNear(s.covY, s.qVel, y, pr.p00);
    MeasurementNoiseNear(s.covY, s.qVel, y, pr.p00);
    ProcessNoiseNear(s.covY, s.qVel, y, pr.p00);
    StateWords(pr, n, y);
  }

  lemma NisWord(s: State, zMeas: q16, dtSec: q16)
    requires Tracked(s, Max(dtSec, 6)) && dtSec <= 327_680 && Abs(Innovation(s, zMeas, Max(dtSec, 6))) <= 800 * ONE
    ensures var pr, y := Predict(s, Max(dtSec, 6)), Innovation(s, zMeas, Max(dtSec, 6));
            var n, nis := Adapt(s.covY, s.qVel, y, pr.p00), Step(s, zMeas, dtSec).nis;
            3 <= n.s && nis == Nis(y, n.s) == y * y * (TWO32 / n.s) / TWO32 && nis < TWO31
  {
    hide Predict, Adapt, Correct, Step, Nis, InvS;
    var pr, y := Predict(s, Max(dtSec, 6)), Innovation(s, zMeas, Max(dtSec, 6));
    var n := Adapt(s.covY, s.qVel, y, pr.p00);
    PredictedSize(s, Max(dtSec, 6));
    AdaptSized(s.covY, s.qVel, y, pr);
    assert StepDt(dtSec) == Max(dtSec, 6) && Measurement(zMeas) - pr.x == y;
    NisNeverWraps(s, zMeas, dtSec);
    StepIsCorrect(s, zMeas, dtSec);
    StateWords(pr, n, y);
    InvSExact(n.s);
  }

  /** NIS: the squared innovation over s_pred, for innovations up to 800. */
  lemma NisTracks(s: State, zMeas: q16, dtSec: q16)
    requires Tracked(s, Max(dtSec, 6)) && dtSec <= 327_680 && Abs(Innovation(s, zMeas, Max(dtSec, 6))) <= 800 * ONE
    ensures var s', pr := Step(s, zMeas, dtSec), Predict(s, Max(dtSec, 6));
            var sum := Re16(pr.p00 / TWO16 + s'.rMeas);
            && sum > 0.0
            && var y := R.Clamp(Re16(zMeas), 0.0, 500.0) - Re16(pr.x);
               var z := Times(y, y);
               Quot(z, sum) - EPS * (z + 1.0) <= Re16(s'.nis) <= Quot(z, sum)
  {
    hide Predict, Adapt, Correct, Step, Innovation, Re, Re16, R.Clamp, Nis, Quot, Times, Sized;
    StepParts(s, zMeas, dtSec);
    NisWord(s, zMeas, dtSec);
    var pr, y := Predict(s, Max(dtSec, 6)), Innovation(s, zMeas, Max(dtSec, 6));
    var n := Adapt(s.covY, s.qVel, y, pr.p00);
    StateWords(pr, n, y);
    NisNear(y, n.s);
  }
}
