/** The fixed-point Kalman filter of src/core/kalman.c. Sums that leave their width wrap, so every
    statement here holds whatever the covariance entries have become. */
module Kalman {
  import opened Machine
  import opened FixedPoint
  import opened WideMul

  type q32 = i64

  const A_EMA: q16 := 3276          // 0.05
  const INV_A: q16 := 62259         // 0.95
  const R_MIN: q16 := 6553          // 0.1
  const R_MAX: q16 := 50 * 0x1_0000
  const Q_MIN: q16 := 655           // 0.01
  const Q_MAX: q16 := 20 * 0x1_0000
  const DT_MIN: q16 := 6            // 0.0001
  const Z_MAX: q16 := 500 * 0x1_0000
  const COV_MAX: q32 := 400 * 0x1_0000_0000

  /** Q16_TO_Q32 */
  function Up(q: q16): q32 { q * TWO16 }

  /** Q32_TO_Q16 */
  function Down(q: q32): q16 { W32(q / TWO16) }

  datatype State = State(
    xPos: q16, xVel: q16,
    p00: q32, p01: q32, p10: q32, p11: q32,
    qVel: q16, rMeas: q16, covY: q32, nis: q16, firstRun: bool)

  const INITIAL: State := State(0, 0, Up(100 * ONE), 0, 0, Up(100 * ONE), ONE, 4 * ONE, Up(16 * ONE), 0, true)

  /** The state predicted over dt. */
  datatype Prior = Prior(x: q16, v: q16, p00: q32, p01: q32, p10: q32, p11: q32)

  function Predict(s: State, dt: q16): Prior {
    var dtQ := Up(dt);
    var dt2 := Q32Mul(dtQ, dtQ);
    var dt3 := Q32Mul(dt2, dtQ);
    var dt4 := Q32Mul(dt3, dtQ);
    var qPos := Q16Mul(s.qVel, Q_MIN);
    var qPosDt := Q32Mul(Up(qPos), dtQ);
    var qVelQ := Up(s.qVel);
    var q00 := Add64(TruncDiv(Q32Mul(qVelQ, dt4), 4), qPosDt);
    var q01 := W64(TruncDiv(Q32Mul(qVelQ, dt3), 2));
    var q11 := Add64(Q32Mul(qVelQ, dt2), qPosDt);
    var f00 := Add64(s.p00, Q32Mul(s.p10, dtQ));
    var f01 := Add64(s.p01, Q32Mul(s.p11, dtQ));
    Prior(
      Add32(s.xPos, Q16Mul(s.xVel, dt)), s.xVel,
      Add64(Add64(f00, Q32Mul(f01, dtQ)), q00), Add64(f01, q01),
      Add64(Add64(s.p10, Q32Mul(s.p11, dtQ)), q01), Add64(s.p11, q11))
  }

  /** The noise parameters adapted to the innovation y, and the innovation variance s. */
  datatype Noise = Noise(covY: q32, rMeas: q16, s: q16, qVel: q16)

  function Adapt(covY: q32, qVel: q16, y: q16, p00Pred: q32): Noise {
    var yQ := Up(Clamp(y, -20 * ONE, 20 * ONE));
    var ySq := Q32Mul(yQ, yQ);
    var cov := Add64(Q32Mul(Up(INV_A), covY), Q32Mul(Up(A_EMA), ySq));
    var cy, p00 := Down(cov), Down(p00Pred);
    var r := Clamp(Sub32(cy, p00), R_MIN, R_MAX);
    var sPred := Add32(p00, r);
    var nextQ :=
      if cy > sPred then Add32(qVel, Q16Mul(A_EMA, Sub32(cy, sPred))) else Q16Mul(INV_A, qVel);
    Noise(cov, r, sPred, Clamp(nextQ, Q_MIN, Q_MAX))
  }

  function InvS(s: q16): q16 { if s > 0 then Q16Div(ONE, s) else 0 }

  function Gain(pQ32: q32, s: q16): q16 { Q16Mul(Down(pQ32), InvS(s)) }

  function Nis(y: q16, s: q16): q16 {
    Down(Q32Mul(Q32Mul(Up(y), Up(y)), Up(InvS(s))))
  }

  function Correct(pr: Prior, n: Noise, y: q16): State {
    var k0, k1 := Gain(pr.p00, n.s), Gain(pr.p10, n.s);
    var t := Up(Sub32(ONE, k0));
    State(
      Add32(pr.x, Q16Mul(k0, y)), Add32(pr.v, Q16Mul(k1, y)),
      Q32Mul(t, pr.p00), Q32Mul(t, pr.p01),
      Sub64(pr.p10, Q32Mul(Up(k1), pr.p00)), Sub64(pr.p11, Q32Mul(Up(k1), pr.p01)),
      n.qVel, n.rMeas, n.covY, Nis(y, n.s), false)
  }

  function Measurement(zMeas: q16): q16 { Clamp(zMeas, 0, Z_MAX) }

  function StepDt(dtSec: q16): q16 { if dtSec > DT_MIN then dtSec else DT_MIN }

  /** One call of pg_kalman_update: the new state. A gap of more than 5 s restarts the filter. */
  function Step(s: State, zMeas: q16, dtSec: q16): State {
    var z := Measurement(zMeas);
    var s0 := if dtSec > 5 * ONE then INITIAL else s;
    if s0.firstRun then s0.(xPos := z, xVel := 0, firstRun := false)
    else
      var pr := Predict(s0, StepDt(dtSec));
      var y := Sub32(z, pr.x);
      Correct(pr, Adapt(s0.covY, s0.qVel, y, pr.p00), y)
  }

  /** The filter object: fields overwritten in place, in the order of the source. */
  class Filter {
    var xPos: q16
    var xVel: q16
    var p00: q32
    var p01: q32
    var p10: q32
    var p11: q32
    var qVel: q16
    var rMeas: q16
    var covY: q32
    var nis: q16
    var firstRun: bool

    ghost function Value(): State
      reads this
    {
      State(xPos, xVel, p00, p01, p10, p11, qVel, rMeas, covY, nis, firstRun)
    }

    constructor ()
      ensures Value() == INITIAL
    {
      new;
      Reset();
    }

    method Reset()
      modifies this
      ensures Value() == INITIAL
    {
      firstRun, xPos, xVel := true, 0, 0;
      p00, p01, p10, p11 := Up(100 * ONE), 0, 0, Up(100 * ONE);
      qVel, rMeas, covY := ONE, 4 * ONE, Up(16 * ONE);
      nis := 0;
    }

    /** The prediction: nothing is written yet. */
    method Predicted(dt: q16) returns (pr: Prior)
      ensures pr == Predict(Value(), dt)
    {
      var dtQ := Up(dt);
      var dt2 := Q32Mul(dtQ, dtQ);
      var dt3 := Q32Mul(dt2, dtQ);
      var dt4 := Q32Mul(dt3, dtQ);

      var xPred := Add32(xPos, Q16Mul(xVel, dt));

      var qPos := Q16Mul(qVel, Q_MIN);
      var qVelQ := Up(qVel);
      var qPosDt := Q32Mul(Up(qPos), dtQ);
      var q00 := Add64(TruncDiv(Q32Mul(qVelQ, dt4), 4), qPosDt);
      var q01 := W64(TruncDiv(Q32Mul(qVelQ, dt3), 2));
      var q11 := Add64(Q32Mul(qVelQ, dt2), qPosDt);

      var f00 := Add64(p00, Q32Mul(p10, dtQ));
      var f01 := Add64(p01, Q32Mul(p11, dtQ));
      pr := Prior(
        xPred, xVel, Add64(Add64(f00, Q32Mul(f01, dtQ)), q00), Add64(f01, q01),
        Add64(Add64(p10, Q32Mul(p11, dtQ)), q01), Add64(p11, q11));
    }

    /** The noise parameters follow the innovation; sPred is the innovation variance. */
    method AdaptNoise(y: q16, p00Pred: q32) returns (sPred: q16)
      modifies `covY, `rMeas, `qVel
      ensures Noise(covY, rMeas, sPred, qVel) == Adapt(old(covY), old(qVel), y, p00Pred)
    {
      var yQ := Up(Clamp(y, -20 * ONE, 20 * ONE));
      var ySq := Q32Mul(yQ, yQ);
      covY := Add64(Q32Mul(Up(INV_A), covY), Q32Mul(Up(A_EMA), ySq));
      var cy, p00Q16 := Down(covY), Down(p00Pred);
      var calcR := Sub32(cy, p00Q16);
      rMeas := Clamp(calcR, R_MIN, R_MAX);

      sPred := Add32(p00Q16, rMeas);
      var nextQ := Q16Mul(INV_A, qVel);
      if cy > sPred {
        nextQ := Add32(qVel, Q16Mul(A_EMA, Sub32(cy, sPred)));
      }
      qVel := Clamp(nextQ, Q_MIN, Q_MAX);
    }

    method Update(zMeas: q16, dtSec: q16) returns (est: q16)
      modifies this
      ensures Value() == Step(old(Value()), zMeas, dtSec)
      ensures est == if xPos > 0 then xPos else 0
    {
      hide Q32Mul, Q16Mul, Q16Div, W32, W64, Add32, Sub32, Add64, Sub64, Predict, Adapt, Up, Down;
      var z := Clamp(zMeas, 0, Z_MAX);
      if dtSec > 5 * ONE {
        Reset();
      }
      if firstRun {
        xPos, xVel := z, 0;
        firstRun := false;
        return z;
      }

      var dt := if dtSec > DT_MIN then dtSec else DT_MIN;
      var pr := Predicted(dt);

      var y := Sub32(z, pr.x);
      var sPred := AdaptNoise(y, pr.p00);

      var invS := if sPred > 0 then Q16Div(ONE, sPred) else 0;
      var k0 := Q16Mul(Down(pr.p00), invS);
      var k1 := Q16Mul(Down(pr.p10), invS);
      xPos := Add32(pr.x, Q16Mul(k0, y));
      xVel := Add32(pr.v, Q16Mul(k1, y));

      var t := Sub32(ONE, k0);
      p00 := Q32Mul(Up(t), pr.p00);
      p01 := Q32Mul(Up(t), pr.p01);
      p10 := Sub64(pr.p10, Q32Mul(Up(k1), pr.p00));
      p11 := Sub64(pr.p11, Q32Mul(Up(k1), pr.p01));

      var rySq := Q32Mul(Up(y), Up(y));
      nis := Down(Q32Mul(rySq, Up(invS)));
      est := if xPos > 0 then xPos else 0;
    }
  }

  // ----- arithmetic on Q32 values that came from Q16

  /** Up(a) times a Q32 value is a * c / 2^16. */
  lemma UpMul(a: q16, c: q32)
    ensures Up(a) * c / TWO32 == a * c / TWO16
  {
    assert Up(a) * c == (a * c) * TWO16;
    DivTwice((a * c) * TWO16, TWO16, TWO16);
    DivUnique((a * c) * TWO16, TWO16, a * c, 0);
  }

  /** The square of a Q16 value as a Q32 value is exact. */
  lemma UpSquare(y: q16)
    ensures Q32Mul(Up(y), Up(y)) == y * y
    ensures 0 <= y * y <= TWO31 * TWO31
  {
    AbsMulBounds(y, TWO31, y, TWO31);
    UpMul(y, Up(y));
    assert y * Up(y) == (y * y) * TWO16;
    DivUnique((y * y) * TWO16, TWO16, y * y, 0);
  }

  // ----- the adaptive noise stays in its envelope

  predicate Envelope(s: State) {
    0 <= s.covY <= COV_MAX && R_MIN <= s.rMeas <= R_MAX && Q_MIN <= s.qVel <= Q_MAX
  }

  /** The moving average of the clamped squared innovation: never above 400, and never wrapped. */
  lemma CovStep(covY: q32, qVel: q16, y: q16, p00Pred: q32)
    requires 0 <= covY <= COV_MAX
    ensures var c: int := Clamp(y, -20 * ONE, 20 * ONE);
            var n := Adapt(covY, qVel, y, p00Pred);
            n.covY == INV_A * covY / TWO16 + A_EMA * (c * c) / TWO16
            && 0 <= n.covY <= COV_MAX
  {
    hide Q32Mul, Up;
    CovTerms(covY, Clamp(y, -20 * ONE, 20 * ONE));
  }

  lemma CovTerms(covY: q32, c: q16)
    requires 0 <= covY <= COV_MAX && -20 * ONE <= c <= 20 * ONE
    ensures 0 <= Q32Mul(Up(INV_A), covY) == INV_A * covY / TWO16
    ensures 0 <= Q32Mul(Up(A_EMA), Q32Mul(Up(c), Up(c))) == A_EMA * (c * c) / TWO16
    ensures INV_A * covY / TWO16 + A_EMA * (c * c) / TWO16 <= COV_MAX
  {
    hide Up;
    AbsMulBounds(c, 20 * ONE, c, 20 * ONE);
    UpSquare(c);
    UpMul(INV_A, covY);
    UpMul(A_EMA, c * c);
  }

  /** One update, with any measurement and any time step, keeps the noise parameters in range. */
  lemma StepEnvelope(s: State, zMeas: q16, dtSec: q16)
    requires Envelope(s)
    ensures Envelope(Step(s, zMeas, dtSec))
  {
    hide Q32Mul, Q16Mul, Nis, Gain, Predict, Adapt;
    var s0 := if dtSec > 5 * ONE then INITIAL else s;
    if !s0.firstRun {
      var pr := Predict(s0, StepDt(dtSec));
      var y := Sub32(Measurement(zMeas), pr.x);
      CovStep(s0.covY, s0.qVel, y, pr.p00);
      AdaptClamped(s0.covY, s0.qVel, y, pr.p00);
    }
  }

  lemma AdaptClamped(covY: q32, qVel: q16, y: q16, p00Pred: q32)
    ensures var n := Adapt(covY, qVel, y, p00Pred);
            R_MIN <= n.rMeas <= R_MAX && Q_MIN <= n.qVel <= Q_MAX
  {
    hide Q32Mul, Q16Mul, W32, W64, Add32, Sub32, Add64, Down;
  }

  function Run(s: State, inputs: seq<(q16, q16)>): State {
    if inputs == [] then s
    else Step(Run(s, inputs[..|inputs| - 1]), inputs[|inputs| - 1].0, inputs[|inputs| - 1].1)
  }

  /** Over every run from reset, for any measurements and time steps: cov_y in [0, 400],
      r_meas in [0.1, 50], q_vel in [0.01, 20]. */
  lemma {:induction false} RunEnvelope(inputs: seq<(q16, q16)>)
    ensures Envelope(Run(INITIAL, inputs))
  {
    if inputs != [] {
      var k := |inputs| - 1;
      RunEnvelope(inputs[..k]);
      StepEnvelope(Run(INITIAL, inputs[..k]), inputs[k].0, inputs[k].1);
    }
  }

  /** A gap of more than 5 s makes the filter forget every state it was in. */
  lemma LongGapForgets(s: State, zMeas: q16, dtSec: q16)
    requires dtSec > 5 * ONE
    ensures Step(s, zMeas, dtSec) == INITIAL.(xPos := Measurement(zMeas), firstRun := false)
  {
  }

  // ----- the gain

  /** p00_pred is non-negative and s_pred = p00_pred + r fits Q16 whatever r is chosen. */
  predicate PriorInRange(p00Pred: q32) { 0 <= p00Pred && p00Pred / TWO16 + R_MAX < TWO31 }

  /** s_pred is the exact sum, at least r_meas and at least p00_pred. */
  lemma Variance(covY: q32, qVel: q16, y: q16, p00Pred: q32)
    requires PriorInRange(p00Pred)
    ensures var n := Adapt(covY, qVel, y, p00Pred);
            n.s == p00Pred / TWO16 + n.rMeas && R_MIN <= n.s && Down(p00Pred) == p00Pred / TWO16 <= n.s
  {
    AdaptClamped(covY, qVel, y, p00Pred);
  }

  lemma InvSExact(s: q16)
    requires 3 <= s
    ensures InvS(s) == TWO32 / s && 0 <= TWO32 / s < TWO31
    ensures InvS(s) * s <= TWO32
  {
    DivAntitone(TWO32, 3, s);
    assert TWO32 == TWO32 / s * s + TWO32 % s;
  }

  /** 0 <= k0 <= 1, exactly the floor of p00 * inv_s. */
  lemma GainUnit(p00Pred: q32, s: q16)
    requires PriorInRange(p00Pred) && 3 <= s && p00Pred / TWO16 <= s
    ensures Gain(p00Pred, s) == p00Pred / TWO16 * InvS(s) / TWO16
    ensures 0 <= Gain(p00Pred, s) <= ONE
  {
    InvSExact(s);
    var p, i := p00Pred / TWO16, InvS(s);
    assert Down(p00Pred) == p;
    MulMono(p, s, i);
    assert s * i == i * s;
    MulBounds(p, p, i, i);
    DivMono(p * i, TWO32, TWO16);
    DivMono(0, p * i, TWO16);
  }

  /** A gain in [0, 1] moves the estimate from the prediction toward the measurement and no further. */
  lemma Between(k0: q16, y: q16)
    requires 0 <= k0 <= ONE
    ensures y >= 0 ==> 0 <= Q16Mul(k0, y) <= y
    ensures y <= 0 ==> y <= Q16Mul(k0, y) <= 0
  {
    if y >= 0 {
      MulUnit(y, k0);
      MulComm(y, k0);
    } else {
      var m: int := -1 * y;
      MulBounds(m, m, k0, ONE);
      assert k0 * y == -(m * k0);
      DivMono(y * TWO16, k0 * y, TWO16);
      DivMono(k0 * y, 0, TWO16);
    }
  }

  lemma ScaledVariance(k0: q16, p: q32)
    requires 0 <= k0 <= ONE && 0 <= p
    ensures 0 <= Q32Mul(Up(ONE - k0), p) <= p
  {
    var t := ONE - k0;
    UpMul(t, p);
    MulBounds(t, ONE, p, p);
    DivMono(t * p, ONE * p, TWO16);
    DivMono(0, t * p, TWO16);
    DivUnique(p * TWO16, TWO16, p, 0);
  }

  /** Whenever the predicted variance is non-negative and in range, the correction is a convex
      combination of prediction and measurement, and it does not increase the variance. */
  lemma CorrectionIsConvex(s: State, zMeas: q16, dtSec: q16)
    requires !s.firstRun && dtSec <= 5 * ONE
    requires var pr := Predict(s, StepDt(dtSec));
             PriorInRange(pr.p00) && FitsI32(Measurement(zMeas) - pr.x)
    ensures var pr := Predict(s, StepDt(dtSec));
            var z := Measurement(zMeas);
            var s' := Step(s, zMeas, dtSec);
            && (pr.x <= z ==> pr.x <= s'.xPos <= z)
            && (z <= pr.x ==> z <= s'.xPos <= pr.x)
            && 0 <= s'.p00 <= pr.p00
  {
    hide Q32Mul, Q16Mul, Predict, Adapt, Gain, Nis, InvS;
    var pr := Predict(s, StepDt(dtSec));
    var y := Sub32(Measurement(zMeas), pr.x);
    var n := Adapt(s.covY, s.qVel, y, pr.p00);
    Variance(s.covY, s.qVel, y, pr.p00);
    GainUnit(pr.p00, n.s);
    var k0 := Gain(pr.p00, n.s);
    Between(k0, y);
    ScaledVariance(k0, pr.p00);
  }

  // ----- the normalized innovation squared

  /** The squared innovation enters the moving average clamped at 20, so a large innovation forces
      the variance up: s_pred is at least 3276 * 400 ulp (19.99) whenever |y| >= 20. */
  lemma LargeInnovation(covY: q32, qVel: q16, y: q16, p00Pred: q32)
    requires 0 <= covY <= COV_MAX && PriorInRange(p00Pred) && 20 * ONE <= Abs(y)
    ensures Adapt(covY, qVel, y, p00Pred).s >= 3276 * 400
  {
    hide Adapt;
    CovStep(covY, qVel, y, p00Pred);
    Variance(covY, qVel, y, p00Pred);
    AdaptS(covY, qVel, y, p00Pred);
  }

  /** s_pred is the larger of the moving average and p00_pred + 0.1, unless r_meas is cut at 50. */
  lemma AdaptS(covY: q32, qVel: q16, y: q16, p00Pred: q32)
    requires 0 <= covY <= COV_MAX && PriorInRange(p00Pred)
    ensures var n := Adapt(covY, qVel, y, p00Pred);
            n.s >= n.covY / TWO16 || n.s >= R_MAX
  {
    CovStep(covY, qVel, y, p00Pred);
    Variance(covY, qVel, y, p00Pred);
  }

  /** The exact value the NIS computation narrows to Q16. */
  function NisExact(y: q16, s: q16): int { y * y * InvS(s) / TWO32 }

  lemma NisIsExact(y: q16, s: q16, hi: nat)
    requires 3 <= s && y * y * InvS(s) <= hi * TWO32 && hi < TWO31
    ensures Nis(y, s) == NisExact(y, s)
    ensures 0 <= NisExact(y, s) <= hi
  {
    InvSExact(s);
    UpSquare(y);
    var i := InvS(s);
    MulBounds(y * y, y * y, i, i);
    UpMul(i, y * y);
    assert (y * y) * Up(i) == Up(i) * (y * y) && i * (y * y) == y * y * i;
    var t := y * y * i / TWO16;
    DivMono(y * y * i, hi * TWO32, TWO16);
    DivUnique(hi * TWO32, TWO16, hi * TWO16, 0);
    DivMono(0, y * y * i, TWO16);
    assert Q32Mul(y * y, Up(i)) == t;
    DivTwice(y * y * i, TWO16, TWO16);
    DivMono(t, hi * TWO16, TWO16);
    DivUnique(hi * TWO16, TWO16, hi, 0);
    DivMono(0, t, TWO16);
  }

  /** Narrowing the NIS to Q16 loses nothing: for every state in the envelope whose predicted variance
      is in range, and every innovation of at most 800 in magnitude, it is the exact
      floor(y^2 * inv_s) and lies in [0, INT32_MAX]. */
  lemma NisNeverWraps(s: State, zMeas: q16, dtSec: q16)
    requires Envelope(s) && !s.firstRun && dtSec <= 5 * ONE
    requires var pr := Predict(s, StepDt(dtSec));
             PriorInRange(pr.p00) && Abs(Measurement(zMeas) - pr.x) <= 800 * ONE
    ensures var pr := Predict(s, StepDt(dtSec));
            var y := Measurement(zMeas) - pr.x;
            var n := Adapt(s.covY, s.qVel, y, pr.p00);
            var nis := Step(s, zMeas, dtSec).nis;
            nis == y * y * InvS(n.s) / TWO32 && 0 <= nis <= I32_MAX
  {
    hide Q32Mul, Q16Mul, Predict, Adapt, Gain, Nis, InvS;
    var pr := Predict(s, StepDt(dtSec));
    var y: q16 := Measurement(zMeas) - pr.x;
    var n := Adapt(s.covY, s.qVel, y, pr.p00);
    Variance(s.covY, s.qVel, y, pr.p00);
    if 20 * ONE <= Abs(y) {
      LargeInnovation(s.covY, s.qVel, y, pr.p00);
      NisBound(y, n.s, 800 * ONE, 3276 * 400, 2_097_280_000);
    } else {
      NisBound(y, n.s, 20 * ONE, R_MIN, 262_168_800);
    }
  }

  lemma NisBound(y: q16, s: q16, hiY: nat, loS: q16, hi: nat)
    requires Abs(y) <= hiY <= 800 * ONE && 3 <= loS <= s && hiY * hiY * (TWO32 / loS) <= hi * TWO32 && hi < TWO31
    ensures Nis(y, s) == y * y * InvS(s) / TWO32 && 0 <= Nis(y, s) <= hi
  {
    InvSExact(s);
    DivAntitone(TWO32, loS, s);
    AbsMulBounds(y, hiY, y, hiY);
    assert y * y >= 0;
    MulBounds(y * y, hiY * hiY, InvS(s), TWO32 / loS);
    NisIsExact(y, s, hi);
  }

  // ----- the first correction after a reset needs no assumption

  lemma BoundedMul(a: q32, hiA: nat, b: q32, hiB: nat)
    requires 0 <= a <= hiA * TWO32 && 0 <= b <= hiB * TWO32 && hiA * hiB <= 1_000_000_000
    ensures 0 <= Q32Mul(a, b) <= (hiA * hiB) * TWO32
  {
    MulBounds(a, hiA * TWO32, b, hiB * TWO32);
    assert (hiA * TWO32) * (hiB * TWO32) == ((hiA * hiB) * TWO32) * TWO32;
    DivMono(a * b, ((hiA * hiB) * TWO32) * TWO32, TWO32);
    DivUnique(((hiA * hiB) * TWO32) * TWO32, TWO32, (hiA * hiB) * TWO32, 0);
    DivMono(0, a * b, TWO32);
  }

  lemma FreshPrior(z: q16, dt: q16)
    requires DT_MIN <= dt <= 5 * ONE
    ensures var pr := Predict(INITIAL.(xPos := z, firstRun := false), dt);
            pr.x == z && PriorInRange(pr.p00)
  {
    hide Q32Mul;
    var dtQ := Up(dt);
    BoundedMul(dtQ, 5, dtQ, 5);
    var dt2 := Q32Mul(dtQ, dtQ);
    BoundedMul(dt2, 25, dtQ, 5);
    var dt3 := Q32Mul(dt2, dtQ);
    BoundedMul(dt3, 125, dtQ, 5);
    var dt4 := Q32Mul(dt3, dtQ);
    BoundedMul(Up(ONE), 1, dt4, 625);
    BoundedMul(Up(Q16Mul(ONE, Q_MIN)), 1, dtQ, 5);
    BoundedMul(Up(100 * ONE), 100, dtQ, 5);
    BoundedMul(Q32Mul(Up(100 * ONE), dtQ), 500, dtQ, 5);
    BoundedMul(0, 0, dtQ, 5);
  }

  /** The second update after any reset, at most 5 s later: whatever the two measurements are, the estimate
      lies between them and the NIS is exact. */
  lemma SecondUpdate(z1: q16, dt1: q16, z2: q16, dt2: q16)
    requires dt2 <= 5 * ONE
    ensures var a := Step(INITIAL, z1, dt1);
            var b := Step(a, z2, dt2);
            && a.xPos == Measurement(z1)
            && (Measurement(z1) <= Measurement(z2) ==> a.xPos <= b.xPos <= Measurement(z2))
            && (Measurement(z2) <= Measurement(z1) ==> Measurement(z2) <= b.xPos <= a.xPos)
            && 0 <= b.nis <= I32_MAX
  {
    var a := Step(INITIAL, z1, dt1);
    FreshPrior(a.xPos, StepDt(dt2));
    StepEnvelope(INITIAL, z1, dt1);
    hide Step, Predict;
    assert a == INITIAL.(xPos := Measurement(z1), firstRun := false) by { FirstStep(z1, dt1); }
    CorrectionIsConvex(a, z2, dt2);
    NisNeverWraps(a, z2, dt2);
  }

  lemma FirstStep(z: q16, dt: q16)
    ensures Step(INITIAL, z, dt) == INITIAL.(xPos := Measurement(z), firstRun := false)
  {
  }

  // ----- when the fixed-point covariance stays symmetric

  lemma WrapInjective(x: int, y: int)
    requires Abs(x - y) < TWO64 && W64(x) == W64(y)
    ensures x == y
  {
    W64IsMod(x);
    W64IsMod(y);
    hide W64;
    var a, b := (x + TWO63) / TWO64, (y + TWO63) / TWO64;
    assert x - y == (a - b) * TWO64;
  }

  /** Wrapping sums and differences tell 64-bit values apart. */
  lemma WrapApart(a: q32, b: q32, z: int)
    ensures Add64(a, z) == Add64(b, z) <==> a == b
    ensures Sub64(z, a) == Sub64(z, b) <==> a == b
  {
    hide W64;
    if Add64(a, z) == Add64(b, z) {
      WrapInjective(a + z, b + z);
    }
    if Sub64(z, a) == Sub64(z, b) {
      WrapInjective(z - a, z - b);
    }
  }

  /** A prediction is symmetric if and only if it starts from a symmetric covariance. */
  lemma PredictSymmetric(s: State, dt: q16)
    ensures var pr := Predict(s, dt); pr.p01 == pr.p10 <==> s.p01 == s.p10
  {
    hide Q32Mul, Add64, Add32, Q16Mul, W64, TruncDiv;
    var dtQ := Up(dt);
    var m := Q32Mul(s.p11, dtQ);
    var q01 := W64(TruncDiv(Q32Mul(Up(s.qVel), Q32Mul(Q32Mul(dtQ, dtQ), dtQ)), 2));
    WrapApart(s.p01, s.p10, m);
    WrapApart(Add64(s.p01, m), Add64(s.p10, m), q01);
  }

  /** x / 2^16 rounded up. */
  function CeilDown(x: int): int { -(-x / TWO16) }

  /** The share of c left by a gain in [0, 1]: what the gain takes is rounded up. */
  lemma ShareLeft(k0: q16, c: q32)
    requires 0 <= k0 <= ONE
    ensures FitsI64(CeilDown(k0 * c))
    ensures Q32Mul(Up(Sub32(ONE, k0)), c) == Sub64(c, CeilDown(k0 * c))
  {
    var t := ONE - k0;
    UpMul(t, c);
    assert t * c == -(k0 * c) + c * TWO16;
    ModShift(-(k0 * c), c, TWO16);
    var h: int := Abs(c);
    AbsMulBounds(k0, ONE, c, h);
    DivMono(-h * TWO16, -(k0 * c), TWO16);
    DivMono(-(k0 * c), h * TWO16, TWO16);
    DivUnique(h * TWO16, TWO16, h, 0);
    DivUnique(-h * TWO16, TWO16, -h, 0);
  }

  lemma UpMulWrapped(a: q16, c: q32)
    ensures Q32Mul(Up(a), c) == W64(a * c / TWO16)
  {
    UpMul(a, c);
  }

  /** The two off-diagonal entries lose k0 * c rounded up and k1 * p00 rounded down. Over the reals these are
      the same number; here the entries agree if and only if the two roundings do. */
  lemma CorrectSymmetric(pr: Prior, n: Noise, y: q16)
    requires pr.p01 == pr.p10 && PriorInRange(pr.p00) && 3 <= n.s && pr.p00 / TWO16 <= n.s
    ensures var k0, k1 := Gain(pr.p00, n.s), Gain(pr.p10, n.s);
            var s := Correct(pr, n, y);
            s.p01 == s.p10 <==> CeilDown(k0 * pr.p01) == W64(k1 * pr.p00 / TWO16)
  {
    hide Gain, Q32Mul, Sub64, CeilDown, InvS, Nis, W64;
    var k0, k1 := Gain(pr.p00, n.s), Gain(pr.p10, n.s);
    GainUnit(pr.p00, n.s);
    ShareLeft(k0, pr.p01);
    UpMulWrapped(k1, pr.p00);
    WrapApart(CeilDown(k0 * pr.p01), Q32Mul(Up(k1), pr.p00), pr.p01);
  }

  /** One update from a symmetric covariance, for every measurement and every time step that is no restart. */
  lemma SymmetryKept(s: State, zMeas: q16, dtSec: q16)
    requires s.p01 == s.p10 && !s.firstRun && dtSec <= 5 * ONE
    requires PriorInRange(Predict(s, StepDt(dtSec)).p00)
    ensures var pr := Predict(s, StepDt(dtSec));
            var n := Adapt(s.covY, s.qVel, Sub32(Measurement(zMeas), pr.x), pr.p00);
            var k0, k1 := Gain(pr.p00, n.s), Gain(pr.p10, n.s);
            var s' := Step(s, zMeas, dtSec);
            s'.p01 == s'.p10 <==> CeilDown(k0 * pr.p01) == W64(k1 * pr.p00 / TWO16)
  {
    hide Predict, Adapt, Correct, Gain, CeilDown, W64;
    var pr := Predict(s, StepDt(dtSec));
    var y := Sub32(Measurement(zMeas), pr.x);
    PredictSymmetric(s, StepDt(dtSec));
    Variance(s.covY, s.qVel, y, pr.p00);
    CorrectSymmetric(pr, Adapt(s.covY, s.qVel, y, pr.p00), y);
  }

  lemma MulAt(a: q32, b: q32, r: q32)
    requires r * TWO32 <= a * b < r * TWO32 + TWO32
    ensures Q32Mul(a, b) == r
  {
    DivUnique(a * b, TWO32, r, a * b - r * TWO32);
  }

  /** The products of a millisecond's prediction from a seeded filter. */
  lemma ShortPowers()
    ensures var d := Up(65);
            Q32Mul(d, d) == 4225 && Q32Mul(4225, d) == 4 && Q32Mul(4, d) == 0 && Q32Mul(0, d) == 0
  {
    var d := Up(65);
    hide Q32Mul;
    MulAt(d, d, 4225);
    MulAt(4225, d, 4);
    MulAt(4, d, 0);
    MulAt(0, d, 0);
  }

  lemma ShortProducts()
    ensures var d := Up(65);
            && Q32Mul(Up(ONE), 0) == 0 && Q32Mul(Up(ONE), 4) == 4 && Q32Mul(Up(ONE), 4225) == 4225
            && Q32Mul(Up(655), d) == 42_575 && Q32Mul(Up(100 * ONE), d) == 425_984_000
            && Q32Mul(425_984_000, d) == 422_500
  {
    var d := Up(65);
    hide Q32Mul;
    MulAt(Up(ONE), 0, 0);
    MulAt(Up(ONE), 4, 4);
    MulAt(Up(ONE), 4225, 4225);
    MulAt(Up(655), d, 42_575);
    MulAt(Up(100 * ONE), d, 425_984_000);
    MulAt(425_984_000, d, 422_500);
  }

  /** The prediction over a millisecond, the shortest time step the PSI reader passes, from a seeded filter. */
  lemma ShortPrior(z: q16)
    ensures Predict(INITIAL.(xPos := z, firstRun := false), 65)
         == Prior(z, 0, 429_497_194_675, 425_984_002, 425_984_002, 429_496_776_400)
  {
    ShortPowers();
    ShortProducts();
    assert Q16Mul(ONE, Q_MIN) == 655 && Q16Mul(0, 65) == 0;
    hide Q32Mul, Q16Mul;
  }

  /** With a variance near 100 the first innovation, however large, leaves the measurement noise at its minimum. */
  lemma FreshNoise(y: q16)
    ensures Adapt(INITIAL.covY, ONE, y, 429_497_194_675).s == 6_560_160
  {
    var c: int := Clamp(y, -20 * ONE, 20 * ONE);
    AbsMulBounds(c, 20 * ONE, c, 20 * ONE);
    CovStep(INITIAL.covY, ONE, y, 429_497_194_675);
    hide Q32Mul, Q16Mul;
  }

  lemma ShortCorrection(x: q16, n: Noise, y: q16)
    requires n.s == 6_560_160
    ensures var s := Correct(Prior(x, 0, 429_497_194_675, 425_984_002, 425_984_002, 429_496_776_400), n, y);
            s.p01 == 884_000 && s.p10 == 6_553_148
  {
    assert Gain(429_497_194_675, 6_560_160) == 65_400 && Gain(425_984_002, 6_560_160) == 64;
    hide Q32Mul, Gain, Q16Mul, Nis;
    MulAt(Up(136), 425_984_002, 884_000);
    MulAt(Up(64), 429_497_194_675, 419_430_854);
  }

  /** The first correction after a reset makes the off-diagonal entries differ, whatever the two measurements
      are: seeded as every reader does, then updated a millisecond later. */
  lemma SymmetryLost(z1: q16, z2: q16)
    ensures var s := Step(Step(INITIAL, z1, ONE), z2, 65); s.p01 == 884_000 && s.p10 == 6_553_148
  {
    hide Predict, Adapt, Correct;
    FirstStep(z1, ONE);
    ShortPrior(Measurement(z1));
    var y := Sub32(Measurement(z2), Measurement(z1));
    FreshNoise(y);
    ShortCorrection(Measurement(z1), Adapt(INITIAL.covY, ONE, y, 429_497_194_675), y);
  }
}
