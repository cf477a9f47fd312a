/** How far the fixed-point filter of src/core/kalman.c is from exact real arithmetic: the rounding of one
    prediction and of the gain, in units of the last place. */
module KalmanNear {
  import opened Machine
  import opened FixedPoint
  import opened WideMul
  import opened Kalman
  import R = KalmanReal

  /** One in Q32.32. */
  const U: real := 4294967296.0

  /** The number a Q32.32 word stands for. */
  function Re(x: int): real { x as real / U }

  /** The word x is within e units of the last place of the real number a. */
  predicate Near(x: int, a: real, e: real) { -e <= x as real - a * U <= e }

  /** Covariance entries up to 2^20, far above anything the filter starts from. */
  const P_MAX := 1_048_576

  predicate Small(s: State) {
    && Abs(s.p00) <= P_MAX * TWO32 && Abs(s.p01) <= P_MAX * TWO32
    && Abs(s.p10) <= P_MAX * TWO32 && Abs(s.p11) <= P_MAX * TWO32
    && Q_MIN <= s.qVel <= Q_MAX
  }

  /** The covariance entries as reals. */
  function Cov(s: State): R.Mat { R.Mat(Re(s.p00), Re(s.p01), Re(s.p10), Re(s.p11)) }

  // ----- rounding of the single operations

  lemma ReNear(x: int)
    ensures Near(x, Re(x), 0.0)
  {
  }

  lemma ScaleBound(d: real, e: real, b: real, hb: real)
    requires -e <= d <= e && 0.0 <= b <= hb
    ensures -(e * hb) <= d * b <= e * hb
  {
    R.ProdMono(b, hb, e, e);
    R.ProdNonNeg(e - d, b);
    R.ProdNonNeg(e + d, b);
    assert (e - d) * b == e * b - d * b && (e + d) * b == e * b + d * b;
  }

  /** A wide product with an exact factor in [0, hb]: the error is scaled, and one floor is added. */
  lemma MulNear(x: q32, a: real, e: real, y: q32, hb: real)
    requires Near(x, a, e) && 0.0 <= Re(y) <= hb && FitsI64(x * y / TWO32)
    ensures Near(Q32Mul(x, y), a * Re(y), e * hb + 1.0)
    ensures Near(Q32Mul(y, x), a * Re(y), e * hb + 1.0)
  {
    var b := Re(y);
    var d := x as real - a * U;
    ScaleBound(d, e, b, hb);
    var m := x * y / TWO32;
    assert m * TWO32 <= x * y < m * TWO32 + TWO32;
    assert (x * y) as real == x as real * y as real;
    assert x as real * y as real == (x as real * b) * U;
    assert x as real * b == a * b * U + d * b;
    assert y * x == x * y;
  }

  lemma AddNear(x: q32, a: real, e: real, y: q32, b: real, f: real)
    requires Near(x, a, e) && Near(y, b, f) && FitsI64(x + y)
    ensures Near(Add64(x, y), a + b, e + f) && Add64(x, y) == x + y
  {
    assert (x + y) as real == x as real + y as real;
  }

  /** Halving or quartering a non-negative word. */
  lemma PartNear(x: q32, a: real, e: real, n: int)
    requires 0 <= x && Near(x, a, e) && (n == 2 || n == 4)
    ensures Near(TruncDiv(x, n), a / n as real, e / n as real + 1.0)
    ensures 0 <= TruncDiv(x, n) <= x
  {
    var t := x / n;
    assert t * n <= x < t * n + n;
  }

  // ----- sizes

  lemma Room(x: q32, hx: nat, y: q32, hy: nat)
    requires Abs(x) <= hx * TWO32 && 0 <= y <= hy * TWO32 && hx * hy <= 1_000_000_000
    ensures FitsI64(x * y / TWO32) && Abs(Q32Mul(x, y)) <= hx * hy * TWO32
    ensures x >= 0 ==> Q32Mul(x, y) >= 0
    ensures Q32Mul(y, x) == Q32Mul(x, y)
  {
    var h := hx * hy * TWO32;
    AbsMulBounds(x, hx * TWO32, y, hy * TWO32);
    assert (hx * TWO32) * (hy * TWO32) == h * TWO32;
    DivMono(x * y, h * TWO32, TWO32);
    DivMono(-h * TWO32, x * y, TWO32);
    DivUnique(h * TWO32, TWO32, h, 0);
    DivUnique(-h * TWO32, TWO32, -h, 0);
    if x >= 0 {
      MulMono(0, x, y);
      DivMono(0, x * y, TWO32);
    }
    assert y * x == x * y;
  }

  /** A product of reals, kept closed in the proofs below. */
  function Times(a: real, b: real): real { a * b }

  /** Both at once: the product of words with known sizes, the second exact. */
  lemma Product(x: q32, hx: nat, a: real, e: real, y: q32, hy: nat)
    requires Abs(x) <= hx * TWO32 && 0 <= y <= hy * TWO32 && hx * hy <= 1_000_000_000
    requires Near(x, a, e)
    ensures Near(Q32Mul(x, y), Times(a, Re(y)), e * hy as real + 1.0)
    ensures Abs(Q32Mul(x, y)) <= hx * hy * TWO32 && (x >= 0 ==> Q32Mul(x, y) >= 0)
    ensures Q32Mul(y, x) == Q32Mul(x, y)
  {
    Room(x, hx, y, hy);
    SizeReal(y, hy);
    MulNear(x, a, e, y, hy as real);
  }

  lemma SizeReal(y: q32, hy: nat)
    requires 0 <= y <= hy * TWO32
    ensures 0.0 <= Re(y) <= hy as real
  {
    assert (hy * TWO32) as real == hy as real * U;
  }

  // ----- the powers of the time step and the process noise

  /** dt^2, dt^3 and dt^4, for steps of at most 5 s. */
  lemma Powers(dt: q16)
    requires 0 <= dt <= 5 * ONE
    ensures var t := Re(Up(dt));
            var dt2 := Q32Mul(Up(dt), Up(dt));
            var dt3 := Q32Mul(dt2, Up(dt));
            var dt4 := Q32Mul(dt3, Up(dt));
            && 0 <= dt2 <= 25 * TWO32 && Near(dt2, Times(t, t), 1.0)
            && 0 <= dt3 <= 125 * TWO32 && Near(dt3, Times(Times(t, t), t), 6.0)
            && 0 <= dt4 <= 625 * TWO32 && Near(dt4, Times(Times(Times(t, t), t), t), 31.0)
  {
    var d := Up(dt);
    var t := Re(d);
    ReNear(d);
    assert 0 <= d <= 5 * TWO32;
    hide Near, Re, Q32Mul, Up, Times;
    Product(d, 5, t, 0.0, d, 5);
    var dt2 := Q32Mul(d, d);
    Product(dt2, 25, Times(t, t), 1.0, d, 5);
    var dt3 := Q32Mul(dt2, d);
    Product(dt3, 125, Times(Times(t, t), t), 6.0, d, 5);
  }

  /** Intensity of the position noise: a hundredth of q, as the code rounds it. */
  function PosNoise(q: q16): real { Re(Up(Q16Mul(q, Q_MIN))) }

  function Q00(q: q16, dt: q16): q32 {
    Add64(TruncDiv(Q32Mul(Up(q), Q32Mul(Q32Mul(Q32Mul(Up(dt), Up(dt)), Up(dt)), Up(dt))), 4), QPos(q, dt))
  }

  function Q01(q: q16, dt: q16): q32 {
    W64(TruncDiv(Q32Mul(Up(q), Q32Mul(Q32Mul(Up(dt), Up(dt)), Up(dt))), 2))
  }

  function Q11(q: q16, dt: q16): q32 { Add64(Q32Mul(Up(q), Q32Mul(Up(dt), Up(dt))), QPos(q, dt)) }

  function QPos(q: q16, dt: q16): q32 { Q32Mul(Up(Q16Mul(q, Q_MIN)), Up(dt)) }

  lemma PosNear(q: q16, dt: q16)
    requires 0 <= q <= Q_MAX && 0 <= dt <= 5 * ONE
    ensures Near(QPos(q, dt), Times(PosNoise(q), Re(Up(dt))), 1.0) && 0 <= QPos(q, dt) <= 5 * TWO32
  {
    MulExact(q, Q_MAX, Q_MIN, Q_MIN);
    var n := Up(Q16Mul(q, Q_MIN));
    assert 0 <= n <= TWO32 && 0 <= Up(dt) <= 5 * TWO32;
    ReNear(n);
    hide Near, Re, Q32Mul, Times;
    Product(n, 1, Re(n), 0.0, Up(dt), 5);
  }

  lemma NoiseForm(q: real, n: real, t: real)
    ensures var m := R.ProcessNoise(q, n, t);
            && m.a00 == Times(Times(Times(Times(t, t), t), t), q) / 4.0 + Times(n, t)
            && m.a01 == m.a10 == Times(Times(Times(t, t), t), q) / 2.0
            && m.a11 == Times(Times(t, t), q) + Times(n, t)
  {
    assert t * t * t * t * q == q * (t * t * t * t) && t * t * t * q == q * (t * t * t) && t * t * q == q * (t * t);
  }

  lemma Noise00(q: q16, dt: q16)
    requires 0 <= q <= Q_MAX && 0 <= dt <= 5 * ONE
    ensures var t := Re(Up(dt));
            Near(Q00(q, dt), Times(Times(Times(Times(t, t), t), t), Re(Up(q))) / 4.0 + Times(PosNoise(q), t), 157.25)
    ensures 0 <= Q00(q, dt) <= 13_000 * TWO32
  {
    Powers(dt);
    PosNear(q, dt);
    assert 0 <= Up(q) <= 20 * TWO32;
    var d, u := Up(dt), Up(q);
    var t, r := Re(d), Re(u);
    hide Near, Re, Q32Mul, Up, PosNoise, QPos, TruncDiv, Times, Add64;
    var dt4 := Q32Mul(Q32Mul(Q32Mul(d, d), d), d);
    var t4 := Times(Times(Times(t, t), t), t);
    Product(dt4, 625, t4, 31.0, u, 20);
    PartNear(Q32Mul(u, dt4), Times(t4, r), 621.0, 4);
    AddNear(TruncDiv(Q32Mul(u, dt4), 4), Times(t4, r) / 4.0, 156.25, QPos(q, dt), Times(PosNoise(q), t), 1.0);
  }

  lemma Noise01(q: q16, dt: q16)
    requires 0 <= q <= Q_MAX && 0 <= dt <= 5 * ONE
    ensures var t := Re(Up(dt)); Near(Q01(q, dt), Times(Times(Times(t, t), t), Re(Up(q))) / 2.0, 61.5)
    ensures 0 <= Q01(q, dt) <= 2_500 * TWO32
  {
    Powers(dt);
    assert 0 <= Up(q) <= 20 * TWO32;
    var d, u := Up(dt), Up(q);
    var t, r := Re(d), Re(u);
    hide Near, Re, Q32Mul, Up, TruncDiv, Times;
    var dt3 := Q32Mul(Q32Mul(d, d), d);
    Product(dt3, 125, Times(Times(t, t), t), 6.0, u, 20);
    PartNear(Q32Mul(u, dt3), Times(Times(Times(t, t), t), r), 121.0, 2);
  }

  lemma Noise11(q: q16, dt: q16)
    requires 0 <= q <= Q_MAX && 0 <= dt <= 5 * ONE
    ensures var t := Re(Up(dt)); Near(Q11(q, dt), Times(Times(t, t), Re(Up(q))) + Times(PosNoise(q), t), 22.0)
    ensures 0 <= Q11(q, dt) <= 600 * TWO32
  {
    Powers(dt);
    PosNear(q, dt);
    assert 0 <= Up(q) <= 20 * TWO32;
    var d, u := Up(dt), Up(q);
    var t, r := Re(d), Re(u);
    hide Near, Re, Q32Mul, Up, PosNoise, QPos, Times, Add64;
    var dt2 := Q32Mul(d, d);
    Product(dt2, 25, Times(t, t), 1.0, u, 20);
    AddNear(Q32Mul(u, dt2), Times(Times(t, t), r), 21.0, QPos(q, dt), Times(PosNoise(q), t), 1.0);
  }

  /** The three entries of the process noise. */
  lemma NoiseNear(q: q16, dt: q16)
    requires 0 <= q <= Q_MAX && 0 <= dt <= 5 * ONE
    ensures var m := R.ProcessNoise(Re(Up(q)), PosNoise(q), Re(Up(dt)));
            && Near(Q00(q, dt), m.a00, 157.25) && Near(Q01(q, dt), m.a01, 61.5) && Near(Q11(q, dt), m.a11, 22.0)
            && m.a10 == m.a01
    ensures 0 <= Q00(q, dt) <= 13_000 * TWO32 && 0 <= Q01(q, dt) <= 2_500 * TWO32 && 0 <= Q11(q, dt) <= 600 * TWO32
  {
    hide Near, Re, Up, PosNoise, Q00, Q01, Q11, Times, R.ProcessNoise;
    Noise00(q, dt);
    Noise01(q, dt);
    Noise11(q, dt);
    NoiseForm(Re(Up(q)), PosNoise(q), Re(Up(dt)));
  }

  // ----- the prediction

  lemma PredictForm00(p: R.Mat, q: real, n: real, t: real)
    ensures R.PredictCov(p, q, n, t).a00
         == p.a00 + Times(p.a10, t) + Times(p.a01 + Times(p.a11, t), t) + R.ProcessNoise(q, n, t).a00
  {
    hide R.ProcessNoise;
  }

  lemma PredictForm01(p: R.Mat, q: real, n: real, t: real)
    ensures R.PredictCov(p, q, n, t).a01 == p.a01 + Times(p.a11, t) + R.ProcessNoise(q, n, t).a01
    ensures R.PredictCov(p, q, n, t).a10 == p.a10 + Times(p.a11, t) + R.ProcessNoise(q, n, t).a10
  {
    hide R.ProcessNoise;
  }

  lemma PredictForm11(p: R.Mat, q: real, n: real, t: real)
    ensures R.PredictCov(p, q, n, t).a11 == p.a11 + R.ProcessNoise(q, n, t).a11
  {
    hide R.ProcessNoise;
  }

  /** Against a prediction whose position noise is rounded as the code rounds it. */
  lemma PredictRounded(s: State, dt: q16)
    requires Small(s) && 0 <= dt <= 5 * ONE
    ensures var pr := Predict(s, dt);
            var m := R.PredictCov(Cov(s), Re(Up(s.qVel)), PosNoise(s.qVel), Re(Up(dt)));
            && Near(pr.p00, m.a00, 164.25) && Near(pr.p01, m.a01, 62.5)
            && Near(pr.p10, m.a10, 62.5) && Near(pr.p11, m.a11, 22.0)
  {
    NoiseNear(s.qVel, dt);
    PredictParts(s, dt);
    var p, q, n, t := Cov(s), Re(Up(s.qVel)), PosNoise(s.qVel), Re(Up(dt));
    PredictForm00(p, q, n, t);
    PredictForm01(p, q, n, t);
    PredictForm11(p, q, n, t);
    var m := R.ProcessNoise(q, n, t);
    hide Predict, Q00, Q01, Q11, R.ProcessNoise, R.PredictCov, Near, Re, Up, PosNoise, Times;
    SumsNear(s, dt, Q00(s.qVel, dt), Q01(s.qVel, dt), Q11(s.qVel, dt), m);
  }

  /** What rounding the hundredth of q takes from the position noise of one step. */
  function NoiseLoss(q: q16, dt: q16): real { Times(Re(Up(q)) * 0.01 - PosNoise(q), Re(Up(dt))) }

  lemma PosNoiseRange(q: q16)
    requires 0 <= q <= Q_MAX
    ensures 0.0 <= Re(Up(q)) * 0.01 - PosNoise(q) <= 0.000126
  {
    MulExact(q, Q_MAX, Q_MIN, Q_MIN);
    var m := Q16Mul(q, Q_MIN);
    assert m * TWO16 <= q * Q_MIN < m * TWO16 + TWO16;
    assert Re(Up(q)) == q as real / 65536.0 && PosNoise(q) == m as real / 65536.0;
  }

  lemma ScaledRange(x: real, hiX: real, y: real, hiY: real)
    requires 0.0 <= x <= hiX && 0.0 <= y <= hiY
    ensures 0.0 <= Times(x, y) <= hiX * hiY
  {
    R.ProdNonNeg(x, y);
    R.ProdMono(x, hiX, y, hiY);
  }

  lemma NoiseLossRange(q: q16, dt: q16)
    requires 0 <= q <= Q_MAX && 0 <= dt <= 5 * ONE
    ensures 0.0 <= NoiseLoss(q, dt) <= 0.00063
  {
    PosNoiseRange(q);
    assert 0 <= Up(dt) <= 5 * TWO32;
    SizeReal(Up(dt), 5);
    hide PosNoise, Re, Up;
    ScaledRange(Re(Up(q)) * 0.01 - PosNoise(q), 0.000126, Re(Up(dt)), 5.0);
  }

  /** The loss is real: at the largest q and the longest step it is 2359296 units of 2^-32. */
  lemma NoiseLossReached()
    ensures NoiseLoss(Q_MAX, 5 * ONE) * U == 2359296.0
  {
    assert Q16Mul(Q_MAX, Q_MIN) == 13100;
  }

  /** Less position noise takes the same amount from both diagonal entries. */
  lemma NoiseShift(p: R.Mat, q: real, n: real, n': real, t: real)
    ensures var m, m' := R.PredictCov(p, q, n, t), R.PredictCov(p, q, n', t);
            && m'.a00 == m.a00 - Times(n - n', t) && m'.a11 == m.a11 - Times(n - n', t)
            && m'.a01 == m.a01 && m'.a10 == m.a10
  {
    hide R.Propagate;
    assert (n - n') * t == n * t - n' * t;
  }

  /** The predicted covariance against that of the filter in real arithmetic, for every step up to 5 s and every
      covariance with entries up to 2^20: off the diagonal within 63 units of 2^-32, on it within 165 units
      once the loss in the position noise, at most 0.00063, is taken off. */
  lemma PredictNear(s: State, dt: q16)
    requires Small(s) && 0 <= dt <= 5 * ONE
    ensures var pr, q, loss := Predict(s, dt), Re(Up(s.qVel)), NoiseLoss(s.qVel, dt);
            var m := R.PredictCov(Cov(s), q, q * 0.01, Re(Up(dt)));
            && Near(pr.p00, m.a00 - loss, 164.25) && Near(pr.p01, m.a01, 62.5)
            && Near(pr.p10, m.a10, 62.5) && Near(pr.p11, m.a11 - loss, 22.0)
            && 0.0 <= loss <= 0.00063
  {
    hide Predict, R.PredictCov, Near, Re, Up, PosNoise, Times;
    PredictRounded(s, dt);
    NoiseLossRange(s.qVel, dt);
    var q := Re(Up(s.qVel));
    NoiseShift(Cov(s), q, q * 0.01, PosNoise(s.qVel), Re(Up(dt)));
  }

  /** One transition product and its sum: p + q * dt. */
  lemma StepNear(p: q32, q: q32, dt: q16)
    requires Abs(p) <= P_MAX * TWO32 && Abs(q) <= P_MAX * TWO32 && 0 <= dt <= 5 * ONE
    ensures var f := Add64(p, Q32Mul(q, Up(dt)));
            Near(f, Re(p) + Times(Re(q), Re(Up(dt))), 1.0) && Abs(f) <= 6 * P_MAX * TWO32
  {
    var d := Up(dt);
    assert 0 <= d <= 5 * TWO32;
    ReNear(p);
    ReNear(q);
    hide Near, Re, Q32Mul, Up, Times, Add64;
    Product(q, P_MAX, Re(q), 0.0, d, 5);
    AddNear(p, Re(p), 0.0, Q32Mul(q, d), Times(Re(q), Re(d)), 1.0);
  }

  /** The upper left entry, from the two transition sums. */
  lemma CornerNear(f00: q32, g00: real, f01: q32, g01: real, q00: q32, w00: real, dt: q16)
    requires Near(f00, g00, 1.0) && Abs(f00) <= 6 * P_MAX * TWO32
    requires Near(f01, g01, 1.0) && Abs(f01) <= 6 * P_MAX * TWO32 && 0 <= dt <= 5 * ONE
    requires Near(q00, w00, 157.25) && 0 <= q00 <= 13_000 * TWO32
    ensures Near(Add64(Add64(f00, Q32Mul(f01, Up(dt))), q00), g00 + Times(g01, Re(Up(dt))) + w00, 164.25)
  {
    var d := Up(dt);
    assert 0 <= d <= 5 * TWO32;
    hide Near, Re, Q32Mul, Up, Times, Add64;
    Product(f01, 6 * P_MAX, g01, 1.0, d, 5);
    AddNear(f00, g00, 1.0, Q32Mul(f01, d), Times(g01, Re(d)), 6.0);
    AddNear(Add64(f00, Q32Mul(f01, d)), g00 + Times(g01, Re(d)), 7.0, q00, w00, 157.25);
  }

  /** The sums of the prediction, for any noise entries known as well as those above. */
  lemma SumsNear(s: State, dt: q16, q00: q32, q01: q32, q11: q32, w: R.Mat)
    requires Small(s) && 0 <= dt <= 5 * ONE
    requires Near(q00, w.a00, 157.25) && Near(q01, w.a01, 61.5) && Near(q11, w.a11, 22.0)
    requires 0 <= q00 <= 13_000 * TWO32 && 0 <= q01 <= 2_500 * TWO32 && 0 <= q11 <= 600 * TWO32
    ensures var d, t := Up(dt), Re(Up(dt));
            var f00, f01 := Add64(s.p00, Q32Mul(s.p10, d)), Add64(s.p01, Q32Mul(s.p11, d));
            var g01 := Re(s.p01) + Times(Re(s.p11), t);
            && Near(Add64(Add64(f00, Q32Mul(f01, d)), q00),
                    Re(s.p00) + Times(Re(s.p10), t) + Times(g01, t) + w.a00, 164.25)
            && Near(Add64(f01, q01), g01 + w.a01, 62.5)
            && Near(Add64(Add64(s.p10, Q32Mul(s.p11, d)), q01), Re(s.p10) + Times(Re(s.p11), t) + w.a01, 62.5)
            && Near(Add64(s.p11, q11), Re(s.p11) + w.a11, 22.0)
  {
    ReNear(s.p11);
    hide Near, Re, Q32Mul, Up, Times, Add64;
    var d, t := Up(dt), Re(Up(dt));
    StepNear(s.p00, s.p10, dt);
    StepNear(s.p01, s.p11, dt);
    StepNear(s.p10, s.p11, dt);
    var f00, f01, f10 := Add64(s.p00, Q32Mul(s.p10, d)), Add64(s.p01, Q32Mul(s.p11, d)), Add64(s.p10, Q32Mul(s.p11, d));
    var g01 := Re(s.p01) + Times(Re(s.p11), t);
    CornerNear(f00, Re(s.p00) + Times(Re(s.p10), t), f01, g01, q00, w.a00, dt);
    AddNear(f01, g01, 1.0, q01, w.a01, 61.5);
    AddNear(f10, Re(s.p10) + Times(Re(s.p11), t), 1.0, q01, w.a01, 61.5);
    AddNear(s.p11, Re(s.p11), 0.0, q11, w.a11, 22.0);
  }

  /** The prediction in terms of its noise entries. */
  lemma PredictParts(s: State, dt: q16)
    ensures var pr := Predict(s, dt);
            var d := Up(dt);
            var f00, f01 := Add64(s.p00, Q32Mul(s.p10, d)), Add64(s.p01, Q32Mul(s.p11, d));
            && pr.p00 == Add64(Add64(f00, Q32Mul(f01, d)), Q00(s.qVel, dt))
            && pr.p01 == Add64(f01, Q01(s.qVel, dt))
            && pr.p10 == Add64(Add64(s.p10, Q32Mul(s.p11, d)), Q01(s.qVel, dt))
            && pr.p11 == Add64(s.p11, Q11(s.qVel, dt))
  {
  }

  // ----- the gain

  /** With p = p00_pred in Q16 and s = p + r, the position gain never exceeds p / s and falls short of it by
      less than p + 1 units of the last place (p as a number). */
  lemma GainNear(p00Pred: q32, s: q16)
    requires PriorInRange(p00Pred) && 3 <= s && p00Pred / TWO16 <= s
    ensures var p, k0 := p00Pred / TWO16, Gain(p00Pred, s);
            0 <= ONE * p - k0 * s && (ONE * p - k0 * s) * TWO16 < s * (p + TWO16)
  {
    GainUnit(p00Pred, s);
    InvSExact(s);
    var p, i := p00Pred / TWO16, TWO32 / s;
    var k0 := p * i / TWO16;
    GainFloor(p, i, s, k0);
  }

  lemma GainFloor(p: nat, i: nat, s: nat, k0: int)
    requires 0 < s && i == TWO32 / s && k0 == p * i / TWO16
    ensures 0 <= ONE * p - k0 * s && (ONE * p - k0 * s) * TWO16 < s * (p + TWO16)
  {
    var c, e := TWO32 % s, p * i % TWO16;
    assert i * s == TWO32 - c && k0 * TWO16 == p * i - e;
    GainGap(p, i, s, k0, c, e);
  }

  /** What the two floors of a gain, with remainders c and e, leave out. */
  lemma GainGap(p: nat, i: nat, s: nat, k0: int, c: nat, e: nat)
    requires i * s == TWO32 - c && k0 * TWO16 == p * i - e && c < s && e < TWO16
    ensures 0 <= (ONE * p - k0 * s) * TWO16 < s * (p + TWO16)
  {
    assert (k0 * s) * TWO16 == (k0 * TWO16) * s == (p * i) * s - e * s;
    assert (p * i) * s == p * (i * s) == p * TWO32 - p * c;
    MulBounds(c, s, p, p);
    MulBounds(e, TWO16 - 1, s, s);
    assert c * p == p * c && (TWO16 - 1) * s == TWO16 * s - s;
    assert s * (p + TWO16) == s * p + s * TWO16;
  }
}
