/** How far the corrected covariance of src/core/kalman.c is from that of exact real arithmetic: the gain loses
    precision with the variance it is computed from, and each entry by what the gain multiplies. */
module KalmanPosterior {
  import opened Machine
  import opened FixedPoint
  import opened WideMul
  import opened Kalman
  import opened KalmanNear
  import R = KalmanReal

  /** One unit of the last place of a Q16.16 word. */
  const EPS: real := 1.0 / 65536.0

  /** The number a Q16.16 word stands for. */
  function Re16(x: int): real { x as real / 65536.0 }

  function AbsR(x: real): real { if x < 0.0 then -x else x }

  /** Bound of the error of a gain computed from an entry of magnitude c, where g is 1 / s_pred. */
  function GainError(c: real, g: real): real { EPS * (c * (1.0 + g * g) + g + 2.0) }

  // ----- the gain in real numbers

  lemma AbsProd(x: real, hx: real, y: real, hy: real)
    requires AbsR(x) <= hx && AbsR(y) <= hy
    ensures AbsR(Times(x, y)) <= Times(hx, hy)
  {
    R.ProdMono(AbsR(x), hx, AbsR(y), hy);
    assert AbsR(x) * AbsR(y) == x * y || AbsR(x) * AbsR(y) == -(x * y);
  }

  /** The error of a gain k against c * h: what rounding the product, the inverse i, the entry cf and the sum
      behind the inverse g contribute. */
  lemma ErrorParts(c: real, cf: real, i: real, g: real, h: real, k: real)
    ensures k - Times(c, h) == (k - Times(cf, i)) - Times(cf, g - i) - Times(c - cf, g) + Times(c, g - h)
  {
  }

  lemma ErrorSum(a: real, g: real)
    ensures EPS + Times(a + EPS, EPS) + Times(EPS, g) + Times(a, Times(EPS, Times(g, g))) <= GainError(a, g)
  {
    assert a * (EPS * (g * g)) == EPS * (a * (g * g));
    assert a * (1.0 + g * g) == a + a * (g * g);
    assert (a + EPS) * EPS == EPS * a + EPS * EPS;
    assert EPS * EPS <= EPS;
  }

  lemma GainReal(c: real, cf: real, i: real, g: real, h: real, k: real)
    requires c - EPS <= cf <= c && g - EPS <= i <= g && 0.0 < g
    requires 0.0 <= g - h <= Times(EPS, Times(g, g)) && Times(cf, i) - EPS <= k <= Times(cf, i)
    ensures AbsR(k - Times(c, h)) <= GainError(AbsR(c), g)
  {
    hide Times, GainError;
    AbsProd(cf, AbsR(c) + EPS, g - i, EPS);
    AbsProd(c - cf, EPS, g, g);
    AbsProd(c, AbsR(c), g - h, Times(EPS, Times(g, g)));
    ErrorParts(c, cf, i, g, h, k);
    ErrorSum(AbsR(c), g);
  }

  // ----- the gain in words

  /** Entries up to 3000, s_pred as the filter forms it. */
  predicate Sized(pr: Prior, n: Noise) {
    && 0 <= pr.p00 <= 3000 * TWO32 && Abs(pr.p01) <= 3000 * TWO32
    && Abs(pr.p10) <= 3000 * TWO32 && Abs(pr.p11) <= 3000 * TWO32
    && n.s == pr.p00 / TWO16 + n.rMeas && R_MIN <= n.rMeas <= R_MAX
  }

  /** Whatever the filter has measured, its adapted noise is of that form. */
  lemma AdaptSized(covY: q32, qVel: q16, y: q16, pr: Prior)
    requires 0 <= pr.p00 <= 3000 * TWO32 && Abs(pr.p01) <= 3000 * TWO32
    requires Abs(pr.p10) <= 3000 * TWO32 && Abs(pr.p11) <= 3000 * TWO32
    ensures Sized(pr, Adapt(covY, qVel, y, pr.p00))
  {
    hide Adapt;
    Variance(covY, qVel, y, pr.p00);
    AdaptClamped(covY, qVel, y, pr.p00);
  }

  /** The largest gain these sizes allow: 3000 times the inverse of a tenth. */
  const GAIN_MAX := 1_966_260_000

  /** Nothing in the gain wraps. */
  lemma GainSize(c: q32, s: q16)
    requires Abs(c) <= 3000 * TWO32 && R_MIN <= s
    ensures Down(c) == c / TWO16 && InvS(s) == TWO32 / s
    ensures Gain(c, s) == c / TWO16 * InvS(s) / TWO16 && Abs(Gain(c, s)) <= GAIN_MAX
  {
    InvSExact(s);
    DivAntitone(TWO32, R_MIN, s);
    var x, i := c / TWO16, TWO32 / s;
    AbsMulBounds(x, 3000 * TWO16, i, 655_420);
  }

  lemma InverseNear(s: q16)
    requires 3 <= s
    ensures 0.0 < 1.0 / Re16(s) && 1.0 / Re16(s) - EPS <= Re16(TWO32 / s) <= 1.0 / Re16(s)
  {
    var i := TWO32 / s;
    assert TWO32 == i * s + TWO32 % s;
    assert (i * s) as real == i as real * s as real;
    assert ((i + 1) * s) as real == (i as real + 1.0) * s as real;
    InverseOf(s as real, i as real);
  }

  lemma InverseOf(s: real, i: real)
    requires 0.0 < s && i * s <= 4294967296.0 <= (i + 1.0) * s
    ensures 1.0 / (s / 65536.0) - EPS <= i / 65536.0 <= 1.0 / (s / 65536.0)
  {
    var g := 1.0 / (s / 65536.0);
    assert g * s == 65536.0;
    assert (i / 65536.0 - g) * s <= 0.0;
    assert (i / 65536.0 + EPS - g) * s >= 0.0;
  }

  /** The exact inverse h of the exact sum is below that of the rounded sum by at most EPS * g^2. */
  lemma InverseGap(s: real, t: real)
    requires 0.0 < s <= t <= s + EPS
    ensures var g, h := 1.0 / s, 1.0 / t; 0.0 < h && 0.0 <= g - h <= Times(EPS, Times(g, g))
  {
    var g, h := 1.0 / s, 1.0 / t;
    assert g * s == 1.0 && h * t == 1.0;
    assert g - h == (t - s) * (g * h);
    R.ProdNonNeg(g, h);
    R.ProdNonNeg(t - s, g * h);
    R.ProdMono(h, g, g, g);
    R.ProdMono(t - s, EPS, g * h, g * g);
  }

  lemma FloorReal(x: int)
    ensures Re(x) - EPS <= Re16(x / TWO16) <= Re(x)
  {
    assert x == x / TWO16 * TWO16 + x % TWO16;
  }

  lemma ProductReal(x: int, y: int)
    ensures Times(Re16(x), Re16(y)) - EPS <= Re16(x * y / TWO16) <= Times(Re16(x), Re16(y))
  {
    assert x * y == x * y / TWO16 * TWO16 + x * y % TWO16;
    assert (x * y) as real == x as real * y as real;
  }

  /** The exact sum p00 + r against s_pred. */
  lemma SumNear(pr: Prior, n: Noise)
    requires Sized(pr, n)
    ensures 0.0 < Re16(n.s) <= Re(pr.p00) + Re16(n.rMeas) <= Re16(n.s) + EPS
  {
    FloorReal(pr.p00);
  }

  /** The fixed-point gain of an entry against the exact one. */
  lemma GainClose(pr: Prior, n: Noise, c: q32)
    requires Sized(pr, n) && Abs(c) <= 3000 * TWO32
    ensures Re16(n.s) != 0.0 && Re(pr.p00) + Re16(n.rMeas) > 0.0
    ensures AbsR(Re16(Gain(c, n.s)) - Re(c) / (Re(pr.p00) + Re16(n.rMeas))) <= GainError(AbsR(Re(c)), 1.0 / Re16(n.s))
  {
    SumNear(pr, n);
    GainSize(c, n.s);
    InverseNear(n.s);
    FloorReal(c);
    ProductReal(c / TWO16, InvS(n.s));
    var s, t := Re16(n.s), Re(pr.p00) + Re16(n.rMeas);
    InverseGap(s, t);
    hide Re, Re16, Gain, InvS, GainError, AbsR, Times;
    GainReal(Re(c), Re16(c / TWO16), Re16(TWO32 / n.s), 1.0 / s, 1.0 / t, Re16(Gain(c, n.s)));
    TimesInverse(Re(c), t);
  }

  lemma TimesInverse(c: real, t: real)
    requires t != 0.0
    ensures Times(c, 1.0 / t) == c / t
  {
  }

  // ----- the entries

  /** A floored product of a gain-like word x, standing for a real a up to e, and an entry y. */
  lemma EntryClose(x: q16, a: real, e: real, y: q32)
    requires FitsI64(x * y / TWO16) && AbsR(Re16(x) - a) <= e
    ensures AbsR(Re(Q32Mul(Up(x), y)) - Times(a, Re(y))) <= Times(e, AbsR(Re(y))) + 1.0 / U
  {
    UpMulWrapped(x, y);
    FloorProduct(x, y);
    AbsProd(Re16(x) - a, e, Re(y), AbsR(Re(y)));
    assert Times(Re16(x) - a, Re(y)) == Times(Re16(x), Re(y)) - Times(a, Re(y));
  }

  lemma FloorProduct(x: int, y: int)
    ensures Times(Re16(x), Re(y)) - 1.0 / U <= Re(x * y / TWO16) <= Times(Re16(x), Re(y))
  {
    assert x * y == x * y / TWO16 * TWO16 + x * y % TWO16;
    assert (x * y) as real == x as real * y as real;
  }

  /** What the filter keeps of an entry it scales by 1 - k0. */
  lemma KeptClose(k0: q16, a: real, e: real, y: q32)
    requires 0 <= k0 <= ONE && AbsR(Re16(k0) - a) <= e
    ensures AbsR(Re(Q32Mul(Up(Sub32(ONE, k0)), y)) - Times(1.0 - a, Re(y))) <= Times(e, AbsR(Re(y))) + 1.0 / U
  {
    var t := ONE - k0;
    AbsMulBounds(t, ONE, y, Abs(y));
    var h: int := Abs(y);
    DivMono(-h * TWO16, t * y, TWO16);
    DivMono(t * y, h * TWO16, TWO16);
    DivUnique(h * TWO16, TWO16, h, 0);
    DivUnique(-h * TWO16, TWO16, -h, 0);
    EntryClose(t, 1.0 - a, e, y);
  }

  /** What is left of an entry from which k1 * y is taken. */
  lemma TakenClose(z: q32, k1: q16, a: real, e: real, y: q32)
    requires Abs(z) <= 3000 * TWO32 && Abs(k1) <= GAIN_MAX && Abs(y) <= 3000 * TWO32 && AbsR(Re16(k1) - a) <= e
    ensures AbsR(Re(Sub64(z, Q32Mul(Up(k1), y))) - (Re(z) - Times(a, Re(y)))) <= Times(e, AbsR(Re(y))) + 1.0 / U
  {
    AbsMulBounds(k1, GAIN_MAX, y, 3000 * TWO32);
    var p := k1 * y / TWO16;
    assert Abs(p) <= GAIN_MAX * 3000 * TWO16;
    EntryClose(k1, a, e, y);
    UpMulWrapped(k1, y);
    assert Sub64(z, p) == z - p;
  }

  lemma CorrectForm(m: R.Mat, r: real)
    requires m.a00 + r != 0.0
    ensures var c, s := R.CorrectCov(m, r), m.a00 + r;
            && c.a00 == Times(1.0 - m.a00 / s, m.a00) && c.a01 == Times(1.0 - m.a00 / s, m.a01)
            && c.a10 == m.a10 - Times(m.a10 / s, m.a00) && c.a11 == m.a11 - Times(m.a10 / s, m.a01)
  {
  }

  lemma CorrectWords(pr: Prior, n: Noise, y: q16)
    ensures var k0, k1 := Gain(pr.p00, n.s), Gain(pr.p10, n.s);
            var t, s := Up(Sub32(ONE, k0)), Correct(pr, n, y);
            && s.p00 == Q32Mul(t, pr.p00) && s.p01 == Q32Mul(t, pr.p01)
            && s.p10 == Sub64(pr.p10, Q32Mul(Up(k1), pr.p00)) && s.p11 == Sub64(pr.p11, Q32Mul(Up(k1), pr.p01))
  {
  }

  /** The covariance of a prediction as reals. */
  function PriorCov(pr: Prior): R.Mat { R.Mat(Re(pr.p00), Re(pr.p01), Re(pr.p10), Re(pr.p11)) }

  /** The corrected covariance, entry by entry, against the correction of the same prediction with the same
      measurement noise in real arithmetic. The error of an entry is that of the gain times what it multiplies. */
  lemma CorrectNear(pr: Prior, n: Noise, y: q16)
    requires Sized(pr, n)
    ensures Re16(n.s) != 0.0 && Re(pr.p00) + Re16(n.rMeas) > 0.0
    ensures var c := R.CorrectCov(PriorCov(pr), Re16(n.rMeas));
            var s, g := Correct(pr, n, y), 1.0 / Re16(n.s);
            var e0, e1 := GainError(Re(pr.p00), g), GainError(AbsR(Re(pr.p10)), g);
            && AbsR(Re(s.p00) - c.a00) <= Times(e0, Re(pr.p00)) + 1.0 / U
            && AbsR(Re(s.p01) - c.a01) <= Times(e0, AbsR(Re(pr.p01))) + 1.0 / U
            && AbsR(Re(s.p10) - c.a10) <= Times(e1, Re(pr.p00)) + 1.0 / U
            && AbsR(Re(s.p11) - c.a11) <= Times(e1, AbsR(Re(pr.p01))) + 1.0 / U
  {
    GainClose(pr, n, pr.p00);
    GainClose(pr, n, pr.p10);
    GainUnit(pr.p00, n.s);
    GainSize(pr.p10, n.s);
    assert AbsR(Re(pr.p00)) == Re(pr.p00);
    var k0, k1, t, g := Gain(pr.p00, n.s), Gain(pr.p10, n.s), Re(pr.p00) + Re16(n.rMeas), 1.0 / Re16(n.s);
    CorrectForm(PriorCov(pr), Re16(n.rMeas));
    CorrectWords(pr, n, y);
    hide Re, Re16, Gain, GainError, AbsR, Q32Mul, Sub64, Sub32, Up, Times, Correct, R.CorrectCov;
    var e0, e1 := GainError(Re(pr.p00), g), GainError(AbsR(Re(pr.p10)), g);
    KeptClose(k0, Re(pr.p00) / t, e0, pr.p00);
    KeptClose(k0, Re(pr.p00) / t, e0, pr.p01);
    TakenClose(pr.p10, k1, Re(pr.p10) / t, e1, pr.p00);
    TakenClose(pr.p11, k1, Re(pr.p10) / t, e1, pr.p01);
  }
}
