/** The equations of src/core/kalman.c in exact arithmetic: what the fixed-point filter rounds.
    The covariance stays symmetric and positive semidefinite over every run. */
module KalmanReal {
  function Clamp(val: real, min: real, max: real): real {
    if val < min then min else if val > max then max else val
  }

  /** A 2x2 matrix. */
  datatype Mat = Mat(a00: real, a01: real, a10: real, a11: real)

  function Add(a: Mat, b: Mat): Mat {
    Mat(a.a00 + b.a00, a.a01 + b.a01, a.a10 + b.a10, a.a11 + b.a11)
  }

  function Det(m: Mat): real { m.a00 * m.a11 - m.a01 * m.a10 }

  predicate Psd(m: Mat) { m.a01 == m.a10 && m.a00 >= 0.0 && m.a11 >= 0.0 && Det(m) >= 0.0 }

  /** Quadratic form of m: the variance it gives to u * position + w * velocity. */
  function Quad(m: Mat, u: real, w: real): real {
    m.a00 * u * u + (m.a01 + m.a10) * u * w + m.a11 * w * w
  }

  datatype State = State(x: real, v: real, p: Mat, q: real, r: real, cov: real, firstRun: bool)

  const INITIAL: State := State(0.0, 0.0, Mat(100.0, 0.0, 0.0, 100.0), 1.0, 4.0, 16.0, true)

  /** F P F' for the transition F = [1 dt; 0 1]. */
  function Propagate(p: Mat, dt: real): Mat {
    var f00, f01 := p.a00 + p.a10 * dt, p.a01 + p.a11 * dt;
    Mat(f00 + f01 * dt, f01, p.a10 + p.a11 * dt, p.a11)
  }

  /** White acceleration noise of intensity q, plus position noise of intensity n. */
  function ProcessNoise(q: real, n: real, dt: real): Mat {
    Mat(q * (dt * dt * dt * dt) / 4.0 + n * dt, q * (dt * dt * dt) / 2.0,
        q * (dt * dt * dt) / 2.0, q * (dt * dt) + n * dt)
  }

  function PredictCov(p: Mat, q: real, n: real, dt: real): Mat { Add(Propagate(p, dt), ProcessNoise(q, n, dt)) }

  /** The covariance after correcting a prediction m with measurement noise r. */
  function CorrectCov(m: Mat, r: real): Mat
    requires m.a00 + r != 0.0
  {
    var s := m.a00 + r;
    var k0, k1 := m.a00 / s, m.a10 / s;
    Mat((1.0 - k0) * m.a00, (1.0 - k0) * m.a01, m.a10 - k1 * m.a00, m.a11 - k1 * m.a01)
  }

  function NextR(cov: real, p00: real): real { Clamp(cov - p00, 0.1, 50.0) }

  function NextQ(q: real, cov: real, s: real): real {
    Clamp(if cov > s then q + 0.05 * (cov - s) else 0.95 * q, 0.01, 20.0)
  }

  ghost predicate Valid(s: State) { Psd(s.p) && s.q > 0.0 && s.r > 0.0 }

  function Step(s: State, zMeas: real, dtSec: real): State
    requires Valid(s)
  {
    var z := Clamp(zMeas, 0.0, 500.0);
    var s0 := if dtSec > 5.0 then INITIAL else s;
    if s0.firstRun then s0.(x := z, v := 0.0, firstRun := false)
    else
      var dt := if dtSec > 0.0001 then dtSec else 0.0001;
      var m := PredictCov(s0.p, s0.q, s0.q * 0.01, dt);
      PredictPsd(s0.p, s0.q, s0.q * 0.01, dt);
      var xPred := s0.x + s0.v * dt;
      var y := z - xPred;
      var yc := Clamp(y, -20.0, 20.0);
      var cov := 0.95 * s0.cov + 0.05 * (yc * yc);
      var r := NextR(cov, m.a00);
      var sv := m.a00 + r;
      State(xPred + m.a00 / sv * y, s0.v + m.a10 / sv * y, CorrectCov(m, r), NextQ(s0.q, cov, sv), r, cov, false)
  }

  // ----- prediction

  lemma SquareNonNeg(x: real)
    ensures x * x >= 0.0
  {
  }

  lemma PropagateDet(p: Mat, dt: real)
    ensures Det(Propagate(p, dt)) == Det(p)
  {
    var f00, f01 := p.a00 + p.a10 * dt, p.a01 + p.a11 * dt;
    var g10 := p.a10 + p.a11 * dt;
    calc {
      Det(Propagate(p, dt));
      (f00 + f01 * dt) * p.a11 - f01 * g10;
      f00 * p.a11 + f01 * (dt * p.a11) - f01 * p.a10 - f01 * (p.a11 * dt);
      f00 * p.a11 - f01 * p.a10;
      p.a00 * p.a11 + p.a10 * dt * p.a11 - p.a01 * p.a10 - p.a11 * dt * p.a10;
      Det(p);
    }
  }

  lemma CompleteSquare(m: Mat, u: real, w: real)
    requires m.a01 == m.a10
    ensures var t := m.a00 * u + m.a01 * w; m.a00 * Quad(m, u, w) == t * t + Det(m) * (w * w)
  {
    var p, q := m.a00 * u, m.a01 * w;
    assert m.a00 * (m.a00 * u * u) == p * p;
    assert m.a00 * ((m.a01 + m.a10) * u * w) == 2.0 * (p * q);
    assert m.a00 * (m.a11 * w * w) == (m.a00 * m.a11) * (w * w);
    assert q * q == (m.a01 * m.a10) * (w * w);
    assert (p + q) * (p + q) == p * p + 2.0 * (p * q) + q * q;
  }

  /** A matrix with a non-negative diagonal and determinant has a non-negative quadratic form. */
  lemma PsdQuad(m: Mat, u: real, w: real)
    requires Psd(m)
    ensures Quad(m, u, w) >= 0.0
  {
    var b := m.a01;
    var t := m.a00 * u + b * w;
    SquareNonNeg(t);
    SquareNonNeg(u);
    SquareNonNeg(w);
    CompleteSquare(m, u, w);
    ProdNonNeg(Det(m), w * w);
    if m.a00 > 0.0 {
      QuotNonNeg(m.a00, Quad(m, u, w));
    } else {
      SquareNonNeg(b);
      if b != 0.0 {
        NonZeroSquare(b);
      }
      ProdNonNeg(m.a11, w * w);
      assert Quad(m, u, w) == m.a11 * w * w == m.a11 * (w * w);
    }
  }

  lemma ProdPos(a: real, b: real)
    requires a > 0.0 && b > 0.0
    ensures a * b > 0.0
  {
  }

  lemma NonZeroSquare(b: real)
    requires b != 0.0
    ensures b * b > 0.0
  {
    if b < 0.0 {
      ProdPos(-b, -b);
      assert -b * -b == b * b;
    } else {
      ProdPos(b, b);
    }
  }

  lemma ProdNonNeg(a: real, b: real)
    requires a >= 0.0 && b >= 0.0
    ensures a * b >= 0.0
  {
  }

  lemma QuotNonNeg(a: real, x: real)
    requires a > 0.0 && a * x >= 0.0
    ensures x >= 0.0
  {
  }

  lemma PropagatePsd(p: Mat, dt: real)
    requires Psd(p)
    ensures Psd(Propagate(p, dt))
  {
    PropagateDet(p, dt);
    PsdQuad(p, 1.0, dt);
    assert Propagate(p, dt).a00 == Quad(p, 1.0, dt) by {
      assert (p.a01 + p.a11 * dt) * dt == p.a01 * dt + p.a11 * dt * dt;
    }
  }

  lemma NoisePsd(q: real, n: real, dt: real)
    requires q > 0.0 && n > 0.0 && dt > 0.0
    ensures Psd(ProcessNoise(q, n, dt))
  {
    var e, d2, qp := q * (dt * dt), dt * dt, n * dt;
    ProdPos(dt, dt);
    ProdPos(q, d2);
    ProdPos(n, dt);
    ProdPos(e, d2);
    NoiseEntries(q, n, dt);
    hide ProcessNoise;
    NoiseDet(e, dt, d2, qp);
  }

  lemma NoiseEntries(q: real, n: real, dt: real)
    ensures var m, e := ProcessNoise(q, n, dt), q * (dt * dt);
            && m.a00 == e * (dt * dt) / 4.0 + n * dt && m.a11 == e + n * dt
            && m.a01 == m.a10 == e * dt / 2.0
  {
    assert q * (dt * dt * dt * dt) == q * (dt * dt) * (dt * dt);
    assert q * (dt * dt * dt) == q * (dt * dt) * dt;
  }

  /** Without position noise the determinant is 0; with it, what it adds is positive. */
  lemma NoiseDet(e: real, dt: real, d2: real, qp: real)
    requires e > 0.0 && d2 == dt * dt && e * d2 > 0.0 && qp > 0.0
    ensures (e * d2 / 4.0 + qp) * (e + qp) - (e * dt / 2.0) * (e * dt / 2.0) >= 0.0
  {
    ProdPos(e * d2, qp);
    ProdPos(qp, e);
    ProdPos(qp, qp);
    assert (e * dt / 2.0) * (e * dt / 2.0) == e * e * d2 / 4.0;
    assert (e * d2 / 4.0 + qp) * (e + qp) == e * e * d2 / 4.0 + (e * d2) * qp / 4.0 + qp * e + qp * qp;
  }

  /** The sum of positive semidefinite matrices is positive semidefinite, with at least the sum of
      their determinants. */
  lemma AddPsd(a: Mat, b: Mat)
    requires Psd(a) && Psd(b)
    ensures Psd(Add(a, b)) && Det(Add(a, b)) >= Det(a) + Det(b)
  {
    var u, v, w := a.a00 * b.a11, a.a11 * b.a00, a.a01 * b.a01;
    assert Det(Add(a, b)) == Det(a) + Det(b) + (u + v - 2.0 * w) by {
      assert (a.a00 + b.a00) * (a.a11 + b.a11) == a.a00 * a.a11 + u + v + b.a00 * b.a11;
      assert (a.a01 + b.a01) * (a.a01 + b.a01) == a.a01 * a.a01 + 2.0 * w + b.a01 * b.a01;
    }
    ProdNonNeg(a.a00, b.a11);
    ProdNonNeg(a.a11, b.a00);
    SquareNonNeg(a.a01);
    SquareNonNeg(b.a01);
    ProdMono(a.a01 * a.a01, a.a00 * a.a11, b.a01 * b.a01, b.a00 * b.a11);
    assert w * w == (a.a01 * a.a01) * (b.a01 * b.a01);
    assert u * v == (a.a00 * a.a11) * (b.a00 * b.a11);
    MeanBound(u, v, w);
  }

  lemma ProdMono(x: real, hiX: real, y: real, hiY: real)
    requires 0.0 <= x <= hiX && 0.0 <= y <= hiY
    ensures x * y <= hiX * hiY
  {
    ProdNonNeg(hiX - x, y);
    ProdNonNeg(hiX, hiY - y);
    assert hiX * hiY - x * y == (hiX - x) * y + hiX * (hiY - y);
  }

  /** The arithmetic mean is at least the geometric mean. */
  lemma MeanBound(u: real, v: real, w: real)
    requires u >= 0.0 && v >= 0.0 && w * w <= u * v
    ensures u + v >= 2.0 * w
  {
    SquareNonNeg(u - v);
    assert (u + v) * (u + v) == (u - v) * (u - v) + 4.0 * (u * v);
    assert (2.0 * w) * (2.0 * w) == 4.0 * (w * w);
    if u + v < 2.0 * w {
      SquareLess(u + v, 2.0 * w);
    }
  }

  lemma SquareLess(x: real, y: real)
    requires 0.0 <= x < y
    ensures x * x < y * y
  {
    ProdPos(y - x, y + x);
    assert (y - x) * (y + x) == y * y - x * x;
  }

  lemma PredictPsd(p: Mat, q: real, n: real, dt: real)
    requires Psd(p) && q > 0.0 && n > 0.0 && dt > 0.0
    ensures Psd(PredictCov(p, q, n, dt))
    ensures Det(PredictCov(p, q, n, dt)) >= Det(p)
    ensures PredictCov(p, q, n, dt).a00 > 0.0
  {
    PropagatePsd(p, dt);
    NoisePsd(q, n, dt);
    AddPsd(Propagate(p, dt), ProcessNoise(q, n, dt));
    PropagateDet(p, dt);
    assert n * dt > 0.0;
    assert q * (dt * dt * dt * dt) >= 0.0 by {
      SquareNonNeg(dt * dt);
      assert dt * dt * dt * dt == (dt * dt) * (dt * dt);
      ProdNonNeg(q, (dt * dt) * (dt * dt));
    }
  }

  // ----- correction

  /** The posterior in terms of the prediction: three entries are scaled by r / s, the last loses
      the part of the velocity variance the measurement explains. */
  lemma CorrectEntries(m: Mat, r: real)
    requires m.a01 == m.a10 && m.a00 >= 0.0 && r > 0.0
    ensures var s := m.a00 + r;
            var c := CorrectCov(m, r);
            && s * c.a00 == r * m.a00 && s * c.a01 == r * m.a01 && s * c.a10 == r * m.a10
            && s * c.a11 == s * m.a11 - m.a01 * m.a01
            && c.a01 == c.a10
  {
    var s := m.a00 + r;
    var k0, k1 := m.a00 / s, m.a10 / s;
    assert s * k0 == m.a00 && s * k1 == m.a10;
    Scale(s, k0, m.a00, r);
    Scale(s, k0, m.a01, r);
    assert s * (m.a10 - k1 * m.a00) == s * m.a10 - (s * k1) * m.a00;
    assert s * (m.a11 - k1 * m.a01) == s * m.a11 - (s * k1) * m.a01;
    var c := CorrectCov(m, r);
    assert s * (c.a01 - c.a10) == 0.0;
  }

  lemma Scale(s: real, k: real, x: real, r: real)
    requires s - s * k == r
    ensures s * ((1.0 - k) * x) == r * x
  {
    assert s * ((1.0 - k) * x) == (s - s * k) * x;
  }

  /** det(posterior) = (r / s) * det(prediction). */
  lemma CorrectDet(m: Mat, r: real)
    requires m.a01 == m.a10 && m.a00 >= 0.0 && r > 0.0
    ensures var s := m.a00 + r;
            Det(CorrectCov(m, r)) == r / s * Det(m)
  {
    var s := m.a00 + r;
    var c := CorrectCov(m, r);
    CorrectEntries(m, r);
    var b := m.a01;
    assert s * s * Det(c) == (s * c.a00) * (s * c.a11) - (s * c.a01) * (s * c.a10);
    assert s * s * Det(c) == s * (r * Det(m)) by {
      calc {
        (r * m.a00) * (s * m.a11 - b * b) - (r * b) * (r * b);
        r * (m.a00 * (s * m.a11) - m.a00 * (b * b) - r * (b * b));
        r * (s * (m.a00 * m.a11) - s * (b * b));
        s * (r * Det(m));
      }
    }
    assert s * (r / s * Det(m)) == r * Det(m) by {
      assert s * (r / s) == r;
    }
    Cancel(s, Det(c), r / s * Det(m));
  }

  lemma Cancel(s: real, x: real, y: real)
    requires s > 0.0 && s * s * x == s * (s * y)
    ensures x == y
  {
    assert s * s > 0.0;
    assert (s * s) * (x - y) == 0.0;
  }

  lemma CorrectDiagonal(m: Mat, r: real)
    requires Psd(m) && r > 0.0
    ensures CorrectCov(m, r).a00 >= 0.0 && CorrectCov(m, r).a11 >= 0.0
  {
    var s := m.a00 + r;
    var c := CorrectCov(m, r);
    CorrectEntries(m, r);
    hide CorrectCov;
    ProdNonNeg(r, m.a00);
    QuotNonNeg(s, c.a00);
    ProdNonNeg(r, m.a11);
    assert s * c.a11 == Det(m) + r * m.a11;
    QuotNonNeg(s, c.a11);
  }

  /** The posterior position variance is below both the predicted one and the measurement noise. */
  lemma CorrectShrinks(m: Mat, r: real)
    requires Psd(m) && r > 0.0
    ensures CorrectCov(m, r).a00 <= m.a00 && CorrectCov(m, r).a00 <= r
  {
    var s := m.a00 + r;
    var c := CorrectCov(m, r);
    CorrectEntries(m, r);
    hide CorrectCov, Det;
    SquareNonNeg(m.a00);
    SquareNonNeg(r);
    ShrinksBy(s, c.a00, m.a00, m.a00 * m.a00);
    ShrinksBy(s, c.a00, r, r * r);
  }

  lemma ShrinksBy(s: real, x: real, y: real, d: real)
    requires s > 0.0 && s * y - s * x == d >= 0.0
    ensures x <= y
  {
    assert s * (y - x) == d;
    QuotNonNeg(s, y - x);
  }

  lemma CorrectPsd(m: Mat, r: real)
    requires Psd(m) && r > 0.0
    ensures Psd(CorrectCov(m, r))
  {
    CorrectEntries(m, r);
    CorrectDiagonal(m, r);
    CorrectDet(m, r);
    hide CorrectCov, Det;
    ProdNonNeg(r / (m.a00 + r), Det(m));
  }

  // ----- runs

  lemma StepValid(s: State, zMeas: real, dtSec: real)
    requires Valid(s)
    ensures Valid(Step(s, zMeas, dtSec))
  {
    var s0 := if dtSec > 5.0 then INITIAL else s;
    if !s0.firstRun {
      var dt := if dtSec > 0.0001 then dtSec else 0.0001;
      PredictPsd(s0.p, s0.q, s0.q * 0.01, dt);
      var m := PredictCov(s0.p, s0.q, s0.q * 0.01, dt);
      hide PredictCov, CorrectCov;
      CorrectPsd(m, Step(s, zMeas, dtSec).r);
    }
  }

  /** Every run from reset, with any measurements and time steps: the covariance stays symmetric positive
      semidefinite, so by PsdQuad no combination of position and velocity gets a negative variance. */
  ghost function Run(inputs: seq<(real, real)>): (s: State)
    ensures Valid(s)
  {
    if inputs == [] then INITIAL
    else
      var k := |inputs| - 1;
      StepValid(Run(inputs[..k]), inputs[k].0, inputs[k].1);
      Step(Run(inputs[..k]), inputs[k].0, inputs[k].1)
  }
}
