/** The Q16.16 arithmetic and the curve primitives of include/pg/math.h. */
module FixedPoint {
  import opened Machine
  import opened Isqrt

  type q16 = i32

  const ONE: q16 := 0x1_0000
  const HALF: q16 := 0x8000

  /** INT_TO_Q16(180), the saturation bound of the decay and of the algebraic sigmoid. */
  const SAT: q16 := 180 * 0x1_0000

  function AbsQ16(x: q16): q16 {
    if x == I32_MIN then I32_MAX else if x < 0 then -x else x
  }

  function Q16Mul(a: q16, b: q16): q16 { W32(a * b / TWO16) }

  function Q16Div(a: q16, b: q16): q16 {
    if b == 0 then if a >= 0 then I32_MAX else I32_MIN
    else W32(TruncDiv(a * TWO16, b))
  }

  function Lerp(min: q16, max: q16, v: q16): q16 { W32(min + Q16Mul(W32(max - min), v)) }

  function Q16Sqrt(x: q16): q16 {
    if x <= 0 then 0 else W32(FloorSqrt(x * TWO16))
  }

  function Sigmoid(val: q16, k: q16, mid: q16): q16 {
    var x := Q16Mul(k, W32(val - mid));
    var ax := W32(Abs(x));
    var den := W32(ONE + ax);
    var frc := Q16Div(x, den);
    W32(frc + ONE) / 2
  }

  function Decay(val: q16, coeff: q16): q16 {
    var x := Q16Mul(coeff, val);
    if x < 0 then ONE
    else if x >= SAT then 0
    else
      var x2 := Q16Mul(x, x);
      var den := W32(W32(ONE + x) + x2 / 2);
      Q16Div(ONE, den)
  }

  function AlgSig(x: q16): q16 {
    if x >= SAT then ONE
    else if x <= -SAT then -ONE
    else
      var x2 := Q16Mul(x, x);
      var den := Q16Sqrt(W32(ONE + x2));
      if den == 0 then if x >= 0 then ONE else -ONE
      else Q16Div(x, den)
  }

  // ----- products and quotients

  /** A product of non-negative operands bounded by hiA and hiB does not wrap. */
  lemma MulExact(a: q16, hiA: int, b: q16, hiB: int)
    requires 0 <= a <= hiA && 0 <= b <= hiB && hiA * hiB / TWO16 < TWO31
    ensures Q16Mul(a, b) == a * b / TWO16
    ensures 0 <= Q16Mul(a, b) <= hiA * hiB / TWO16
  {
    MulBounds(a, hiA, b, hiB);
    DivMono(a * b, hiA * hiB, TWO16);
  }

  /** Scaling a non-negative value by a factor in [0, 1] keeps it in [0, a]. */
  lemma MulUnit(a: q16, f: q16)
    requires 0 <= a && 0 <= f <= ONE
    ensures Q16Mul(a, f) == a * f / TWO16
    ensures 0 <= Q16Mul(a, f) <= a
  {
    MulExact(a, a, f, ONE);
  }

  lemma MulComm(a: q16, b: q16)
    ensures Q16Mul(a, b) == Q16Mul(b, a)
  {
    assert a * b == b * a;
  }

  /** a <= b scaled by the same c >= 0: no wrap on either side gives the same order. */
  lemma MulOrder(a: q16, b: q16, c: q16)
    requires a <= b && 0 <= c
    requires FitsI32(a * c / TWO16) && FitsI32(b * c / TWO16)
    ensures Q16Mul(a, c) <= Q16Mul(b, c)
  {
    MulMono(a, b, c);
    DivMono(a * c, b * c, TWO16);
  }

  lemma DivUnit(x: q16, den: q16)
    requires 0 < den && 0 <= x <= den
    ensures Q16Div(x, den) == x * TWO16 / den
    ensures 0 <= Q16Div(x, den) <= ONE
  {
    MulMono(x, den, TWO16);
    DivMono(x * TWO16, den * TWO16, den);
    DivMono(0, x * TWO16, den);
    DivUnique(den * TWO16, den, TWO16, 0);
    DivUnique(0, den, 0, 0);
  }

  /** Division of either sign by a positive divisor that is at least |x|: odd, and of magnitude <= 1. */
  lemma DivUnitAbs(x: q16, den: q16)
    requires 0 < den && Abs(x) <= den
    ensures Q16Div(x, den) == TruncDiv(x * TWO16, den)
    ensures -ONE <= Q16Div(x, den) <= ONE
    ensures x >= 0 ==> Q16Div(x, den) >= 0
    ensures x <= 0 ==> Q16Div(x, den) <= 0
  {
    if x >= 0 {
      DivUnit(x, den);
    } else {
      DivUnit(-x, den);
      assert Abs(x * TWO16) == -x * TWO16;
    }
  }

  lemma FracMono(a: int, b: int, c: int, d: int)
    requires 0 < b && 0 < d && a * d <= c * b
    ensures a / b <= c / d
  {
    var q := a / b;
    MulMono(q * b, a, d);
    assert q * b * d == q * d * b;
    assert (q * d) * b <= c * b;
    assert (c + 1) * b == c * b + b;
    MulCancelLess(q * d, c + 1, b);
    DivMono(q * d, c, d);
    DivUnique(q * d, d, q, 0);
  }

  // ----- the sigmoid x / (1 + |x|)

  /** x / (1 + |x|) in Q16, truncated toward zero. */
  function Soft(x: int): int { TruncDiv(x * TWO16, ONE + Abs(x)) }

  lemma SoftRange(x: int)
    ensures -ONE <= Soft(x) <= ONE
    ensures x >= 0 ==> Soft(x) >= 0
    ensures x <= 0 ==> Soft(x) <= 0
  {
    var d := ONE + Abs(x);
    MulMono(Abs(x), d, TWO16);
    DivMono(Abs(x) * TWO16, d * TWO16, d);
    DivMono(0, Abs(x) * TWO16, d);
    DivUnique(d * TWO16, d, TWO16, 0);
    DivUnique(0, d, 0, 0);
    assert Abs(x * TWO16) == Abs(x) * TWO16;
  }

  lemma SoftCross(x: nat, y: nat)
    requires x <= y
    ensures x * TWO16 * (ONE + y) <= y * TWO16 * (ONE + x)
  {
    assert x * TWO16 * (ONE + y) == (x * y) * TWO16 + x * TWO16 * ONE;
    assert y * TWO16 * (ONE + x) == (x * y) * TWO16 + y * TWO16 * ONE;
  }

  lemma SoftMono(x: int, y: int)
    requires x <= y
    ensures Soft(x) <= Soft(y)
  {
    SoftRange(x);
    SoftRange(y);
    if 0 <= x {
      SoftCross(x, y);
      FracMono(x * TWO16, ONE + x, y * TWO16, ONE + y);
    } else if y <= 0 {
      var a, b := -x, -y;
      SoftCross(b, a);
      FracMono(b * TWO16, ONE + b, a * TWO16, ONE + a);
      assert Abs(x * TWO16) == a * TWO16 && Abs(y * TWO16) == b * TWO16;
    }
  }

  /** The exact argument of the softsign. */
  function SigArg(val: q16, k: q16, mid: q16): int { k * (val - mid) / TWO16 }

  /** Nothing in the sigmoid overflows. */
  predicate SigFits(val: q16, k: q16, mid: q16) {
    FitsI32(val - mid) && Abs(SigArg(val, k, mid)) < TWO31 - ONE
  }

  /** Where nothing overflows, the sigmoid is the softsign rescaled to [0, 1]. */
  lemma SigmoidIsSoft(val: q16, k: q16, mid: q16)
    requires SigFits(val, k, mid)
    ensures Sigmoid(val, k, mid) == (Soft(SigArg(val, k, mid)) + ONE) / 2
    ensures 0 <= Sigmoid(val, k, mid) <= ONE
  {
    var x := SigArg(val, k, mid);
    assert Q16Mul(k, W32(val - mid)) == x;
    SoftRange(x);
    DivUnitAbs(x, ONE + Abs(x));
  }

  lemma SigArgMono(v1: q16, v2: q16, k: q16, mid: q16)
    requires v1 <= v2 && 0 <= k
    ensures SigArg(v1, k, mid) <= SigArg(v2, k, mid)
  {
    MulMono(v1 - mid, v2 - mid, k);
    assert k * (v1 - mid) == (v1 - mid) * k && k * (v2 - mid) == (v2 - mid) * k;
    DivMono(k * (v1 - mid), k * (v2 - mid), TWO16);
  }

  lemma SigmoidMono(v1: q16, v2: q16, k: q16, mid: q16)
    requires v1 <= v2 && 0 <= k && SigFits(v1, k, mid) && SigFits(v2, k, mid)
    ensures Sigmoid(v1, k, mid) <= Sigmoid(v2, k, mid)
  {
    SigmoidIsSoft(v1, k, mid);
    SigmoidIsSoft(v2, k, mid);
    SigArgMono(v1, v2, k, mid);
    SoftMono(SigArg(v1, k, mid), SigArg(v2, k, mid));
  }

  // ----- the decay 1 / (1 + x + x^2 / 2)

  /** The denominator of the decay below its saturation bound: it never overflows and is at least 1. */
  lemma DecayDen(x: q16)
    requires 0 <= x < SAT
    ensures Q16Mul(x, x) == x * x / TWO16 <= 32_400 * TWO16
    ensures W32(W32(ONE + x) + Q16Mul(x, x) / 2) == ONE + x + x * x / TWO16 / 2 >= ONE
  {
    MulExact(x, SAT, x, SAT);
  }

  lemma DecayRange(val: q16, coeff: q16)
    ensures 0 <= Decay(val, coeff) <= ONE
  {
    var x := Q16Mul(coeff, val);
    if 0 <= x < SAT {
      DecayDen(x);
      DivUnit(ONE, ONE + x + x * x / TWO16 / 2);
    }
  }

  /** All three branches together: a larger argument never decays less. */
  lemma DecayAntitone(v1: q16, v2: q16, coeff: q16)
    requires v1 <= v2 && 0 <= coeff
    requires FitsI32(v1 * coeff / TWO16) && FitsI32(v2 * coeff / TWO16)
    ensures Decay(v2, coeff) <= Decay(v1, coeff)
  {
    MulOrder(v1, v2, coeff);
    MulComm(v1, coeff);
    MulComm(v2, coeff);
    DecayRange(v1, coeff);
    DecayRange(v2, coeff);
    var x, y := Q16Mul(coeff, v1), Q16Mul(coeff, v2);
    if 0 <= x && y < SAT {
      DecayDen(x);
      DecayDen(y);
      MulBounds(x, y, x, y);
      var d, e := ONE + x + x * x / TWO16 / 2, ONE + y + y * y / TWO16 / 2;
      DivMono(x * x, y * y, TWO16);
      DivUnit(ONE, d);
      DivUnit(ONE, e);
      DivAntitone(ONE * TWO16, d, e);
    }
  }

  // ----- the algebraic sigmoid x / sqrt(1 + x^2)

  /** The argument of the square root, exactly. */
  function AlgSigArg(x: q16): int { (ONE + x * x / TWO16) * TWO16 }

  lemma AlgSigArgEven(x: q16)
    requires x != I32_MIN
    ensures AlgSigArg(-x) == AlgSigArg(x)
  {
    assert -x * -x == x * x;
  }

  lemma AlgSigArgRange(x: q16)
    requires -SAT < x < SAT
    ensures x * x / TWO16 <= 32_400 * TWO16
    ensures x * x <= AlgSigArg(x) && ONE * ONE <= AlgSigArg(x) < 0x100_0000 * 0x100_0000
  {
    AbsMulBounds(x, SAT, x, SAT);
    assert x * x >= 0;
    DivMono(x * x, SAT * SAT, TWO16);
    DivMono(0, x * x, TWO16);
  }

  /** The root under x is at least |x| and at least 1. */
  lemma AlgSigRoot(x: q16) returns (den: q16)
    requires -SAT < x < SAT
    ensures den == FloorSqrt(AlgSigArg(x)) && ONE <= den && Abs(x) <= den
  {
    AlgSigArgRange(x);
    assert Abs(x) * Abs(x) == x * x;
    FloorSqrtAtLeast(AlgSigArg(x), Abs(x));
    FloorSqrtAtLeast(AlgSigArg(x), ONE);
    FloorSqrtBelow(AlgSigArg(x), 0x100_0000);
    den := FloorSqrt(AlgSigArg(x));
  }

  /** Neither the root nor its argument overflows. */
  lemma AlgSigDen(x: q16) returns (den: q16)
    requires -SAT < x < SAT
    ensures den == FloorSqrt(AlgSigArg(x)) && AlgSig(x) == Q16Div(x, den)
    ensures ONE <= den && Abs(x) <= den
  {
    den := AlgSigRoot(x);
    AlgSigArgRange(x);
    var x2 := Q16Mul(x, x);
    assert x2 == x * x / TWO16;
    assert W32(ONE + x2) == ONE + x2 > 0;
    assert Q16Sqrt(ONE + x2) == den;
  }

  lemma TruncDivOdd(a: int, b: int)
    requires 0 < b
    ensures TruncDiv(-a, b) == -TruncDiv(a, b)
  {
    if a == 0 {
      DivUnique(0, b, 0, 0);
    }
  }

  lemma DivOdd(x: q16, den: q16)
    requires 0 < den && Abs(x) <= den
    ensures Q16Div(x, den) + Q16Div(-x, den) == 0
  {
    DivUnitAbs(x, den);
    DivUnitAbs(-x, den);
    TruncDivOdd(x * TWO16, den);
    assert -x * TWO16 == -(x * TWO16);
  }

  /** pg_math_alg_sig is odd. */
  lemma AlgSigOdd(x: q16)
    requires x != I32_MIN
    ensures AlgSig(x) + AlgSig(-x) == 0
  {
    if -SAT < x < SAT {
      var den := AlgSigDen(x);
      var den' := AlgSigDen(-x);
      AlgSigArgEven(x);
      DivOdd(x, den);
    }
  }

  /** pg_math_alg_sig keeps the sign of its argument and never leaves [-1, 1]. */
  lemma AlgSigRange(x: q16)
    ensures x >= 0 ==> 0 <= AlgSig(x) <= ONE
    ensures x <= 0 ==> -ONE <= AlgSig(x) <= 0
  {
    if -SAT < x < SAT {
      var den := AlgSigDen(x);
      DivUnitAbs(x, den);
    }
  }

  // ----- interpolation

  lemma LerpRange(min: q16, max: q16, v: q16)
    requires 0 <= min && 0 <= max && 0 <= v <= ONE
    ensures min <= max ==> Lerp(min, max, v) == min + Q16Mul(max - min, v)
    ensures min <= max ==> min <= Lerp(min, max, v) <= max
    ensures max <= min ==> max <= Lerp(min, max, v) <= min
    ensures Lerp(min, max, v) == min + (max - min) * v / TWO16
  {
    if min <= max {
      MulUnit(max - min, v);
    } else {
      var d := min - max;
      MulBounds(d, d, v, ONE);
      assert (max - min) * v == -(d * v);
      DivMono(-(d * v), 0, TWO16);
      DivMono(-(d * ONE), -(d * v), TWO16);
    }
  }
}
