/** The order of the algebraic sigmoid of include/pg/math.h: kept exactly on [-67195, 67195], and everywhere
    up to one unit of 2^-16. */
module AlgSigOrder {
  import opened Machine
  import opened Isqrt
  import opened FixedPoint

  // The root d of 1 + x^2 is rounded down, so the quotient v = x / d may be too large; the next lemmas bound
  // by how much. With a = v - 1 the aim is a * sqrt(1 + y^2) <= y for every y >= x.

  /** The root is at least about twice the quotient. */
  lemma RootTwiceQuotient(x: nat, d: nat, v: nat)
    requires 0 < d && v * d <= x * ONE && ONE * ONE + x * x <= d * d + 3 * d
    ensures 2 * v <= d + 3
  {
    assert (x - ONE) * (x - ONE) == x * x - 2 * (x * ONE) + ONE * ONE;
    assert (x - ONE) * (x - ONE) >= 0;
    assert 2 * (v * d) <= d * d + 3 * d;
    assert (d + 4) * d == d * d + 4 * d && (2 * v) * d == 2 * (v * d);
    MulCancelLess(2 * v, d + 4, d);
  }

  lemma SquareScaled(m: nat, t: nat, a: nat, z: nat)
    requires 4 * m <= t * t && t * a <= 2 * z
    ensures m * (a * a) <= z * z
  {
    MulBounds(t * a, 2 * z, t * a, 2 * z);
    MulMono(4 * m, t * t, a * a);
    assert (t * a) * (t * a) == (t * t) * (a * a);
  }

  lemma QuotientSquare(d: nat, v: nat)
    requires 3 <= d && 1 <= v && 2 * v <= d + 3
    ensures (d * d + 3 * d) * ((v - 1) * (v - 1)) <= (v * d) * (v * d)
  {
    assert (2 * d + 3) * (v - 1) == 2 * (v * d) + 3 * v - 2 * d - 3;
    assert (2 * d + 3) * (2 * d + 3) == 4 * (d * d + 3 * d) + 9;
    SquareScaled(d * d + 3 * d, 2 * d + 3, v - 1, v * d);
  }

  lemma ShareRises(o: nat, s: nat, xx: nat, yy: nat)
    requires s <= o && xx <= yy && (o + xx) * s <= xx * o
    ensures (o + yy) * s <= yy * o
  {
    MulMono(xx, yy, o - s);
    assert (o + xx) * s == o * s + xx * s && (o + yy) * s == o * s + yy * s;
    assert xx * (o - s) == xx * o - xx * s && yy * (o - s) == yy * o - yy * s;
  }

  lemma OneOut(x: nat)
    ensures (x * ONE) * (x * ONE) == (x * x) * (ONE * ONE)
  {
  }

  /** If x / sqrt(1 + x^2) reaches a / ONE, so does the same of every larger y. */
  lemma SoftRises(x: nat, y: nat, a: nat)
    requires x <= y && a < ONE && (ONE * ONE + x * x) * (a * a) <= (x * ONE) * (x * ONE)
    ensures (ONE * ONE + y * y) * (a * a) <= (y * ONE) * (y * ONE)
  {
    MulBounds(a, ONE, a, ONE);
    MulBounds(x, y, x, y);
    OneOut(x);
    OneOut(y);
    ShareRises(ONE * ONE, a * a, x * x, y * y);
  }

  lemma SquareChain(n: nat, m: nat, a: nat, w: nat, z: nat)
    requires n <= m && m * (a * a) <= w * w && w <= z
    ensures n * (a * a) <= z * z
  {
    MulMono(n, m, a * a);
    MulBounds(w, z, w, z);
  }

  lemma DipBound(n: nat, z: nat, d: nat, v: nat)
    requires 3 <= d && 1 <= v && 2 * v <= d + 3 && v * d <= z && n <= d * d + 3 * d
    ensures n * ((v - 1) * (v - 1)) <= z * z
  {
    QuotientSquare(d, v);
    SquareChain(n, d * d + 3 * d, v - 1, v * d, z);
  }

  /** The quotient a does not exceed, at y, the rounded-down quotient by the rounded-down root. */
  lemma QuotientReaches(y: nat, e: nat, a: nat)
    requires 0 < e && e * e <= ONE * ONE + y * y
    requires (ONE * ONE + y * y) * (a * a) <= (y * ONE) * (y * ONE)
    ensures a <= y * ONE / e
  {
    MulMono(e * e, ONE * ONE + y * y, a * a);
    assert (a * e) * (a * e) == (e * e) * (a * a);
    SquareOrder(a * e, y * ONE + 1);
    DivMono(a * e, y * ONE, e);
    DivUnique(a * e, e, a, 0);
  }

  lemma ArgNear(x: q16)
    ensures AlgSigArg(x) <= ONE * ONE + x * x < AlgSigArg(x) + ONE
  {
  }

  /** The root, rounded down twice, of an argument from 0 up to saturation. */
  lemma RootNear(x: q16, d: nat)
    requires 0 <= x < SAT && d == FloorSqrt(AlgSigArg(x)) && ONE <= d
    ensures d * d <= ONE * ONE + x * x <= d * d + 3 * d
  {
    ArgNear(x);
    assert (d + 1) * (d + 1) == d * d + 2 * d + 1;
  }

  lemma FloorTimes(n: nat, d: nat)
    requires 0 < d
    ensures 0 <= (n / d) * d <= n
  {
    assert n == (n / d) * d + n % d;
  }

  lemma Quotient(x: q16) returns (d: q16, v: nat)
    requires 0 <= x < SAT
    ensures ONE <= d && d * d <= ONE * ONE + x * x <= d * d + 3 * d
    ensures v == AlgSig(x) && v == x * ONE / d && v * d <= x * ONE && v <= ONE
  {
    hide AlgSig, AlgSigArg, FloorSqrt, Q16Div;
    d := AlgSigDen(x);
    DivUnitAbs(x, d);
    v := x * ONE / d;
    FloorTimes(x * ONE, d);
    RootNear(x, d);
  }

  lemma QuotientDip(x: nat, y: nat, d: nat, e: nat, v: nat)
    requires x <= y && 3 <= d && 0 < e && 1 <= v <= ONE
    requires v * d <= x * ONE && ONE * ONE + x * x <= d * d + 3 * d && e * e <= ONE * ONE + y * y
    ensures v - 1 <= y * ONE / e
  {
    RootTwiceQuotient(x, d, v);
    DipBound(ONE * ONE + x * x, x * ONE, d, v);
    SoftRises(x, y, v - 1);
    QuotientReaches(y, e, v - 1);
  }

  lemma DipAt(x: q16, y: q16)
    requires 0 <= x <= y < SAT
    ensures AlgSig(x) <= AlgSig(y) + 1
  {
    hide AlgSig;
    var d, v := Quotient(x);
    var e, w := Quotient(y);
    if v >= 1 {
      QuotientDip(x, y, d, e, v);
    }
  }

  lemma Saturated(x: q16)
    ensures x >= SAT ==> AlgSig(x) == ONE
    ensures x <= -SAT ==> AlgSig(x) == -ONE
  {
  }

  /** pg_math_alg_sig is monotone up to one unit of 2^-16, for every pair of arguments. */
  lemma AlmostMono(x: q16, y: q16)
    requires x <= y
    ensures AlgSig(x) <= AlgSig(y) + 1
  {
    hide AlgSig;
    Saturated(x);
    Saturated(y);
    AlgSigRange(x);
    AlgSigRange(y);
    if 0 <= x && y < SAT {
      DipAt(x, y);
    } else if y <= 0 && -SAT < x {
      AlgSigOdd(x);
      AlgSigOdd(y);
      DipAt(-y, -x);
    }
  }

  // ----- how near it is to x / sqrt(1 + x^2)

  /** The next larger quotient is beyond the exact value. */
  lemma QuotientTight(x: nat, d: nat, v: nat)
    requires 0 < d && v == x * ONE / d && d * d <= ONE * ONE + x * x
    ensures (x * ONE) * (x * ONE) < (ONE * ONE + x * x) * ((v + 1) * (v + 1))
  {
    assert x * ONE == v * d + x * ONE % d;
    assert (v + 1) * d == v * d + d;
    SquareLess(x * ONE, (v + 1) * d);
    assert ((v + 1) * d) * ((v + 1) * d) == (d * d) * ((v + 1) * (v + 1));
    MulMono(d * d, ONE * ONE + x * x, (v + 1) * (v + 1));
  }

  lemma SquareLess(a: nat, b: nat)
    requires a < b
    ensures a * a < b * b
  {
    MulBounds(a, b - 1, a, b - 1);
    assert (b - 1) * (b - 1) == b * b - 2 * b + 1;
  }

  /** Between 0 and saturation the result is x / sqrt(1 + x^2) up to one unit of 2^-16, either way: squared, the exact
      value lies between (v - 1)^2 and (v + 1)^2. */
  lemma NearExact(x: q16)
    requires 0 <= x < SAT
    ensures var v, n := AlgSig(x), ONE * ONE + x * x;
            && 0 <= v <= ONE && (x * ONE) * (x * ONE) < n * ((v + 1) * (v + 1))
            && (v >= 1 ==> n * ((v - 1) * (v - 1)) <= (x * ONE) * (x * ONE))
  {
    hide AlgSig;
    var d, v := Quotient(x);
    QuotientTight(x, d, v);
    if v >= 1 {
      RootTwiceQuotient(x, d, v);
      DipBound(ONE * ONE + x * x, x * ONE, d, v);
    }
  }

  // ----- where the order is kept exactly

  lemma RootAndQuotient(x: q16) returns (d: nat)
    requires 0 <= x < SAT
    ensures ONE <= d && x <= d && d * d <= AlgSigArg(x) < (d + 1) * (d + 1)
    ensures AlgSig(x) == x * ONE / d
  {
    hide AlgSig, AlgSigArg, Q16Div;
    var den := AlgSigDen(x);
    DivUnitAbs(x, den);
    d := den;
  }

  /** As long as the root rises by at most one, the quotient does not fall. */
  lemma QuotientRises(x: nat, d: nat, e: nat)
    requires x <= d && 0 < d && 0 < e <= d + 1
    ensures x * ONE / d <= (x + 1) * ONE / e
  {
    MulMono(e, d + 1, x * ONE);
    assert (d + 1) * (x * ONE) == x * ONE * d + x * ONE;
    assert (x + 1) * ONE * d == x * ONE * d + ONE * d;
    assert x * ONE * e == e * (x * ONE);
    FracMono(x * ONE, d, (x + 1) * ONE, e);
  }

  /** A root below r + 2 is at most one more than a root that has reached r. */
  lemma RootsClose(a: int, b: int, r: nat, d: nat, e: nat)
    requires r * r <= a < (d + 1) * (d + 1) && e * e <= b < (r + 2) * (r + 2)
    ensures e <= d + 1
  {
    SquareOrder(r, d + 1);
    SquareOrder(e, r + 2);
  }

  lemma StepKept(x: q16, r: nat)
    requires 0 <= x < SAT - 1 && r * r <= AlgSigArg(x) && AlgSigArg(x + 1) < (r + 2) * (r + 2)
    ensures AlgSig(x) <= AlgSig(x + 1)
  {
    hide AlgSig, AlgSigArg;
    var d := RootAndQuotient(x);
    var e := RootAndQuotient(x + 1);
    RootsClose(AlgSigArg(x), AlgSigArg(x + 1), r, d, e);
    QuotientRises(x, d, e);
  }

  lemma NextSquares(a: int, b: int, d: nat)
    requires ONE <= d && a < (d + 1) * (d + 1) && b <= a + 2 * ONE
    ensures b < (d + 2) * (d + 2)
  {
    assert (d + 2) * (d + 2) == (d + 1) * (d + 1) + 2 * d + 3;
  }

  /** The root rises by at most one if its argument rises by at most two whole units. */
  lemma SmallRise(x: q16)
    requires 0 <= x < SAT - 1 && AlgSigArg(x + 1) <= AlgSigArg(x) + 2 * ONE
    ensures AlgSig(x) <= AlgSig(x + 1)
  {
    hide AlgSig, AlgSigArg;
    var d := RootAndQuotient(x);
    NextSquares(AlgSigArg(x), AlgSigArg(x + 1), d);
    StepKept(x, d);
  }

  /** The square of ONE + t in whole units. */
  lemma ArgBeyondOne(t: nat, j: nat)
    requires t <= ONE && j * ONE <= t * t < (j + 1) * ONE
    ensures AlgSigArg(ONE + t) == (2 * ONE + 2 * t + j) * ONE
  {
    assert (ONE + t) * (ONE + t) == ONE * ONE + 2 * t * ONE + t * t;
    DivUnique((ONE + t) * (ONE + t), ONE, ONE + 2 * t + j, t * t - j * ONE);
  }

  lemma StepBelowOne(x: q16)
    requires 0 <= x < ONE
    ensures AlgSig(x) <= AlgSig(x + 1)
  {
    hide AlgSig;
    ArgRise(x);
    SmallRise(x);
  }

  lemma ArgRise(x: q16)
    requires 0 <= x < ONE
    ensures AlgSigArg(x + 1) <= AlgSigArg(x) + 2 * ONE
  {
    var q := x * x / ONE;
    assert (x + 1) * (x + 1) == x * x + 2 * x + 1;
    DivMono((x + 1) * (x + 1), x * x + 2 * ONE, ONE);
    ModShift(x * x, 2, ONE);
  }

  /** The j-th t at which (t + 1)^2 reaches a further multiple of ONE, and the root at ONE + t. */
  function Jump(j: nat): (nat, nat) {
    match j
    case 0 => (255, 92862) case 1 => (362, 92937) case 2 => (443, 92995) case 3 => (511, 93043)
    case 4 => (572, 93086) case 5 => (627, 93125) case 6 => (677, 93161) case 7 => (724, 93194)
    case 8 => (767, 93225) case 9 => (809, 93255) case 10 => (849, 93283) case 11 => (886, 93310)
    case 12 => (923, 93336) case 13 => (957, 93360) case 14 => (991, 93384) case 15 => (1023, 93407)
    case 16 => (1055, 93430) case 17 => (1086, 93452) case 18 => (1115, 93473) case 19 => (1144, 93493)
    case 20 => (1173, 93514) case 21 => (1200, 93533) case 22 => (1227, 93553) case 23 => (1254, 93572)
    case 24 => (1279, 93590) case 25 => (1305, 93608) case 26 => (1330, 93626) case 27 => (1354, 93643)
    case 28 => (1378, 93661) case 29 => (1402, 93678) case 30 => (1425, 93694) case 31 => (1448, 93711)
    case 32 => (1470, 93726) case 33 => (1492, 93742) case 34 => (1514, 93758) case 35 => (1535, 93773)
    case 36 => (1557, 93788) case 37 => (1578, 93804) case 38 => (1598, 93818) case 39 => (1619, 93833)
    case 40 => (1639, 93847) case _ => (1659, 93861)
  }

  /** Three of the jumps raise the root by two. */
  predicate Double(j: nat) { j == 5 || j == 19 || j == 36 }

  /** The root r is reached at ONE + t, and r + 2 is not reached at the next argument. */
  predicate RootsFit(j: nat) {
    var (t, r) := Jump(j);
    r * r <= (2 * ONE + 2 * t + j) * ONE && (2 * ONE + 2 * t + j + 3) * ONE < (r + 2) * (r + 2)
  }

  lemma JumpsSquare(j: nat)
    requires j <= 41
    ensures var t := Jump(j).0; t * t < (j + 1) * ONE <= (t + 1) * (t + 1) < (j + 2) * ONE
    ensures j == 41 ==> Jump(j).0 == 1659
  {
  }

  lemma JumpsRoot(j: nat)
    requires j < 41 && !Double(j)
    ensures RootsFit(j)
  {
  }

  lemma AlgSigAt(x: q16, n: nat, d: nat, v: int)
    requires 0 <= x < SAT && n * ONE <= x * x < (n + 1) * ONE
    requires 0 < d && d * d <= (ONE + n) * ONE < (d + 1) * (d + 1)
    requires v * d <= x * ONE < v * d + d
    ensures AlgSig(x) == v
  {
    DivUnique(x * x, ONE, n, x * x - n * ONE);
    hide AlgSig;
    var e := RootAndQuotient(x);
    FloorSqrtUnique(AlgSigArg(x), d);
    FloorSqrtUnique(AlgSigArg(x), e);
    DivUnique(x * ONE, d, v, x * ONE - v * d);
  }

  /** At the double jumps the quotient happens to stay the same. */
  lemma DoubleKept(j: nat)
    requires Double(j)
    ensures var x := ONE + Jump(j).0; AlgSig(x) <= AlgSig(x + 1)
  {
    hide AlgSig;
    if j == 5 {
      AlgSigAt(66163, 66795, 93125, 46561);
      AlgSigAt(66164, 66798, 93127, 46561);
    } else if j == 19 {
      AlgSigAt(66680, 67843, 93493, 46740);
      AlgSigAt(66681, 67846, 93495, 46740);
    } else {
      AlgSigAt(67093, 68686, 93788, 46882);
      AlgSigAt(67094, 68689, 93790, 46882);
    }
  }

  /** The first fall: here a larger argument gives a smaller result. */
  lemma Falls()
    ensures AlgSig(67195) == 46917 && AlgSig(67196) == 46916
  {
    AlgSigAt(67195, 68895, 93861, 46917);
    AlgSigAt(67196, 68898, 93863, 46916);
  }

  /** There is one t with t^2 < m <= (t + 1)^2. */
  lemma JumpUnique(t: nat, u: nat, m: int)
    requires t * t < m <= (t + 1) * (t + 1) && u * u < m <= (u + 1) * (u + 1)
    ensures t == u
  {
    SquareOrder(t, u + 1);
    SquareOrder(u, t + 1);
  }

  lemma JumpKept(t: nat, j: nat)
    requires t < 1659 && t * t < (j + 1) * ONE <= (t + 1) * (t + 1) && j * ONE <= t * t
    ensures AlgSig(ONE + t) <= AlgSig(ONE + t + 1)
  {
    hide AlgSig, AlgSigArg, Jump;
    MulBounds(t, 1658, t, 1658);
    JumpsSquare(j);
    JumpUnique(t, Jump(j).0, (j + 1) * ONE);
    if Double(j) {
      DoubleKept(j);
    } else if j < 41 {
      JumpsRoot(j);
      ArgBeyondOne(t, j);
      ArgBeyondOne(t + 1, j + 1);
      StepKept(ONE + t, Jump(j).1);
    }
  }

  lemma StepBeyondOne(t: nat)
    requires t < 1659
    ensures AlgSig(ONE + t) <= AlgSig(ONE + t + 1)
  {
    hide AlgSig, AlgSigArg;
    var j := t * t / ONE;
    MulBounds(t, 1658, t, 1658);
    assert t * t == j * ONE + t * t % ONE;
    if (j + 1) * ONE <= (t + 1) * (t + 1) {
      JumpKept(t, j);
    } else {
      ArgBeyondOne(t, j);
      MulBounds(t, t + 1, t, t + 1);
      ArgBeyondOne(t + 1, j);
      SmallRise(ONE + t);
    }
  }

  /** The largest argument up to which the order is kept. */
  const ORDERED: q16 := 67195

  lemma {:induction false} OrderedUp(x: q16, y: q16)
    requires 0 <= x <= y <= ORDERED
    ensures AlgSig(x) <= AlgSig(y)
    decreases y - x
  {
    hide AlgSig;
    if x < y {
      OrderedUp(x, y - 1);
      if y <= ONE {
        StepBelowOne(y - 1);
      } else {
        StepBeyondOne(y - 1 - ONE);
      }
    }
  }

  /** Between -67195 and 67195 a larger argument never gives a smaller result. */
  lemma OrderKept(x: q16, y: q16)
    requires -ORDERED <= x <= y <= ORDERED
    ensures AlgSig(x) <= AlgSig(y)
  {
    hide AlgSig;
    AlgSigRange(x);
    AlgSigRange(y);
    if 0 <= x {
      OrderedUp(x, y);
    } else if y <= 0 {
      AlgSigOdd(x);
      AlgSigOdd(y);
      OrderedUp(-y, -x);
    }
  }

  /** No longer interval around 0 will do. */
  lemma OrderedIff(b: int)
    ensures (forall x: q16, y: q16 :: -b <= x <= y <= b ==> AlgSig(x) <= AlgSig(y)) <==> b <= ORDERED
  {
    hide AlgSig;
    if b <= ORDERED {
      forall x: q16, y: q16 | -b <= x <= y <= b
        ensures AlgSig(x) <= AlgSig(y)
      {
        OrderKept(x, y);
      }
    } else {
      Falls();
      assert -b <= ORDERED <= ORDERED + 1 <= b;
    }
  }
}
