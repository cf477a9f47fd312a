/** The shaping curves of src/core/cpu.c: from load demand and effective pressure to the six
    scheduler values, each in its band and ordered in the pressure. */
module Shaping {
  import opened Machine
  import opened FixedPoint
  import opened LoadDemand
  import opened Tune

  /** Upper bound of the effective pressure: 500 amplified by at most 1.115. */
  const P_MAX: q16 := 558 * 0x1_0000

  function EffPress(lDem: q16, tFact: q16, eff: Eff): q16 {
    Q16Mul(lDem, Add32(ONE, Q16Mul(tFact, eff.trendAmp)))
  }

  function ThermLat(thScl: q16, lim: Lim): q16 {
    var lRat := Clamp(Sub32(ONE, thScl), 0, ONE);
    Add32(lim.minLat, Q16Mul(Sub32(lim.maxLat, lim.minLat), lRat))
  }

  function Lat(pEff: q16, lDem: q16, thLat: q16, cfg: Cfg, eff: Eff, lim: Lim): q16 {
    var sig := Sigmoid(pEff, cfg.sigmoidK, eff.sigMid);
    var fac := Sub32(ONE, sig);
    var rng := Sub32(lim.maxLat, lim.minLat);
    var nLat := Add32(lim.minLat, Q16Mul(rng, fac));
    var eDem := Clamp(Q16Div(lDem, 100 * ONE), 0, ONE);
    var lLat := Sub32(lim.maxLat, Q16Mul(eDem, rng));
    var iLat := if nLat < lLat then nLat else lLat;
    var fLat := if iLat > thLat then iLat else thLat;
    Clamp(fLat, lim.minLat, lim.maxLat)
  }

  function Gran(lat: q16, cfg: Cfg, lim: Lim): q16 {
    var aGrn := Clamp(Q16Mul(lat, cfg.latGranRat), lim.minGran, lim.maxGran);
    if aGrn < lat then aGrn else lat
  }

  function Wakeup(pEff: q16, eff: Eff, lim: Lim): q16 {
    var dec := Decay(pEff, eff.decay);
    Clamp(Add32(lim.minWake, Q16Mul(Sub32(lim.maxWake, lim.minWake), dec)), lim.minWake, lim.maxWake)
  }

  function Migration(vel: q16, pEff: q16, lim: Lim): q16 {
    var fac := Sub32(ONE, Clamp(Q16Div(pEff, 100 * ONE), 0, ONE));
    var crv := Q16Mul(fac, fac);
    var rMig := Add32(lim.minMig, Q16Mul(Sub32(lim.maxMig, lim.minMig), crv));
    var vRat := Clamp(Q16Div(AbsQ16(vel), 25 * ONE), 0, ONE);
    Clamp(Q16Mul(rMig, Sub32(ONE, Q16Mul(vRat, HALF))), lim.minMig, lim.maxMig)
  }

  function Walt(press: q16, lim: Lim): q16 {
    var rat := Clamp(Q16Div(press, 100 * ONE), 0, ONE);
    var crv := Q16Mul(rat, rat);
    Clamp(Add32(lim.minWalt, Q16Mul(Sub32(lim.maxWalt, lim.minWalt), crv)), lim.minWalt, lim.maxWalt)
  }

  function Uclamp(press: q16, thScl: q16, cfg: Cfg, eff: Eff, lim: Lim): q16 {
    var sig := Sigmoid(press, cfg.uclampK, eff.uclMid);
    var ucl := Add32(lim.minUcl, Q16Mul(Sub32(lim.maxUcl, lim.minUcl), sig));
    Clamp(Q16Mul(ucl, thScl), lim.minUcl, lim.maxUcl)
  }

  // ----- pressure

  lemma EffPressRange(lDem: q16, tFact: q16, eff: Eff)
    requires 0 <= lDem <= PSI_MAX && 0 <= tFact <= ONE && EffInRange(eff)
    ensures lDem <= EffPress(lDem, tFact, eff) <= P_MAX
  {
    MulUnit(eff.trendAmp, tFact);
    MulComm(eff.trendAmp, tFact);
    var m := Add32(ONE, Q16Mul(tFact, eff.trendAmp));
    MulExact(lDem, PSI_MAX, m, ONE + 7536);
    MulMono(ONE, m, lDem);
    assert ONE * lDem == lDem * ONE && m * lDem == lDem * m;
    DivMono(lDem * ONE, lDem * m, TWO16);
    DivUnique(lDem * ONE, TWO16, lDem, 0);
  }

  lemma EffPressMono(l1: q16, l2: q16, tFact: q16, eff: Eff)
    requires 0 <= l1 <= l2 <= PSI_MAX && 0 <= tFact <= ONE && EffInRange(eff)
    ensures EffPress(l1, tFact, eff) <= EffPress(l2, tFact, eff)
  {
    MulUnit(eff.trendAmp, tFact);
    MulComm(eff.trendAmp, tFact);
    var m := Add32(ONE, Q16Mul(tFact, eff.trendAmp));
    MulExact(l1, PSI_MAX, m, ONE + 7536);
    MulExact(l2, PSI_MAX, m, ONE + 7536);
    MulOrder(l1, l2, m);
  }

  /** A share of the distance from min to max, for a factor in [0, 1]: exact, in the band and ordered. */
  lemma Share(min: q16, max: q16, f: q16, g: q16)
    requires 0 <= min <= max && 0 <= f <= g <= ONE
    ensures min <= Add32(min, Q16Mul(Sub32(max, min), f)) <= Add32(min, Q16Mul(Sub32(max, min), g)) <= max
  {
    var rng := Sub32(max, min);
    UnitMulMono(rng, rng, f, g);
  }

  /** A share of the distance taken off max. */
  lemma ShareOff(min: q16, max: q16, f: q16, g: q16)
    requires 0 <= min <= max && 0 <= f <= g <= ONE
    ensures var rng := Sub32(max, min);
            min <= Sub32(max, Q16Mul(g, rng)) <= Sub32(max, Q16Mul(f, rng)) <= max
  {
    var rng := Sub32(max, min);
    UnitMulMono(rng, rng, f, g);
    MulComm(rng, f);
    MulComm(rng, g);
  }

  /** A hundredth of a value, clamped to [0, 1]. */
  lemma Percent(a: q16, b: q16, d: q16)
    requires 0 <= a <= b && ONE <= d
    ensures 0 <= Clamp(Q16Div(a, d), 0, ONE) <= Clamp(Q16Div(b, d), 0, ONE) <= ONE
  {
    DivMono(a * TWO16, b * TWO16, d);
    DivMono(0, a * TWO16, d);
    DivAntitone(b * TWO16, ONE, d);
    DivUnique(b * TWO16, TWO16, b, 0);
  }

  lemma SigFitsInRange(p: q16, k: q16, mid: q16)
    requires 0 <= p <= P_MAX && 0 <= k <= 16384 && 0 <= mid <= 60 * ONE
    ensures SigFits(p, k, mid)
  {
    AbsMulBounds(k, 16384, p - mid, 618 * ONE);
    DivMono(k * (p - mid), 16384 * (618 * ONE), TWO16);
    DivMono(-1 * (16384 * (618 * ONE)), k * (p - mid), TWO16);
  }

  // ----- each value is in its band and ordered in its arguments

  lemma LatMono(p1: q16, p2: q16, l1: q16, l2: q16, thLat: q16, cfg: Cfg, eff: Eff, lim: Lim)
    requires 0 <= p1 <= p2 <= P_MAX && 0 <= l1 <= l2 && EffInRange(eff) && InBand(cfg) && Ordered(lim)
    ensures lim.minLat <= Lat(p2, l2, thLat, cfg, eff, lim) <= Lat(p1, l1, thLat, cfg, eff, lim) <= lim.maxLat
  {
    hide Sigmoid, SigFits, Q16Div, Q16Mul;
    SigFitsInRange(p1, cfg.sigmoidK, eff.sigMid);
    SigFitsInRange(p2, cfg.sigmoidK, eff.sigMid);
    SigmoidIsSoft(p1, cfg.sigmoidK, eff.sigMid);
    SigmoidIsSoft(p2, cfg.sigmoidK, eff.sigMid);
    SigmoidMono(p1, p2, cfg.sigmoidK, eff.sigMid);
    var s1, s2 := Sigmoid(p1, cfg.sigmoidK, eff.sigMid), Sigmoid(p2, cfg.sigmoidK, eff.sigMid);
    Share(lim.minLat, lim.maxLat, ONE - s2, ONE - s1);
    Percent(l1, l2, 100 * ONE);
    ShareOff(lim.minLat, lim.maxLat, Clamp(Q16Div(l1, 100 * ONE), 0, ONE), Clamp(Q16Div(l2, 100 * ONE), 0, ONE));
  }

  /** Heat only ever lengthens the latency, which never falls below the thermal one. */
  lemma LatHeat(p: q16, l: q16, hot: q16, cool: q16, cfg: Cfg, eff: Eff, lim: Lim)
    requires 0 <= p <= P_MAX && 0 <= l && EffInRange(eff) && InBand(cfg) && Ordered(lim)
    requires 0 <= hot <= cool <= ONE
    ensures lim.minLat <= ThermLat(cool, lim) <= ThermLat(hot, lim) <= lim.maxLat
    ensures ThermLat(hot, lim) <= Lat(p, l, ThermLat(hot, lim), cfg, eff, lim)
    ensures Lat(p, l, ThermLat(cool, lim), cfg, eff, lim) <= Lat(p, l, ThermLat(hot, lim), cfg, eff, lim)
  {
    hide Sigmoid, Q16Div, Q16Mul;
    Share(lim.minLat, lim.maxLat, ONE - cool, ONE - hot);
  }

  lemma GranMono(lat1: q16, lat2: q16, cfg: Cfg, lim: Lim)
    requires lim.minLat <= lat1 <= lat2 <= lim.maxLat && InBand(cfg) && Ordered(lim)
    ensures lim.minGran <= Gran(lat1, cfg, lim) <= Gran(lat2, cfg, lim) <= lim.maxGran
    ensures Gran(lat1, cfg, lim) <= lat1
  {
    MulUnit(lat1, cfg.latGranRat);
    MulUnit(lat2, cfg.latGranRat);
    MulOrder(lat1, lat2, cfg.latGranRat);
  }

  lemma WakeupMono(p1: q16, p2: q16, eff: Eff, lim: Lim)
    requires 0 <= p1 <= p2 <= P_MAX && EffInRange(eff) && Ordered(lim)
    ensures lim.minWake <= Wakeup(p2, eff, lim) <= Wakeup(p1, eff, lim) <= lim.maxWake
  {
    MulExact(p1, P_MAX, eff.decay, 1245);
    MulExact(p2, P_MAX, eff.decay, 1245);
    hide Decay;
    DecayAntitone(p1, p2, eff.decay);
    DecayRange(p1, eff.decay);
    DecayRange(p2, eff.decay);
    Share(lim.minWake, lim.maxWake, Decay(p2, eff.decay), Decay(p1, eff.decay));
  }

  lemma MigrationMono(vel: q16, p1: q16, p2: q16, lim: Lim)
    requires 0 <= p1 <= p2 && Ordered(lim)
    ensures lim.minMig <= Migration(vel, p2, lim) <= Migration(vel, p1, lim) <= lim.maxMig
  {
    hide Q16Div, Q16Mul, AbsQ16;
    Percent(p1, p2, 100 * ONE);
    var f1, f2 := ONE - Clamp(Q16Div(p1, 100 * ONE), 0, ONE), ONE - Clamp(Q16Div(p2, 100 * ONE), 0, ONE);
    UnitMulMono(f2, f1, f2, f1);
    Share(lim.minMig, lim.maxMig, Q16Mul(f2, f2), Q16Mul(f1, f1));
    var r1 := Add32(lim.minMig, Q16Mul(Sub32(lim.maxMig, lim.minMig), Q16Mul(f1, f1)));
    var r2 := Add32(lim.minMig, Q16Mul(Sub32(lim.maxMig, lim.minMig), Q16Mul(f2, f2)));
    var vRat := Clamp(Q16Div(AbsQ16(vel), 25 * ONE), 0, ONE);
    ClampRange(Q16Div(AbsQ16(vel), 25 * ONE));
    UnitMulMono(vRat, vRat, HALF, HALF);
    var v := ONE - Q16Mul(vRat, HALF);
    UnitMulMono(r2, r1, v, v);
  }

  lemma ClampRange(x: q16)
    ensures 0 <= Clamp(x, 0, ONE) <= ONE
  {
  }

  lemma WaltMono(p1: q16, p2: q16, lim: Lim)
    requires 0 <= p1 <= p2 && Ordered(lim)
    ensures lim.minWalt <= Walt(p1, lim) <= Walt(p2, lim) <= lim.maxWalt
  {
    hide Q16Div, Q16Mul;
    Percent(p1, p2, 100 * ONE);
    var r1, r2 := Clamp(Q16Div(p1, 100 * ONE), 0, ONE), Clamp(Q16Div(p2, 100 * ONE), 0, ONE);
    UnitMulMono(r1, r2, r1, r2);
    Share(lim.minWalt, lim.maxWalt, Q16Mul(r1, r1), Q16Mul(r2, r2));
  }

  lemma UclampMono(p1: q16, p2: q16, thScl: q16, cfg: Cfg, eff: Eff, lim: Lim)
    requires 0 <= p1 <= p2 <= P_MAX && 0 <= thScl <= ONE && EffInRange(eff) && InBand(cfg) && Ordered(lim)
    ensures lim.minUcl <= Uclamp(p1, thScl, cfg, eff, lim) <= Uclamp(p2, thScl, cfg, eff, lim) <= lim.maxUcl
  {
    hide Sigmoid, SigFits, Q16Mul;
    SigFitsInRange(p1, cfg.uclampK, eff.uclMid);
    SigFitsInRange(p2, cfg.uclampK, eff.uclMid);
    SigmoidIsSoft(p1, cfg.uclampK, eff.uclMid);
    SigmoidIsSoft(p2, cfg.uclampK, eff.uclMid);
    SigmoidMono(p1, p2, cfg.uclampK, eff.uclMid);
    var s1, s2 := Sigmoid(p1, cfg.uclampK, eff.uclMid), Sigmoid(p2, cfg.uclampK, eff.uclMid);
    Share(lim.minUcl, lim.maxUcl, s1, s2);
    var u1 := Add32(lim.minUcl, Q16Mul(Sub32(lim.maxUcl, lim.minUcl), s1));
    var u2 := Add32(lim.minUcl, Q16Mul(Sub32(lim.maxUcl, lim.minUcl), s2));
    UnitMulMono(u1, u2, thScl, thScl);
  }

  /** Heat only ever lowers the utilisation clamp. */
  lemma UclampHeat(p: q16, hot: q16, cool: q16, cfg: Cfg, eff: Eff, lim: Lim)
    requires 0 <= p <= P_MAX && 0 <= hot <= cool <= ONE && EffInRange(eff) && InBand(cfg) && Ordered(lim)
    ensures Uclamp(p, hot, cfg, eff, lim) <= Uclamp(p, cool, cfg, eff, lim)
  {
    hide Sigmoid, SigFits, Q16Mul;
    SigFitsInRange(p, cfg.uclampK, eff.uclMid);
    SigmoidIsSoft(p, cfg.uclampK, eff.uclMid);
    var s := Sigmoid(p, cfg.uclampK, eff.uclMid);
    Share(lim.minUcl, lim.maxUcl, s, s);
    var u := Add32(lim.minUcl, Q16Mul(Sub32(lim.maxUcl, lim.minUcl), s));
    UnitMulMono(u, u, hot, cool);
  }

  // ----- the parameters a hotter device uses

  /** a reacts no more strongly than b: weaker trend, slower decay, the same midpoints. */
  predicate Milder(a: Eff, b: Eff) {
    a.trendAmp <= b.trendAmp && a.decay <= b.decay && a.sigMid == b.sigMid && a.uclMid == b.uclMid
  }

  /** At equal battery and baseline, heat makes the parameters milder. */
  lemma UpdEffHeat(batLvl: q16, hot: q16, cool: q16, avg300: q16)
    requires 0 <= hot <= cool <= ONE && 0 <= avg300 <= 100 * ONE
    ensures Milder(UpdEff(batLvl, hot, avg300), UpdEff(batLvl, cool, avg300))
  {
    hide UpdEff;
    UpdEffIs(batLvl, hot, avg300);
    UpdEffIs(batLvl, cool, avg300);
    var b := Clamp(batLvl, 0, 100 * ONE) / 100;
    MulUp(b, hot, cool);
    MulUp(7536, Mul(b, hot), Mul(b, cool));
    MulUp(1245, hot, cool);
  }

  lemma MulUp(c: nat, x: int, y: int)
    requires 0 <= x <= y
    ensures 0 <= Mul(c, x) <= Mul(c, y)
  {
    MulBounds(c, c, x, y);
    MulBounds(c, c, y, y);
    MulMono(x, y, c);
    assert x * c == c * x && y * c == c * y;
    DivMono(c * x, c * y, TWO16);
    DivMono(0, c * x, TWO16);
  }

  lemma EffPressHeat(lDem: q16, tFact: q16, a: Eff, b: Eff)
    requires 0 <= lDem <= PSI_MAX && 0 <= tFact <= ONE && EffInRange(a) && EffInRange(b) && Milder(a, b)
    ensures EffPress(lDem, tFact, a) <= EffPress(lDem, tFact, b)
  {
    EffPressIs(lDem, tFact, a);
    EffPressIs(lDem, tFact, b);
    MulUp(tFact, a.trendAmp, b.trendAmp);
    MulUp(lDem, ONE + Mul(tFact, a.trendAmp), ONE + Mul(tFact, b.trendAmp));
  }

  /** A slower decay coefficient never shortens the wake-up granularity. */
  lemma WakeupHeat(p: q16, a: Eff, b: Eff, lim: Lim)
    requires 0 <= p <= P_MAX && EffInRange(a) && EffInRange(b) && Milder(a, b) && Ordered(lim)
    ensures Wakeup(p, b, lim) <= Wakeup(p, a, lim)
  {
    MulExact(p, P_MAX, a.decay, 1245);
    MulExact(p, P_MAX, b.decay, 1245);
    MulComm(p, a.decay);
    MulComm(p, b.decay);
    assert p * a.decay == a.decay * p && p * b.decay == b.decay * p;
    assert Decay(p, a.decay) == Decay(a.decay, p) && Decay(p, b.decay) == Decay(b.decay, p);
    hide Decay;
    DecayAntitone(a.decay, b.decay, p);
    DecayRange(a.decay, p);
    DecayRange(b.decay, p);
    Share(lim.minWake, lim.maxWake, Decay(p, b.decay), Decay(p, a.decay));
  }

  lemma SameMidpoints(p: q16, l: q16, thLat: q16, thScl: q16, cfg: Cfg, a: Eff, b: Eff, lim: Lim)
    requires Milder(a, b)
    ensures Lat(p, l, thLat, cfg, a, lim) == Lat(p, l, thLat, cfg, b, lim)
    ensures Uclamp(p, thScl, cfg, a, lim) == Uclamp(p, thScl, cfg, b, lim)
  {
  }

  // ----- each curve is its exact formula: nothing wraps, and where noted no clamp acts

  /** n hundredths (or twenty-fifths) of a value, cut at 1. */
  lemma RatioIs(a: q16, n: int)
    requires 0 <= a && 1 <= n <= 500
    ensures Clamp(Q16Div(a, n * ONE), 0, ONE) == Min(a / n, ONE)
  {
    DivTwice(a * TWO16, TWO16, n);
    DivUnique(a * TWO16, TWO16, a, 0);
    DivAntitone(a, 1, n);
    assert n * ONE == TWO16 * n;
  }

  lemma ShareIs(min: q16, max: q16, f: q16)
    requires 0 <= min <= max && 0 <= f <= ONE
    ensures Add32(min, Q16Mul(Sub32(max, min), f)) == min + Mul(max - min, f)
  {
    MulUnit(Sub32(max, min), f);
  }

  lemma ShareOffIs(min: q16, max: q16, f: q16)
    requires 0 <= min <= max && 0 <= f <= ONE
    ensures Sub32(max, Q16Mul(f, Sub32(max, min))) == max - Mul(f, max - min)
    ensures min <= max - Mul(f, max - min) <= max
  {
    var rng: q16 := max - min;
    MulUnit(rng, f);
    MulComm(rng, f);
    assert rng * f == f * rng;
  }

  lemma EffPressIs(lDem: q16, tFact: q16, eff: Eff)
    requires 0 <= lDem <= PSI_MAX && 0 <= tFact <= ONE && EffInRange(eff)
    ensures EffPress(lDem, tFact, eff) == Mul(lDem, ONE + Mul(tFact, eff.trendAmp))
  {
    MulUnit(eff.trendAmp, tFact);
    MulComm(eff.trendAmp, tFact);
    assert tFact * eff.trendAmp == eff.trendAmp * tFact;
    MulExact(lDem, PSI_MAX, Add32(ONE, Q16Mul(tFact, eff.trendAmp)), ONE + 7536);
  }

  lemma ThermLatIs(thScl: q16, lim: Lim)
    requires 0 <= thScl <= ONE && Ordered(lim)
    ensures ThermLat(thScl, lim) == lim.minLat + Mul(lim.maxLat - lim.minLat, ONE - thScl)
  {
    ShareIs(lim.minLat, lim.maxLat, ONE - thScl);
  }

  /** The lesser of the sigmoid response and the linear ceiling, but at least the thermal latency. Neither
      the clamp nor the sums matter. */
  lemma LatIs(p: q16, l: q16, thScl: q16, cfg: Cfg, eff: Eff, lim: Lim)
    requires 0 <= p <= P_MAX && 0 <= l && 0 <= thScl <= ONE && EffInRange(eff) && InBand(cfg) && Ordered(lim)
    ensures var rng := lim.maxLat - lim.minLat;
            var sig := (Soft(SigArg(p, cfg.sigmoidK, eff.sigMid)) + ONE) / 2;
            var thermal := lim.minLat + Mul(rng, ONE - thScl);
            Lat(p, l, ThermLat(thScl, lim), cfg, eff, lim) ==
            Max(thermal, Min(lim.minLat + Mul(rng, ONE - sig), lim.maxLat - Mul(Min(l / 100, ONE), rng)))
  {
    hide Sigmoid, Soft, SigArg, SigFits, Q16Div, Q16Mul, Mul, ThermLat;
    SigFitsInRange(p, cfg.sigmoidK, eff.sigMid);
    SigmoidIsSoft(p, cfg.sigmoidK, eff.sigMid);
    var sig := Sigmoid(p, cfg.sigmoidK, eff.sigMid);
    ThermLatIs(thScl, lim);
    LatHeat(p, l, thScl, thScl, cfg, eff, lim);
    ShareIs(lim.minLat, lim.maxLat, ONE - sig);
    Share(lim.minLat, lim.maxLat, ONE - sig, ONE - sig);
    RatioIs(l, 100);
    ShareOffIs(lim.minLat, lim.maxLat, Min(l / 100, ONE));
  }

  lemma GranIs(lat: q16, cfg: Cfg, lim: Lim)
    requires lim.minLat <= lat <= lim.maxLat && InBand(cfg) && Ordered(lim)
    ensures Gran(lat, cfg, lim) ==
            Min(lat, Max(lim.minGran, Min(lim.maxGran, Mul(lat, cfg.latGranRat))))
  {
    MulUnit(lat, cfg.latGranRat);
  }

  /** 1 / (1 + x + x^2 / 2) of the way from the minimum to the maximum, where x is pressure times decay. */
  lemma WakeupIs(p: q16, eff: Eff, lim: Lim)
    requires 0 <= p <= P_MAX && EffInRange(eff) && Ordered(lim)
    ensures var x := Mul(eff.decay, p);
            var dec := ONE * TWO16 / (ONE + x + Mul(x, x) / 2);
            0 <= x < SAT && Wakeup(p, eff, lim) == lim.minWake + Mul(lim.maxWake - lim.minWake, dec)
  {
    MulExact(p, P_MAX, eff.decay, 1245);
    MulComm(p, eff.decay);
    assert p * eff.decay == eff.decay * p;
    var x: q16 := Mul(eff.decay, p);
    DecayDen(x);
    DecayRange(p, eff.decay);
    DivUnit(ONE, ONE + x + Mul(x, x) / 2);
    ShareIs(lim.minWake, lim.maxWake, Decay(p, eff.decay));
    Share(lim.minWake, lim.maxWake, Decay(p, eff.decay), Decay(p, eff.decay));
  }

  /** The square of the free share, reduced by up to half as the velocity nears 25. */
  lemma MigrationIs(vel: q16, p: q16, lim: Lim)
    requires 0 <= p && Ordered(lim)
    ensures var f := ONE - Min(p / 100, ONE);
            var cost := lim.minMig + Mul(lim.maxMig - lim.minMig, Mul(f, f));
            var slow := ONE - Min(Abs(vel) / 25, ONE) / 2;
            Migration(vel, p, lim) == Max(lim.minMig, Min(lim.maxMig, Mul(cost, slow)))
  {
    hide Q16Div, Q16Mul;
    RatioIs(p, 100);
    RatioIs(AbsQ16(vel), 25);
    var f: q16 := ONE - Min(p / 100, ONE);
    MulUnit(f, f);
    ShareIs(lim.minMig, lim.maxMig, Q16Mul(f, f));
    Share(lim.minMig, lim.maxMig, Q16Mul(f, f), Q16Mul(f, f));
    var v: q16 := Min(Abs(vel) / 25, ONE);
    MulUnit(v, HALF);
    DivTwice(v * HALF, HALF, 2);
    DivUnique(v * HALF, HALF, v, 0);
    var cost: q16 := lim.minMig + Mul(lim.maxMig - lim.minMig, Mul(f, f));
    MulUnit(cost, ONE - Q16Mul(v, HALF));
  }

  /** 10 plus 30 times the squared share of 100. */
  lemma WaltIs(p: q16, lim: Lim)
    requires 0 <= p && Ordered(lim)
    ensures var r := Min(p / 100, ONE);
            Walt(p, lim) == 10 * ONE + 30 * Mul(r, r)
  {
    hide Q16Div, Q16Mul;
    RatioIs(p, 100);
    var r: q16 := Min(p / 100, ONE);
    MulUnit(r, r);
    var c := r * r / TWO16;
    ShareIs(lim.minWalt, lim.maxWalt, Q16Mul(r, r));
    assert (30 * ONE) * c == (30 * c) * TWO16;
    DivUnique((30 * ONE) * c, TWO16, 30 * c, 0);
  }

  /** The sigmoid share of the cap, scaled by the thermal factor. */
  lemma UclampIs(p: q16, thScl: q16, cfg: Cfg, eff: Eff, lim: Lim)
    requires 0 <= p <= P_MAX && 0 <= thScl <= ONE && EffInRange(eff) && InBand(cfg) && Ordered(lim)
    ensures var sig := (Soft(SigArg(p, cfg.uclampK, eff.uclMid)) + ONE) / 2;
            Uclamp(p, thScl, cfg, eff, lim) == Mul(Mul(lim.maxUcl, sig), thScl)
  {
    hide Sigmoid, Soft, SigArg, SigFits, Q16Mul;
    SigFitsInRange(p, cfg.uclampK, eff.uclMid);
    SigmoidIsSoft(p, cfg.uclampK, eff.uclMid);
    var sig := Sigmoid(p, cfg.uclampK, eff.uclMid);
    ShareIs(lim.minUcl, lim.maxUcl, sig);
    Share(lim.minUcl, lim.maxUcl, sig, sig);
    var u: q16 := Mul(lim.maxUcl, sig);
    MulUnit(u, thScl);
  }
}
