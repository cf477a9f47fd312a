/** The load-demand model of src/core/cpu.c: effectiveness parameters, the battery integrator and one
    step of the damped second-order system. */
module LoadDemand {
  import opened Machine
  import opened Isqrt
  import opened FixedPoint
  import opened WideMul
  import opened Kalman

  datatype Eff = Eff(
    respGain: q16, surgeGain: q16, trendAmp: q16, lookahead: q16, decay: q16,
    sigMid: q16, uclMid: q16, stabRat: q16, gainAlpha: q16, nisThresh: q16)

  datatype Input = Input(
    tgtPsi: q16, vel: q16, dtSafe: q16, thermScale: q16, trendFact: q16,
    integ: q16, integDt: q16, structBreak: bool)

  /** The part of the load state a demand step reads and writes. */
  datatype Load = Load(psi: int, rate: int)

  const TH_MIN: q16 := 6553             // 0.1
  const DT_SAFE: q16 := 6553            // 0.1 s
  const PSI_MAX: q16 := 500 * 0x1_0000
  const FORCE_MAX: q16 := 32000 * 0x1_0000
  const TINY: q16 := 655                // 0.01

  // ----- exact arithmetic: the model on unbounded integers, in units of 2^-16 and 2^-32

  function Mul(a: int, b: int): int { a * b / TWO16 }

  function Div(a: int, b: int): int
    requires b != 0
  {
    TruncDiv(a * TWO16, b)
  }

  function Sqrt(x: int): int { if x <= 0 then 0 else FloorSqrt(x * TWO16) }

  /** Spring constant: response gain, trend multiplier and the square of the thermal scale. */
  function SpringK(eff: Eff, inp: Input, th: int): int {
    Mul(Mul(eff.respGain, ONE + Mul(eff.gainAlpha, inp.trendFact)), Mul(th, th))
  }

  /** The target seen one lookahead ahead. */
  function Predicted(eff: Eff, inp: Input): int { inp.tgtPsi + Mul(inp.vel, eff.lookahead) }

  /** Integral term, capped at 1.5 times a reference derived from the spring. */
  function IntegralTerm(integ: int, psi: int, k: int): int {
    var l := integ * psi;
    var cap := k * (100 * ONE) * 98304 / TWO16;
    if l > cap then cap else l
  }

  function BaseDamping(k: int, stabRat: int): int { Mul(Mul(2 * ONE, Sqrt(k)), stabRat) }

  /** Damping asked for by the battery term: 0.5 |i_dt| psi^2 / (vel^2 + 0.001), uncapped. */
  function BatteryDamping(vel: int, integDt: int, psi: int): int {
    Mul(HALF, Abs(integDt)) * (psi * psi) / TWO16 / ((vel * vel + 65 * TWO16) / TWO16)
  }

  function Damping(k: int, stabRat: int, vel: int, integDt: int, psi: int, th: int): int
    requires Sqrt(th) != 0
  {
    var base := BaseDamping(k, stabRat);
    var stab := Mul(Clamp(BatteryDamping(vel, integDt, psi), 0, Mul(base, 4 * ONE)), 203161);
    var thermal := Div(base, Sqrt(th));
    if thermal > stab then thermal else stab
  }

  function Force(k: int, disp: int, l: int): int {
    Clamp(k * disp - l, -FORCE_MAX * TWO16, FORCE_MAX * TWO16) / TWO16
  }

  /** The rate after the surge nudge. */
  function Surged(rate: int, vel: q16, surgeThresh: q16, surgeGain: q16): int {
    if AbsQ16(vel) > surgeThresh then rate + Mul(vel, surgeGain) else rate
  }

  predicate Idle(st: Load, inp: Input) {
    inp.tgtPsi < ONE && Abs(inp.vel) < TINY && st.psi < ONE && Abs(st.rate) < TINY
  }

  /** Semi-implicit Euler step: the damping divides the new rate. */
  function Integrate(psi: int, rate: int, force: int, damping: int, dt: int): Load
    requires ONE + Mul(damping, dt) != 0
  {
    var rate' := Div(rate + Mul(force, dt), ONE + Mul(damping, dt));
    var psi' := psi + Mul(rate', dt);
    if psi' < 0 then Load(0, 0) else if psi' > PSI_MAX then Load(PSI_MAX, 0) else Load(psi', rate')
  }

  function ThermScale(inp: Input): int { Clamp(inp.thermScale, TH_MIN, ONE) }

  /** One step of the model in exact arithmetic. */
  function Demand(st: Load, inp: Input, eff: Eff, surgeThresh: q16): Load
    requires InRange(st, inp) && EffInRange(eff)
  {
    if Idle(st, inp) then Load(0, 0)
    else
      var st0 := if inp.structBreak then Load(inp.tgtPsi, 0) else st;
      var rate := Surged(st0.rate, inp.vel, surgeThresh, eff.surgeGain);
      var th := ThermScale(inp);
      var k := SpringK(eff, inp, th);
      ThermRoot(th);
      var c := Damping(k, eff.stabRat, inp.vel, inp.integDt, st0.psi, th);
      var f := Force(k, Predicted(eff, inp) - st0.psi, IntegralTerm(inp.integ, st0.psi, k));
      DampingBound(eff, inp, st0.psi, th);
      IntegrateDen(c, inp.dtSafe);
      Integrate(st0.psi, rate, f, c, inp.dtSafe)
  }

  // ----- ranges

  predicate EffInRange(e: Eff) {
    && 0 <= e.respGain <= 31 * ONE && 0 <= e.surgeGain <= 6225 && 0 <= e.lookahead <= 11141
    && 0 <= e.gainAlpha <= ONE && 98304 <= e.stabRat <= 229376
    && 0 <= e.trendAmp <= 7536 && 0 <= e.decay <= 1245
    && 445644 <= e.sigMid <= 445644 + 50 * ONE && e.uclMid == e.sigMid + 176947
  }

  predicate InRange(st: Load, inp: Input) {
    && 0 <= st.psi <= PSI_MAX && Abs(st.rate) <= 16000 * ONE
    && 0 <= inp.tgtPsi <= PSI_MAX && Abs(inp.vel) <= 5000 * ONE
    && 1 <= inp.dtSafe <= DT_SAFE && 0 <= inp.trendFact <= ONE
    && 0 <= inp.integ <= 97 * ONE && Abs(inp.integDt) <= 20 * ONE
  }

  lemma MulBound(a: int, hiA: int, b: int, hiB: int)
    requires 0 <= a <= hiA && 0 <= b <= hiB
    ensures 0 <= Mul(a, b) <= hiA * hiB / TWO16
  {
    MulBounds(a, hiA, b, hiB);
    DivMono(0, a * b, TWO16);
    DivMono(a * b, hiA * hiB, TWO16);
  }

  lemma MulAbsBound(a: int, hiA: nat, b: int, hiB: nat)
    requires Abs(a) <= hiA && Abs(b) <= hiB
    ensures Abs(Mul(a, b)) <= hiA * hiB / TWO16 + 1
  {
    AbsMulBounds(a, hiA, b, hiB);
    DivMono(a * b, hiA * hiB, TWO16);
    DivMono(-1 * (hiA * hiB), a * b, TWO16);
  }

  lemma SpringBound(eff: Eff, inp: Input, th: int)
    requires EffInRange(eff) && 0 <= inp.trendFact <= ONE && 0 <= th <= ONE
    ensures 0 <= Mul(eff.gainAlpha, inp.trendFact) <= ONE
    ensures 0 <= Mul(eff.respGain, ONE + Mul(eff.gainAlpha, inp.trendFact)) <= 62 * ONE
    ensures 0 <= Mul(th, th) <= ONE
    ensures 0 <= SpringK(eff, inp, th) <= 62 * ONE
  {
    MulBound(eff.gainAlpha, ONE, inp.trendFact, ONE);
    var m := ONE + Mul(eff.gainAlpha, inp.trendFact);
    MulBound(eff.respGain, 31 * ONE, m, 2 * ONE);
    MulBound(th, ONE, th, ONE);
    MulBound(Mul(eff.respGain, m), 62 * ONE, Mul(th, th), ONE);
  }

  lemma PredictedBound(eff: Eff, inp: Input)
    requires EffInRange(eff) && Abs(inp.vel) <= 5000 * ONE && 0 <= inp.tgtPsi <= PSI_MAX
    ensures Abs(Mul(inp.vel, eff.lookahead)) <= 850 * ONE
    ensures -850 * ONE <= Predicted(eff, inp) <= 1350 * ONE
  {
    MulAbsBound(inp.vel, 5000 * ONE, eff.lookahead, 11141);
  }

  /** The thermal scale is at least 0.1, so its root is at least 0.316 and never a zero divisor. */
  lemma ThermRoot(th: int)
    requires TH_MIN <= th <= ONE
    ensures 20723 <= Sqrt(th) <= ONE
  {
    FloorSqrtAtLeast(th * TWO16, 20723);
    FloorSqrtBelow(th * TWO16, ONE + 1);
  }

  lemma RootBound(k: int)
    requires 0 <= k <= 62 * ONE
    ensures 0 <= Sqrt(k) <= 8 * ONE
  {
    if k > 0 {
      FloorSqrtBelow(k * TWO16, 8 * ONE);
    }
  }

  lemma BaseBound(k: int, stabRat: int)
    requires 0 <= k <= 62 * ONE && 0 <= stabRat <= 229376
    ensures 0 <= Sqrt(k) <= 8 * ONE
    ensures 0 <= Mul(2 * ONE, Sqrt(k)) <= 16 * ONE
    ensures 0 <= BaseDamping(k, stabRat) <= 56 * ONE
  {
    RootBound(k);
    hide Mul, Sqrt;
    MulBound(2 * ONE, 2 * ONE, Sqrt(k), 8 * ONE);
    MulBound(Mul(2 * ONE, Sqrt(k)), 16 * ONE, stabRat, 229376);
  }

  /** The divisor of the battery term is at least 0.001, whatever the velocity. */
  lemma BatteryBound(vel: int, integDt: int, psi: int)
    requires Abs(vel) <= 5000 * ONE && Abs(integDt) <= 20 * ONE && 0 <= psi <= PSI_MAX
    ensures 0 <= vel * vel <= 25_000_000 * TWO32 && 0 <= psi * psi <= 250_000 * TWO32
    ensures 0 <= Mul(HALF, Abs(integDt)) <= 10 * ONE
    ensures 0 <= Mul(HALF, Abs(integDt)) * (psi * psi) / TWO16 <= 2_500_000 * TWO32
    ensures 65 <= (vel * vel + 65 * TWO16) / TWO16
    ensures 0 <= BatteryDamping(vel, integDt, psi) <= 2_500_000 * TWO32
  {
    AbsMulBounds(vel, 5000 * ONE, vel, 5000 * ONE);
    assert vel * vel >= 0;
    MulBounds(psi, PSI_MAX, psi, PSI_MAX);
    MulBound(HALF, HALF, Abs(integDt), 20 * ONE);
    var n1 := Mul(HALF, Abs(integDt));
    MulBound(n1, 10 * ONE, psi * psi, 250_000 * TWO32);
    DivMono(65 * TWO16, vel * vel + 65 * TWO16, TWO16);
    DivAntitone(Mul(n1, psi * psi), 1, (vel * vel + 65 * TWO16) / TWO16);
  }

  /** c_fin never exceeds 695, for any stable or unstable battery and any velocity. */
  lemma DampingBound(eff: Eff, inp: Input, psi: int, th: int)
    requires EffInRange(eff) && 0 <= psi <= PSI_MAX && TH_MIN <= th <= ONE
    requires 0 <= inp.trendFact <= ONE && Abs(inp.vel) <= 5000 * ONE && Abs(inp.integDt) <= 20 * ONE
    requires Sqrt(th) != 0
    ensures var k := SpringK(eff, inp, th);
            0 <= Damping(k, eff.stabRat, inp.vel, inp.integDt, psi, th) <= 695 * ONE
  {
    SpringBound(eff, inp, th);
    DampingRange(SpringK(eff, inp, th), eff.stabRat, inp.vel, inp.integDt, psi, th);
  }

  lemma DampingRange(k: int, stabRat: int, vel: int, integDt: int, psi: int, th: int)
    requires 0 <= k <= 62 * ONE && 0 <= stabRat <= 229376
    requires 0 <= psi <= PSI_MAX && TH_MIN <= th <= ONE
    requires Abs(vel) <= 5000 * ONE && Abs(integDt) <= 20 * ONE && Sqrt(th) != 0
    ensures
      var base := BaseDamping(k, stabRat);
      && 0 <= Mul(base, 4 * ONE) <= 224 * ONE
      && 0 <= Mul(Clamp(BatteryDamping(vel, integDt, psi), 0, Mul(base, 4 * ONE)), 203161) <= 695 * ONE
      && 0 <= Div(base, Sqrt(th)) <= 178 * ONE
    ensures 0 <= Damping(k, stabRat, vel, integDt, psi, th) <= 695 * ONE
  {
    hide BatteryDamping, BaseDamping, Sqrt, Mul;
    var base := BaseDamping(k, stabRat);
    BaseBound(k, stabRat);
    MulBound(base, 56 * ONE, 4 * ONE, 4 * ONE);
    var cap := Clamp(BatteryDamping(vel, integDt, psi), 0, Mul(base, 4 * ONE));
    MulBound(cap, 224 * ONE, 203161, 203161);
    ThermRoot(th);
    DivBound(base, 56 * ONE, Sqrt(th), 20723);
  }

  lemma DivBound(a: int, hiA: int, b: int, loB: int)
    requires 0 <= a <= hiA && 0 < loB <= b
    ensures 0 <= Div(a, b) <= hiA * TWO16 / loB
  {
    DivAntitone(a * TWO16, loB, b);
    DivMono(a * TWO16, hiA * TWO16, loB);
  }

  lemma IntegrateDen(c: int, dt: int)
    requires 0 <= c <= 695 * ONE && 0 <= dt <= DT_SAFE
    ensures 0 <= Mul(c, dt) <= 70 * ONE
    ensures ONE <= ONE + Mul(c, dt) <= 71 * ONE
  {
    MulBound(c, 695 * ONE, dt, DT_SAFE);
  }

  /** Dividing by at least 1 does not increase the magnitude. */
  lemma DivShrinks(a: int, den: int)
    requires ONE <= den
    ensures Abs(Div(a, den)) <= Abs(a)
  {
    DivAntitone(Abs(a) * TWO16, ONE, den);
    DivUnique(Abs(a) * TWO16, TWO16, Abs(a), 0);
    assert Abs(a * TWO16) == Abs(a) * TWO16;
  }

  lemma SurgedBound(rate: int, vel: q16, surgeThresh: q16, surgeGain: q16)
    requires Abs(vel) <= 5000 * ONE && 0 <= surgeGain <= 6225
    ensures 1000 * Abs(Surged(rate, vel, surgeThresh, surgeGain)) <= 1000 * Abs(rate) + 95 * Abs(vel) + 1000
    ensures Abs(Mul(vel, surgeGain)) <= 475 * ONE
  {
    MulAbsBound(vel, Abs(vel), surgeGain, 6225);
    assert 1000 * (Abs(vel) * 6225 / TWO16) <= 95 * Abs(vel);
  }

  lemma ForceBound(k: int, disp: int, l: int, dt: int)
    requires 0 <= dt <= DT_SAFE
    ensures Abs(Force(k, disp, l)) <= FORCE_MAX
    ensures Abs(Mul(Force(k, disp, l), dt)) <= 3200 * ONE - 2
  {
    hide Mul;
    MulAbsBound(Force(k, disp, l), FORCE_MAX, dt, DT_SAFE);
  }

  /** The state after a step: psi stays in [0, 500], and one step adds at most 0.095 |vel| + 3200 to the rate. */
  lemma DemandBounds(st: Load, inp: Input, eff: Eff, surgeThresh: q16)
    requires InRange(st, inp) && EffInRange(eff)
    ensures var st' := Demand(st, inp, eff, surgeThresh);
            && 0 <= st'.psi <= PSI_MAX
            && 1000 * Abs(st'.rate) <= 1000 * Abs(st.rate) + 95 * Abs(inp.vel) + 1000 * 3200 * ONE
  {
    hide Surged, SpringK, Damping, Force, Predicted, IntegralTerm, Mul, Div;
    if !Idle(st, inp) {
      var st0 := if inp.structBreak then Load(inp.tgtPsi, 0) else st;
      var rate := Surged(st0.rate, inp.vel, surgeThresh, eff.surgeGain);
      var th := ThermScale(inp);
      var k := SpringK(eff, inp, th);
      ThermRoot(th);
      var c := Damping(k, eff.stabRat, inp.vel, inp.integDt, st0.psi, th);
      var disp, l := Predicted(eff, inp) - st0.psi, IntegralTerm(inp.integ, st0.psi, k);
      var f := Force(k, disp, l);
      DampingBound(eff, inp, st0.psi, th);
      IntegrateDen(c, inp.dtSafe);
      SurgedBound(st0.rate, inp.vel, surgeThresh, eff.surgeGain);
      ForceBound(k, disp, l, inp.dtSafe);
      DivShrinks(rate + Mul(f, inp.dtSafe), ONE + Mul(c, inp.dtSafe));
    }
  }

  // ----- the machine: 32- and 64-bit arithmetic that wraps

  function CalcLTerm(integ: q16, psi: q16, kFin: q16): q32 {
    var lTerm := Q32Mul(Up(integ), Up(psi));
    var mRsp := Q32Mul(Up(kFin), Up(100 * ONE));
    var limL := Q32Mul(mRsp, Up(98304));
    if lTerm > limL then limL else lTerm
  }

  /** The squared velocity plus 0.001, in Q32. */
  function RateSquare(vel: q16): q32 { Add64(Q32Mul(Up(vel), Up(vel)), Up(65)) }

  /** The one divisor of calc_c_final that the code does not guard: for every velocity it is at least 65. */
  lemma DivisorPositive(vel: q16)
    ensures RateSquare(vel) == vel * vel + 65 * TWO16 && RateSquare(vel) / TWO16 >= 65
  {
    UpSquare(vel);
    DivMono(65 * TWO16, vel * vel + 65 * TWO16, TWO16);
  }

  function CalcCFinal(kFin: q16, vel: q16, iDt: q16, psi: q16, th: q16, stabRat: q16): q16 {
    var cCrit := Q16Mul(2 * ONE, Q16Sqrt(kFin));
    var cBase := Q16Mul(cCrit, stabRat);
    var rSq := RateSquare(vel);
    DivisorPositive(vel);
    var dN1 := Up(Q16Mul(HALF, AbsQ16(iDt)));
    var dN2 := Q32Mul(Up(psi), Up(psi));
    var dNum := Q32Mul(dN1, dN2);
    var cReq := W64(TruncDiv(dNum, rSq / TWO16));
    var cMax := Q16Mul(cBase, 4 * ONE);
    var cClp := if cReq >= cMax then cMax else if cReq <= 0 then 0 else W32(cReq);
    var cStb := Q16Mul(cClp, 203161);
    var thSq := Q16Sqrt(th);
    var cTh := if thSq > 0 then Q16Div(cBase, thSq) else cBase;
    if cTh > cStb then cTh else cStb
  }

  /** pg_cpu_upd_eff */
  function UpdEff(batLvl: q16, thScl: q16, avg300: q16): Eff {
    var bLvl := Clamp(batLvl, 0, 100 * ONE);
    var health := Q16Mul(Q16Div(bLvl, 100 * ONE), thScl);
    var sigMid := Add32(445644, Q16Mul(HALF, avg300));
    var noise := Clamp(Q16Mul(avg300, 6553), 0, ONE);
    Eff(Q16Mul(31 * ONE, health), Q16Mul(6225, health), Q16Mul(7536, health),
        Q16Mul(11141, thScl), Q16Mul(1245, thScl), sigMid, Add32(sigMid, 176947),
        Lerp(98304, 229376, noise), Lerp(64880, 55705, noise), Lerp(3 * ONE, 12 * ONE, noise))
  }

  /** Battery depletion, 97 * ((100 - level) / 100)^3. */
  function Depletion(batLvl: q16): q16 {
    var depl := Q16Div(100 * ONE - Clamp(batLvl, 0, 100 * ONE), 100 * ONE);
    Q16Mul(97 * ONE, Q16Mul(Q16Mul(depl, depl), depl))
  }

  class LoadState {
    var psiVal: q16
    var rate: q16
    var prevInteg: q16
    /** psi at the last remapping. */
    var psiRef: q16
    var firstRun: bool
    var eff: Eff

    /** The zeroed state of init_context_defaults. */
    constructor ()
      ensures Value() == Load(0, 0) && prevInteg == 0 && firstRun
    {
      psiVal, rate, prevInteg, psiRef, firstRun := 0, 0, 0, 0, true;
      eff := Eff(0, 0, 0, 0, 0, 0, 0, 0, 0, 0);
    }

    ghost function Value(): Load
      reads this
    {
      Load(psiVal, rate)
    }

    /** pg_cpu_trans: the rate is high, or psi has moved away from where it was at the last remapping. */
    predicate Moving(transRate: q16, transDiff: q16)
      reads this
    {
      AbsQ16(rate) > transRate || AbsQ16(Sub32(psiVal, psiRef)) > transDiff
    }

    /** For loads in [0, 500] nothing in the test wraps. */
    lemma MovingIs(transRate: q16, transDiff: q16)
      requires 0 <= psiVal <= PSI_MAX && 0 <= psiRef <= PSI_MAX && rate > I32_MIN
      ensures Moving(transRate, transDiff) <==> Abs(rate) > transRate || Abs(psiVal - psiRef) > transDiff
    {
    }

    /** pg_cpu_upd_intg: the depletion and its change per 5 s; no change on the first run, nor when no
        time has passed. */
    method UpdIntg(batLvl: q16, dtReal: q16) returns (i: q16, iDt: q16)
      requires 0 <= prevInteg <= 97 * ONE
      modifies `prevInteg, `firstRun
      ensures i == prevInteg == Depletion(batLvl) && !firstRun
      ensures iDt == if old(firstRun) || dtReal <= 0 then 0 else TruncDiv((i - old(prevInteg)) * TWO16, 5 * ONE)
      ensures 0 <= i <= 97 * ONE && Abs(iDt) <= 20 * ONE
    {
      hide Depletion, Q16Div, Sub32, TruncDiv;
      DepletionRange(batLvl);
      var cIntg := Depletion(batLvl);
      if firstRun {
        prevInteg := cIntg;
        firstRun := false;
        return cIntg, 0;
      }
      var cDt := 0;
      if dtReal > 0 {
        ChangeExact(cIntg, prevInteg);
        var diff := Sub32(cIntg, prevInteg);
        cDt := Q16Div(diff, 5 * ONE);
      }
      prevInteg := cIntg;
      return cIntg, cDt;
    }

    /** pg_cpu_calc_load_demand. Whatever the state and the inputs are, psi ends in [0, 500]; for inputs in
        range the machine computes the exact model, so no intermediate result leaves its 32 or 64 bits. */
    method CalcLoadDemand(inp: Input, surgeThresh: q16) returns (lDem: q16)
      modifies `psiVal, `rate
      ensures lDem == psiVal && 0 <= psiVal <= PSI_MAX
      ensures Value() == MachineStep(old(psiVal), old(rate), inp, eff, surgeThresh)
      ensures InRange(old(Value()), inp) && EffInRange(eff) ==>
                Value() == Demand(old(Value()), inp, eff, surgeThresh)
    {
      hide Q16Mul, Q16Div, Q32Mul, Add32, Sub32, Sub64, Up, Down, CalcLTerm, CalcCFinal, AbsQ16, Demand;
      if InRange(Value(), inp) && EffInRange(eff) {
        MachineIsDemand(psiVal, rate, inp, eff, surgeThresh);
      }
      if inp.tgtPsi < ONE && AbsQ16(inp.vel) < TINY && psiVal < ONE && AbsQ16(rate) < TINY {
        psiVal, rate := 0, 0;
        return 0;
      }

      if inp.structBreak {
        psiVal, rate := inp.tgtPsi, 0;
      }

      var lRate := inp.vel;
      if AbsQ16(lRate) > surgeThresh {
        rate := Add32(rate, Q16Mul(lRate, eff.surgeGain));
      }

      var pred := Add32(inp.tgtPsi, Q16Mul(lRate, eff.lookahead));
      var th := Clamp(inp.thermScale, TH_MIN, ONE);
      var trend := Q16Mul(eff.gainAlpha, inp.trendFact);
      var kDyn := Q16Mul(eff.respGain, Add32(ONE, trend));
      var kFin := Q16Mul(kDyn, Q16Mul(th, th));
      var disp := Sub32(pred, psiVal);
      var pTerm := Q32Mul(Up(kFin), Up(disp));

      var lTerm := CalcLTerm(inp.integ, psiVal, kFin);
      var cFin := CalcCFinal(kFin, lRate, inp.integDt, psiVal, th, eff.stabRat);

      var fQ32 := Sub64(pTerm, lTerm);
      if fQ32 > Up(FORCE_MAX) {
        fQ32 := Up(FORCE_MAX);
      } else if fQ32 < Up(-FORCE_MAX) {
        fQ32 := Up(-FORCE_MAX);
      }

      var dt := inp.dtSafe;
      var den := Add32(ONE, Q16Mul(cFin, dt));
      rate := Q16Div(Add32(rate, Q16Mul(Down(fQ32), dt)), den);

      psiVal := Add32(psiVal, Q16Mul(rate, dt));
      if psiVal < 0 {
        psiVal, rate := 0, 0;
      } else if psiVal > PSI_MAX {
        psiVal, rate := PSI_MAX, 0;
      }
      lDem := psiVal;
    }
  }

  /** One step in machine arithmetic, for any state and any inputs. */
  function MachineStep(psi: q16, rate: q16, inp: Input, eff: Eff, surgeThresh: q16): (st: Load)
    ensures 0 <= st.psi <= PSI_MAX && FitsI32(st.rate)
  {
    if inp.tgtPsi < ONE && AbsQ16(inp.vel) < TINY && psi < ONE && AbsQ16(rate) < TINY then Load(0, 0)
    else
      var p := if inp.structBreak then inp.tgtPsi else psi;
      var r0 := if inp.structBreak then 0 else rate;
      var r := if AbsQ16(inp.vel) > surgeThresh then Add32(r0, Q16Mul(inp.vel, eff.surgeGain)) else r0;
      var th := Clamp(inp.thermScale, TH_MIN, ONE);
      var k := MachineSpring(inp, eff, th);
      var c := CalcCFinal(k, inp.vel, inp.integDt, p, th, eff.stabRat);
      MachineAdvance(p, r, MachineForce(p, k, inp, eff), c, inp.dtSafe)
  }

  function MachineSpring(inp: Input, eff: Eff, th: q16): q16 {
    Q16Mul(Q16Mul(eff.respGain, Add32(ONE, Q16Mul(eff.gainAlpha, inp.trendFact))), Q16Mul(th, th))
  }

  function MachineForce(psi: q16, k: q16, inp: Input, eff: Eff): q16 {
    var disp := Sub32(Add32(inp.tgtPsi, Q16Mul(inp.vel, eff.lookahead)), psi);
    var f := Sub64(Q32Mul(Up(k), Up(disp)), CalcLTerm(inp.integ, psi, k));
    Down(if f > Up(FORCE_MAX) then Up(FORCE_MAX) else if f < Up(-FORCE_MAX) then Up(-FORCE_MAX) else f)
  }

  function MachineAdvance(psi: q16, rate: q16, force: q16, c: q16, dt: q16): Load {
    var r := Q16Div(Add32(rate, Q16Mul(force, dt)), Add32(ONE, Q16Mul(c, dt)));
    var p := Add32(psi, Q16Mul(r, dt));
    if p < 0 then Load(0, 0) else if p > PSI_MAX then Load(PSI_MAX, 0) else Load(p, r)
  }

  /** The machine computes the exact model for every state and input in range: no intermediate result
      leaves its 32 or 64 bits. */
  lemma MachineIsDemand(psi: q16, rate: q16, inp: Input, eff: Eff, surgeThresh: q16)
    requires InRange(Load(psi, rate), inp) && EffInRange(eff)
    ensures MachineStep(psi, rate, inp, eff, surgeThresh) == Demand(Load(psi, rate), inp, eff, surgeThresh)
  {
    hide Q16Mul, Q16Div, Q32Mul, Add32, Sub32, Sub64, Mul, Div, Up, Down;
    hide SpringK, Predicted, IntegralTerm, Damping, Force, Surged, CalcLTerm, CalcCFinal, Sqrt, Integrate;
    hide MachineAdvance, MachineForce, MachineSpring;
    var p := if inp.structBreak then inp.tgtPsi else psi;
    var r0 := if inp.structBreak then 0 else rate;
    SurgeExact(r0, inp.vel, surgeThresh, eff.surgeGain);
    var th := Clamp(inp.thermScale, TH_MIN, ONE);
    SpringIs(inp, eff, th);
    var k := MachineSpring(inp, eff, th);
    ForceIs(p, k, inp, eff);
    ThermRoot(th);
    CFinalExact(k, inp.vel, inp.integDt, p, th, eff.stabRat);
    ForceBound(k, Predicted(eff, inp) - p, IntegralTerm(inp.integ, p, k), inp.dtSafe);
    var c := CalcCFinal(k, inp.vel, inp.integDt, p, th, eff.stabRat);
    IntegrateDen(c, inp.dtSafe);
    AdvanceIs(p, Surged(r0, inp.vel, surgeThresh, eff.surgeGain), MachineForce(p, k, inp, eff), c, inp.dtSafe);
  }

  lemma SpringIs(inp: Input, eff: Eff, th: q16)
    requires EffInRange(eff) && 0 <= inp.trendFact <= ONE && 0 <= th <= ONE
    ensures MachineSpring(inp, eff, th) == SpringK(eff, inp, th) && 0 <= SpringK(eff, inp, th) <= 62 * ONE
  {
    SpringExact(eff, inp, th);
  }

  lemma ForceIs(psi: q16, k: q16, inp: Input, eff: Eff)
    requires EffInRange(eff) && Abs(inp.vel) <= 5000 * ONE && 0 <= inp.tgtPsi <= PSI_MAX && 0 <= psi <= PSI_MAX
    requires 0 <= k <= 62 * ONE && 0 <= inp.integ <= 97 * ONE
    ensures MachineForce(psi, k, inp, eff) == Force(k, Predicted(eff, inp) - psi, IntegralTerm(inp.integ, psi, k))
  {
    hide Q16Mul, Q32Mul, Add32, Sub32, Sub64, Up, Down, Predicted, IntegralTerm, Force, CalcLTerm;
    PredictedExact(eff, inp, psi);
    LTermExact(inp.integ, psi, k);
    ForceExact(k, Predicted(eff, inp) - psi, CalcLTerm(inp.integ, psi, k));
  }

  lemma AdvanceIs(psi: q16, rate: q16, force: q16, c: q16, dt: q16)
    requires 0 <= psi <= PSI_MAX && Abs(rate) <= 16475 * ONE && 0 <= c <= 695 * ONE && 1 <= dt <= DT_SAFE
    requires Abs(Mul(force, dt)) <= 3200 * ONE - 2 && ONE + Mul(c, dt) != 0
    ensures MachineAdvance(psi, rate, force, c, dt) == Integrate(psi, rate, force, c, dt)
  {
    hide Q16Mul, Q16Div, Add32, Mul, Div;
    StepExact(psi, rate, force, c, dt);
  }

  // ----- runs, with any rates and velocities

  /** What one demand step is given. */
  datatype Sample = Sample(inp: Input, eff: Eff, surgeThresh: q16)

  function Run(psi: q16, rate: q16, samples: seq<Sample>): (st: Load)
    ensures FitsI32(st.psi) && FitsI32(st.rate)
  {
    if samples == [] then Load(psi, rate)
    else
      var k := |samples| - 1;
      var st := Run(psi, rate, samples[..k]);
      MachineStep(st.psi, st.rate, samples[k].inp, samples[k].eff, samples[k].surgeThresh)
  }

  /** Over every run, from any state, with any inputs, rates and velocities: psi is in [0, 500] after each
      step, and before the first one it is what it was. */
  lemma RunInBand(psi: q16, rate: q16, samples: seq<Sample>, k: nat)
    requires k <= |samples|
    ensures k > 0 ==> 0 <= Run(psi, rate, samples[..k]).psi <= PSI_MAX
    ensures 0 <= psi <= PSI_MAX ==> 0 <= Run(psi, rate, samples[..k]).psi <= PSI_MAX
  {
    hide MachineStep;
    if k > 0 {
      assert samples[..k][..k - 1] == samples[..k - 1];
    }
  }

  // ----- the machine operations are exact in range

  lemma ChangeExact(a: q16, b: q16)
    requires 0 <= a <= 97 * ONE && 0 <= b <= 97 * ONE
    ensures Q16Div(Sub32(a, b), 5 * ONE) == TruncDiv((a - b) * TWO16, 5 * ONE)
    ensures Abs(TruncDiv((a - b) * TWO16, 5 * ONE)) <= 20 * ONE
  {
    DivMono(Abs(a - b) * TWO16, 97 * ONE * TWO16, 5 * ONE);
  }

  lemma SurgeExact(rate: q16, vel: q16, surgeThresh: q16, surgeGain: q16)
    requires Abs(rate) <= 16000 * ONE && Abs(vel) <= 5000 * ONE && 0 <= surgeGain <= 6225
    ensures (if AbsQ16(vel) > surgeThresh then Add32(rate, Q16Mul(vel, surgeGain)) else rate)
         == Surged(rate, vel, surgeThresh, surgeGain)
    ensures Abs(Surged(rate, vel, surgeThresh, surgeGain)) <= 16475 * ONE
  {
    SurgedBound(rate, vel, surgeThresh, surgeGain);
  }

  lemma PredictedExact(eff: Eff, inp: Input, psi: q16)
    requires EffInRange(eff) && Abs(inp.vel) <= 5000 * ONE && 0 <= inp.tgtPsi <= PSI_MAX && 0 <= psi <= PSI_MAX
    ensures var pred := Add32(inp.tgtPsi, Q16Mul(inp.vel, eff.lookahead));
            pred == Predicted(eff, inp) && Sub32(pred, psi) == pred - psi && -1350 * ONE <= pred - psi <= 1350 * ONE
  {
    PredictedBound(eff, inp);
  }

  lemma SpringExact(eff: Eff, inp: Input, th: q16)
    requires EffInRange(eff) && 0 <= inp.trendFact <= ONE && 0 <= th <= ONE
    ensures Q16Mul(Q16Mul(eff.respGain, Add32(ONE, Q16Mul(eff.gainAlpha, inp.trendFact))), Q16Mul(th, th))
         == SpringK(eff, inp, th)
    ensures 0 <= SpringK(eff, inp, th) <= 62 * ONE
  {
    SpringBound(eff, inp, th);
  }

  /** The Euler step: neither the rate nor the position overflows. */
  lemma StepExact(psi: q16, rate: q16, f: q16, c: q16, dt: q16)
    requires 0 <= psi <= PSI_MAX && Abs(rate) <= 16475 * ONE && 0 <= c <= 695 * ONE && 1 <= dt <= DT_SAFE
    requires Abs(Mul(f, dt)) <= 3200 * ONE - 2
    ensures var den := Add32(ONE, Q16Mul(c, dt));
            var rate' := Q16Div(Add32(rate, Q16Mul(f, dt)), den);
            && den == ONE + Mul(c, dt) >= ONE
            && rate' == Div(rate + Mul(f, dt), ONE + Mul(c, dt))
            && Add32(psi, Q16Mul(rate', dt)) == psi + Mul(rate', dt)
  {
    IntegrateDen(c, dt);
    var sum: q16, den: q16 := rate + Mul(f, dt), ONE + Mul(c, dt);
    DivShrinks(sum, den);
    var rate' := Div(sum, den);
    assert Abs(rate') <= 19675 * ONE;
    MulAbsBound(rate', 19675 * ONE, dt, DT_SAFE);
    NarrowMul(c, dt);
    NarrowMul(f, dt);
    NarrowMul(rate', dt);
  }

  lemma NarrowMul(a: q16, b: q16)
    requires FitsI32(Mul(a, b))
    ensures Q16Mul(a, b) == Mul(a, b)
  {
  }

  lemma LTermExact(integ: q16, psi: q16, k: q16)
    requires 0 <= integ <= 97 * ONE && 0 <= psi <= PSI_MAX && 0 <= k <= 62 * ONE
    ensures CalcLTerm(integ, psi, k) == IntegralTerm(integ, psi, k)
    ensures 0 <= IntegralTerm(integ, psi, k) <= 48_500 * TWO32
  {
    UpProduct(integ, psi);
    UpProduct(k, 100 * ONE);
    MulBounds(integ, 97 * ONE, psi, PSI_MAX);
    MulBounds(k, 62 * ONE, 100 * ONE, 100 * ONE);
    UpMul(98304, k * (100 * ONE));
    assert k * (100 * ONE) * 98304 == 98304 * (k * (100 * ONE));
  }

  /** The product of two Q16 values as Q32 values is exact. */
  lemma UpProduct(a: q16, b: q16)
    ensures Up(a) * Up(b) / TWO32 == a * b
    ensures Q32Mul(Up(a), Up(b)) == a * b
  {
    UpMul(a, Up(b));
    assert a * Up(b) == (a * b) * TWO16;
    DivUnique((a * b) * TWO16, TWO16, a * b, 0);
    AbsMulBounds(a, TWO31, b, TWO31);
  }

  lemma SqrtExact(x: q16)
    ensures Q16Sqrt(x) == Sqrt(x)
    ensures 0 <= Sqrt(x) < 0x100_0000
  {
    if x > 0 {
      FloorSqrtBelow(x * TWO16, 0x100_0000);
    }
  }

  lemma BatteryExact(vel: q16, iDt: q16, psi: q16)
    requires Abs(vel) <= 5000 * ONE && Abs(iDt) <= 20 * ONE && 0 <= psi <= PSI_MAX
    ensures var dNum := Q32Mul(Up(Q16Mul(HALF, AbsQ16(iDt))), Q32Mul(Up(psi), Up(psi)));
            && RateSquare(vel) / TWO16 >= 65
            && W64(TruncDiv(dNum, RateSquare(vel) / TWO16)) == BatteryDamping(vel, iDt, psi)
  {
    BatteryBound(vel, iDt, psi);
    DivisorPositive(vel);
    UpSquare(psi);
    var n1 := Q16Mul(HALF, AbsQ16(iDt));
    assert n1 == Mul(HALF, Abs(iDt));
    UpMul(n1, psi * psi);
  }

  lemma CFinalExact(k: q16, vel: q16, iDt: q16, psi: q16, th: q16, stabRat: q16)
    requires 0 <= k <= 62 * ONE && 0 <= stabRat <= 229376
    requires 0 <= psi <= PSI_MAX && TH_MIN <= th <= ONE
    requires Abs(vel) <= 5000 * ONE && Abs(iDt) <= 20 * ONE && Sqrt(th) != 0
    ensures CalcCFinal(k, vel, iDt, psi, th, stabRat) == Damping(k, stabRat, vel, iDt, psi, th)
    ensures 0 <= Damping(k, stabRat, vel, iDt, psi, th) <= 695 * ONE
  {
    hide Q32Mul, BatteryDamping, Sqrt, Q16Sqrt, W64;
    BaseBound(k, stabRat);
    SqrtExact(k);
    SqrtExact(th);
    BatteryExact(vel, iDt, psi);
    DampingRange(k, stabRat, vel, iDt, psi, th);
    ThermRoot(th);
  }

  lemma ForceExact(k: q16, disp: q16, l: q32)
    requires 0 <= k <= 62 * ONE && -1350 * ONE <= disp <= 1350 * ONE && 0 <= l <= 48_500 * TWO32
    ensures var f := Sub64(Q32Mul(Up(k), Up(disp)), l);
            f == k * disp - l
            && Down(if f > Up(FORCE_MAX) then Up(FORCE_MAX) else if f < Up(-FORCE_MAX) then Up(-FORCE_MAX) else f)
               == Force(k, disp, l)
  {
    UpProduct(k, disp);
    AbsMulBounds(k, 62 * ONE, disp, 1350 * ONE);
  }

  // ----- the parameters are in the ranges the model needs

  lemma DepletionRange(batLvl: q16)
    ensures 0 <= Depletion(batLvl) <= 97 * ONE
  {
    var d := 100 * ONE - Clamp(batLvl, 0, 100 * ONE);
    DivUnit(d, 100 * ONE);
    var depl := Q16Div(d, 100 * ONE);
    MulUnit(depl, depl);
    MulUnit(Q16Mul(depl, depl), depl);
    MulUnit(97 * ONE, Q16Mul(Q16Mul(depl, depl), depl));
  }

  /** A fuller battery never gives a larger depletion term. */
  lemma DepletionAntitone(b1: q16, b2: q16)
    requires b1 <= b2
    ensures Depletion(b2) <= Depletion(b1)
  {
    hide Q16Div, Q16Mul;
    var d1: q16, d2: q16 := 100 * ONE - Clamp(b1, 0, 100 * ONE), 100 * ONE - Clamp(b2, 0, 100 * ONE);
    DivUnit(d1, 100 * ONE);
    DivUnit(d2, 100 * ONE);
    DivMono(d2 * TWO16, d1 * TWO16, 100 * ONE);
    var p1, p2 := Q16Div(d1, 100 * ONE), Q16Div(d2, 100 * ONE);
    UnitMulMono(p2, p1, p2, p1);
    var s1, s2 := Q16Mul(p1, p1), Q16Mul(p2, p2);
    UnitMulMono(s2, s1, p2, p1);
    UnitMulMono(97 * ONE, 97 * ONE, Q16Mul(s2, p2), Q16Mul(s1, p1));
  }

  /** Products of ordered non-negative factors are ordered, when the second factors lie in [0, 1]. */
  lemma UnitMulMono(a: q16, a': q16, f: q16, f': q16)
    requires 0 <= a <= a' && 0 <= f <= f' <= ONE
    ensures 0 <= Q16Mul(a, f) <= Q16Mul(a', f') <= a'
  {
    MulUnit(a, f);
    MulUnit(a', f');
    MulBounds(a, a', f, f');
    DivMono(a * f, a' * f', TWO16);
  }

  lemma NoiseUnit(avg300: q16)
    requires 0 <= avg300 <= 100 * ONE
    ensures 0 <= Clamp(Q16Mul(avg300, 6553), 0, ONE) <= ONE
    ensures Q16Mul(HALF, avg300) == avg300 / 2
  {
    MulExact(avg300, 100 * ONE, 6553, 6553);
    MulUnit(avg300, HALF);
    MulComm(avg300, HALF);
  }

  /** For any battery level, any thermal scale in [0.1, 1] and any baseline in [0, 100]. */
  lemma UpdEffInRange(batLvl: q16, thScl: q16, avg300: q16)
    requires TH_MIN <= thScl <= ONE && 0 <= avg300 <= 100 * ONE
    ensures EffInRange(UpdEff(batLvl, thScl, avg300))
  {
    hide Q16Div, Q16Mul, Lerp, Add32;
    var b := Clamp(batLvl, 0, 100 * ONE);
    DivUnit(b, 100 * ONE);
    var f := Q16Div(b, 100 * ONE);
    MulUnit(f, thScl);
    var health := Q16Mul(f, thScl);
    MulUnit(31 * ONE, health);
    MulUnit(6225, health);
    MulUnit(7536, health);
    MulUnit(11141, thScl);
    MulUnit(1245, thScl);
    NoiseUnit(avg300);
    var noise := Clamp(Q16Mul(avg300, 6553), 0, ONE);
    LerpRange(98304, 229376, noise);
    LerpRange(64880, 55705, noise);
    AddFits(445644, Q16Mul(HALF, avg300));
    AddFits(445644 + Q16Mul(HALF, avg300), 176947);
  }

  /** A share of 100, exactly. */
  lemma PercentIs(b: q16)
    requires 0 <= b <= 100 * ONE
    ensures Q16Div(b, 100 * ONE) == b / 100 && 0 <= b / 100 <= ONE
  {
    DivUnit(b, 100 * ONE);
    DivTwice(b * TWO16, TWO16, 100);
    DivUnique(b * TWO16, TWO16, b, 0);
  }

  /** The effectiveness parameters as exact formulas: battery and thermal health scale the gains, the
      long-term baseline shifts the midpoints and mixes the noise-dependent ones. */
  lemma UpdEffIs(batLvl: q16, thScl: q16, avg300: q16)
    requires 0 <= thScl <= ONE && 0 <= avg300 <= 100 * ONE
    ensures var health := Mul(Clamp(batLvl, 0, 100 * ONE) / 100, thScl);
            var noise := Clamp(Mul(avg300, 6553), 0, ONE);
            var e := UpdEff(batLvl, thScl, avg300);
            && e.respGain == Mul(31 * ONE, health) && e.surgeGain == Mul(6225, health)
            && e.trendAmp == Mul(7536, health) && e.lookahead == Mul(11141, thScl) && e.decay == Mul(1245, thScl)
            && e.sigMid == 445644 + avg300 / 2 && e.uclMid == e.sigMid + 176947
            && e.stabRat == 98304 + Mul(131072, noise) && e.gainAlpha == 64880 + Mul(-9175, noise)
            && e.nisThresh == 3 * ONE + Mul(9 * ONE, noise)
  {
    var b := Clamp(batLvl, 0, 100 * ONE);
    PercentIs(b);
    MulUnit(b / 100, thScl);
    var health := Q16Mul(b / 100, thScl);
    MulUnit(31 * ONE, health);
    MulUnit(6225, health);
    MulUnit(7536, health);
    MulUnit(11141, thScl);
    MulUnit(1245, thScl);
    NoiseUnit(avg300);
    MulExact(avg300, 100 * ONE, 6553, 6553);
    var noise := Clamp(Q16Mul(avg300, 6553), 0, ONE);
    hide Q16Mul, Q16Div, Lerp, Add32;
    LerpRange(98304, 229376, noise);
    LerpRange(64880, 55705, noise);
    LerpRange(3 * ONE, 12 * ONE, noise);
    AddFits(445644, avg300 / 2);
    AddFits(445644 + avg300 / 2, 176947);
  }

  /** The depletion as an exact formula. */
  lemma DepletionIs(batLvl: q16)
    ensures var d := (100 * ONE - Clamp(batLvl, 0, 100 * ONE)) / 100;
            Depletion(batLvl) == Mul(97 * ONE, Mul(Mul(d, d), d))
  {
    var left := 100 * ONE - Clamp(batLvl, 0, 100 * ONE);
    PercentIs(left);
    var d: q16 := left / 100;
    MulUnit(d, d);
    MulUnit(Q16Mul(d, d), d);
    MulUnit(97 * ONE, Q16Mul(Q16Mul(d, d), d));
  }

  lemma AddFits(a: int, b: int)
    requires FitsI32(a + b)
    ensures Add32(a, b) == a + b
  {
  }

  /** pg_cpu_calc_trend_gain */
  function TrendGain(vel: q16): q16 { if vel > 0 then AlgSig(vel) else 0 }
}
