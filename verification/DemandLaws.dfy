/** What the load-demand model of src/core/cpu.c promises, stated without its own intermediate functions: how much
    it is damped, how one step moves it, where it rests and what makes it start over. */
module DemandLaws {
  import opened Machine
  import opened Isqrt
  import opened FixedPoint
  import opened LoadDemand
  import AlgSigOrder

  // ----- the damping

  lemma BaseIs(k: int, stabRat: int)
    requires 0 <= k
    ensures BaseDamping(k, stabRat) == 2 * FloorSqrt(k * 65536) * stabRat / 65536
  {
    var r := FloorSqrt(k * 65536);
    assert Sqrt(k) == r by { FloorSqrtUnique(0, 0); }
    hide FloorSqrt;
    DivUnique(131072 * r, 65536, 2 * r, 0);
  }

  lemma BatteryIs(vel: int, integDt: int, psi: int)
    requires 0 <= psi
    ensures (vel * vel + 65 * 65536) / 65536 >= 65
    ensures BatteryDamping(vel, integDt, psi)
         == Abs(integDt) / 2 * (psi * psi) / 65536 / ((vel * vel + 65 * 65536) / 65536) >= 0
  {
    assert vel * vel >= 0 && psi * psi >= 0;
    DivMono(65 * 65536, vel * vel + 65 * 65536, 65536);
    var n := Abs(integDt) / 2;
    assert Mul(HALF, Abs(integDt)) == n;
    MulBounds(n, n, psi * psi, psi * psi);
    DivAntitone(n * (psi * psi) / 65536, 1, (vel * vel + 65 * 65536) / 65536);
  }

  lemma StableIs(battery: int, base: int)
    requires 0 <= battery && 0 <= base
    ensures Mul(Clamp(battery, 0, Mul(base, 4 * ONE)), 203161) == Min(battery, 4 * base) * 203161 / 65536
  {
    assert base * (4 * ONE) == 4 * base * 65536;
    DivUnique(4 * base * 65536, 65536, 4 * base, 0);
    hide Mul;
    assert Mul(base, 4 * ONE) == 4 * base by { MulIs(base, 4 * ONE); }
    MulIs(Min(battery, 4 * base), 203161);
  }

  lemma MulIs(a: int, b: int)
    ensures Mul(a, b) == a * b / 65536
  {
  }

  /** The damping is the larger of two: the critical damping 2 sqrt(k) times the stability ratio over sqrt(th), and
      3.1 times the battery term, cut at four times the undivided one. */
  lemma DampingIs(k: int, stabRat: int, vel: int, integDt: int, psi: int, th: int)
    requires 0 <= k <= 62 * ONE && 0 <= stabRat <= 229376 && 0 <= psi && TH_MIN <= th <= ONE
    ensures FloorSqrt(th * 65536) > 0 && Sqrt(th) != 0 && (vel * vel + 65 * 65536) / 65536 > 0
    ensures var base := 2 * FloorSqrt(k * 65536) * stabRat / 65536;
            var battery := Abs(integDt) / 2 * (psi * psi) / 65536 / ((vel * vel + 65 * 65536) / 65536);
            var thermal := base * 65536 / FloorSqrt(th * 65536);
            var stable := Min(battery, 4 * base) * 203161 / 65536;
            var d := Damping(k, stabRat, vel, integDt, psi, th);
            thermal <= d && stable <= d && (d == thermal || d == stable)
  {
    ThermRoot(th);
    assert Sqrt(th) == FloorSqrt(th * 65536);
    BaseBound(k, stabRat);
    BaseIs(k, stabRat);
    BatteryIs(vel, integDt, psi);
    hide FloorSqrt, Sqrt, BaseDamping, BatteryDamping, Mul;
    StableIs(BatteryDamping(vel, integDt, psi), BaseDamping(k, stabRat));
  }

  /** So the model is never less than stab_rat times critically damped, thermal softening included: in numbers,
      damping >= 2 stab_rat sqrt(k / th) up to 27 units of 2^-16, for every velocity and battery state. */
  lemma NeverUnderdamped(k: int, stabRat: int, vel: int, integDt: int, psi: int, th: int)
    requires 0 <= k <= 62 * ONE && 0 <= stabRat <= 229376 && 0 <= psi && TH_MIN <= th <= ONE
    ensures Sqrt(th) != 0
    ensures var d := Damping(k, stabRat, vel, integDt, psi, th);
            (d + 27) * (d + 27) * th >= 4 * (stabRat * stabRat) * k
  {
    var r, t, base := DampingParts(k, stabRat, vel, integDt, psi, th);
    hide FloorSqrt, Sqrt, Damping;
    var d := Damping(k, stabRat, vel, integDt, psi, th);
    RoundedDamping(r, stabRat, base, t, d);
    SquaredDamping(r, t, d, stabRat, k, th);
  }

  lemma DampingParts(k: int, stabRat: int, vel: int, integDt: int, psi: int, th: int)
    returns (r: nat, t: nat, base: int)
    requires 0 <= k <= 62 * ONE && 0 <= stabRat <= 229376 && 0 <= psi && TH_MIN <= th <= ONE
    ensures Sqrt(th) != 0 && 20723 <= t && t * t <= th * 65536 && k * 65536 < (r + 1) * (r + 1)
    ensures base == 2 * r * stabRat / 65536 >= 0
    ensures base * 65536 / t <= Damping(k, stabRat, vel, integDt, psi, th)
  {
    hide FloorSqrt, Sqrt, Damping;
    ThermRoot(th);
    RootIs(th);
    r, t := FloorSqrt(k * 65536), FloorSqrt(th * 65536);
    base := BaseDamping(k, stabRat);
    BaseIs(k, stabRat);
    BaseBound(k, stabRat);
    ThermalPart(k, stabRat, vel, integDt, psi, th);
  }

  lemma RootIs(x: int)
    requires 0 < x
    ensures Sqrt(x) == FloorSqrt(x * 65536)
  {
  }

  lemma ThermalPart(k: int, stabRat: int, vel: int, integDt: int, psi: int, th: int)
    requires Sqrt(th) > 0 && BaseDamping(k, stabRat) >= 0
    ensures BaseDamping(k, stabRat) * 65536 / Sqrt(th) <= Damping(k, stabRat, vel, integDt, psi, th)
  {
    hide BaseDamping, BatteryDamping, Sqrt, Mul;
  }

  /** The three floors of base and quotient cost less than 27 units. */
  lemma RoundedDamping(r: nat, stabRat: nat, base: int, t: nat, d: int)
    requires stabRat <= 229376 && 20723 <= t && base == 2 * r * stabRat / 65536 && base * 65536 / t <= d && 0 <= base
    ensures 2 * (r + 1) * stabRat <= (d + 27) * t
  {
    var q := base * 65536 / t;
    assert base * 65536 == q * t + base * 65536 % t;
    assert 2 * r * stabRat == base * 65536 + 2 * r * stabRat % 65536;
    MulMono(q, d, t);
    assert 2 * (r + 1) * stabRat == 2 * r * stabRat + 2 * stabRat;
    assert (d + 27) * t == d * t + 27 * t;
  }

  lemma SquaredDamping(r: nat, t: nat, d: int, s: nat, k: int, th: int)
    requires 2 * (r + 1) * s <= (d + 27) * t && k * 65536 < (r + 1) * (r + 1) && t * t <= th * 65536
    requires 0 <= k && 0 <= th
    ensures (d + 27) * (d + 27) * th >= 4 * (s * s) * k
  {
    var a, b := 2 * (r + 1) * s, (d + 27) * t;
    MulBounds(a, b, a, b);
    assert a * a == 4 * (s * s) * ((r + 1) * (r + 1));
    assert b * b == (d + 27) * (d + 27) * (t * t);
    MulMono(k * 65536, (r + 1) * (r + 1), 4 * (s * s));
    assert 4 * (s * s) * (k * 65536) == (4 * (s * s) * k) * 65536;
    assert (d + 27) * (d + 27) >= 0;
    MulMono(t * t, th * 65536, (d + 27) * (d + 27));
    assert (d + 27) * (d + 27) * (th * 65536) == ((d + 27) * (d + 27) * th) * 65536;
  }

  // ----- the step

  /** All four quantities are small: target and load below 1, velocity and rate below 0.01. */
  predicate Quiet(st: Load, inp: Input) {
    inp.tgtPsi < 65536 && -655 < inp.vel < 655 && st.psi < 65536 && -655 < st.rate < 655
  }

  /** A quiet model is switched off, whatever else holds. */
  lemma QuietStops(st: Load, inp: Input, eff: Eff, surgeThresh: q16)
    requires InRange(st, inp) && EffInRange(eff) && Quiet(st, inp)
    ensures Demand(st, inp, eff, surgeThresh) == Load(0, 0)
  {
  }

  /** The thermal scale cut to [0.1, 1], and the spring constant: gain, trend and the square of that scale. */
  lemma SpringIs(inp: Input, eff: Eff)
    requires EffInRange(eff) && 0 <= inp.trendFact <= ONE
    ensures var th := Max(6553, Min(inp.thermScale, 65536));
            var trend := 65536 + eff.gainAlpha * inp.trendFact / 65536;
            && ThermScale(inp) == th && TH_MIN <= th <= ONE && 0 <= SpringK(eff, inp, th) <= 62 * ONE
            && SpringK(eff, inp, th) == (eff.respGain * trend / 65536) * (th * th / 65536) / 65536
  {
    SpringBound(eff, inp, ThermScale(inp));
  }

  /** The pull of the spring toward the target one lookahead ahead, less the integral term, which is cut at 150 k;
      itself cut at 32000. */
  lemma PullIs(st: Load, inp: Input, eff: Eff, k: int)
    ensures var ahead := inp.tgtPsi + inp.vel * eff.lookahead / 65536;
            var pull := k * (ahead - st.psi) - Min(inp.integ * st.psi, k * (100 * 65536) * 98304 / 65536);
            Force(k, Predicted(eff, inp) - st.psi, IntegralTerm(inp.integ, st.psi, k))
            == Max(-0x7D00_0000_0000, Min(pull, 0x7D00_0000_0000)) / 65536
  {
    hide Mul;
    MulIs(inp.vel, eff.lookahead);
  }

  /** The rate after the nudge of a surge. */
  lemma NudgeIs(st: Load, inp: Input, eff: Eff, surgeThresh: q16)
    requires InRange(st, inp)
    ensures Surged(st.rate, inp.vel, surgeThresh, eff.surgeGain)
         == st.rate + if Abs(inp.vel) > surgeThresh then inp.vel * eff.surgeGain / 65536 else 0
  {
  }

  /** Backward Euler for the damping c, from any state and for any force; what leaves [0, 500] stops at its end. */
  lemma EulerIs(psi: int, rate: int, force: int, c: int, dt: int)
    requires 0 <= c <= 695 * ONE && 1 <= dt <= DT_SAFE
    ensures ONE + Mul(c, dt) != 0 && 65536 + c * dt / 65536 >= 65536
    ensures var r := TruncDiv((rate + force * dt / 65536) * 65536, 65536 + c * dt / 65536);
            var p := psi + r * dt / 65536;
            Integrate(psi, rate, force, c, dt)
            == if p < 0 then Load(0, 0) else if p > 500 * 65536 then Load(500 * 65536, 0) else Load(p, r)
  {
    IntegrateDen(c, dt);
  }

  /** One step of a model that is not quiet and sees no structural break, as one formula. */
  lemma StepIs(st: Load, inp: Input, eff: Eff, surgeThresh: q16)
    requires InRange(st, inp) && EffInRange(eff) && !Quiet(st, inp) && !inp.structBreak
    ensures var th := Max(6553, Min(inp.thermScale, 65536));
            var trend := 65536 + eff.gainAlpha * inp.trendFact / 65536;
            var k := (eff.respGain * trend / 65536) * (th * th / 65536) / 65536;
            var ahead := inp.tgtPsi + inp.vel * eff.lookahead / 65536;
            var pull := k * (ahead - st.psi) - Min(inp.integ * st.psi, k * (100 * 65536) * 98304 / 65536);
            var force := Max(-0x7D00_0000_0000, Min(pull, 0x7D00_0000_0000)) / 65536;
            var nudge := if Abs(inp.vel) > surgeThresh then inp.vel * eff.surgeGain / 65536 else 0;
            && Sqrt(th) != 0
            && var c := Damping(k, eff.stabRat, inp.vel, inp.integDt, st.psi, th);
               var den := 65536 + c * inp.dtSafe / 65536;
               && den > 0
               && var r := TruncDiv((st.rate + nudge + force * inp.dtSafe / 65536) * 65536, den);
                  var p := st.psi + r * inp.dtSafe / 65536;
                  Demand(st, inp, eff, surgeThresh)
                  == if p < 0 then Load(0, 0) else if p > 500 * 65536 then Load(500 * 65536, 0) else Load(p, r)
  {
    SpringIs(inp, eff);
    var th := ThermScale(inp);
    var k := SpringK(eff, inp, th);
    ThermRoot(th);
    DampingBound(eff, inp, st.psi, th);
    PullIs(st, inp, eff, k);
    NudgeIs(st, inp, eff, surgeThresh);
    hide Force, IntegralTerm, Predicted, SpringK, ThermScale, Damping, Surged, Integrate, Mul, Sqrt, TruncDiv, Min, Max;
    EulerIs(st.psi, Surged(st.rate, inp.vel, surgeThresh, eff.surgeGain),
            Force(k, Predicted(eff, inp) - st.psi, IntegralTerm(inp.integ, st.psi, k)),
            Damping(k, eff.stabRat, inp.vel, inp.integDt, st.psi, th), inp.dtSafe);
  }

  /** The trend gain is 0 for a velocity that is not positive, 1 from 180 on, and in between vel / sqrt(1 + vel^2) up to
      one unit of 2^-16: squared, the exact value lies between (g - 1)^2 and (g + 1)^2. */
  lemma TrendGainIs(vel: q16)
    ensures var g, n := TrendGain(vel), 65536 * 65536 + vel * vel;
            && (vel <= 0 ==> g == 0) && (vel >= 180 * 65536 ==> g == 65536)
            && (0 < vel < 180 * 65536 ==>
                && 0 <= g <= 65536 && (vel * 65536) * (vel * 65536) < n * ((g + 1) * (g + 1))
                && (g >= 1 ==> n * ((g - 1) * (g - 1)) <= (vel * 65536) * (vel * 65536)))
  {
    hide AlgSig;
    AlgSigOrder.Saturated(vel);
    if 0 < vel < SAT {
      AlgSigOrder.NearExact(vel);
    }
  }

  // ----- what follows for the model as a whole

  /** At rest on a target of at least 1, without velocity and battery term, the model stays where it is. */
  lemma RestStays(st: Load, inp: Input, eff: Eff, surgeThresh: q16)
    requires InRange(st, inp) && EffInRange(eff) && !inp.structBreak && 65536 <= inp.tgtPsi
    requires st == Load(inp.tgtPsi, 0) && inp.vel == 0 && inp.integ == 0
    ensures Demand(st, inp, eff, surgeThresh) == st
  {
    SpringIs(inp, eff);
    var k := SpringK(eff, inp, ThermScale(inp));
    ThermRoot(ThermScale(inp));
    DampingBound(eff, inp, st.psi, ThermScale(inp));
    PullIs(st, inp, eff, k);
    NudgeIs(st, inp, eff, surgeThresh);
    NoPull(k);
    var c := Damping(k, eff.stabRat, 0, inp.integDt, st.psi, ThermScale(inp));
    hide Force, IntegralTerm, Predicted, SpringK, ThermScale, Damping, Surged, Integrate, Mul, Sqrt;
    EulerIs(st.psi, 0, 0, c, inp.dtSafe);
    ZeroQuotient(65536 + c * inp.dtSafe / 65536);
  }

  lemma NoPull(k: int)
    requires 0 <= k
    ensures var pull := k * 0 - Min(0, k * (100 * 65536) * 98304 / 65536);
            Max(-0x7D00_0000_0000, Min(pull, 0x7D00_0000_0000)) / 65536 == 0
  {
    MulBounds(k, k, 100 * 65536, 100 * 65536);
  }

  lemma ZeroQuotient(den: int)
    requires 0 < den
    ensures TruncDiv(0, den) == 0
  {
    DivUnique(0, den, 0, 0);
  }

  /** From standstill, without surge and battery term, a step moves toward the target seen one lookahead ahead. */
  lemma TowardTarget(st: Load, inp: Input, eff: Eff, surgeThresh: q16)
    requires InRange(st, inp) && EffInRange(eff) && !inp.structBreak && !Quiet(st, inp)
    requires st.rate == 0 && inp.integ == 0 && Abs(inp.vel) <= surgeThresh
    ensures var ahead, psi' := inp.tgtPsi + inp.vel * eff.lookahead / 65536, Demand(st, inp, eff, surgeThresh).psi;
            && (st.psi <= ahead ==> st.psi <= psi') && (ahead <= st.psi ==> psi' <= st.psi)
  {
    SpringIs(inp, eff);
    var k := SpringK(eff, inp, ThermScale(inp));
    ThermRoot(ThermScale(inp));
    DampingBound(eff, inp, st.psi, ThermScale(inp));
    PullIs(st, inp, eff, k);
    NudgeIs(st, inp, eff, surgeThresh);
    var ahead := inp.tgtPsi + inp.vel * eff.lookahead / 65536;
    PullSign(k, ahead - st.psi);
    var c := Damping(k, eff.stabRat, inp.vel, inp.integDt, st.psi, ThermScale(inp));
    var f := Force(k, Predicted(eff, inp) - st.psi, IntegralTerm(0, st.psi, k));
    hide Force, IntegralTerm, Predicted, SpringK, ThermScale, Damping, Surged, Integrate, Mul, Sqrt;
    EulerIs(st.psi, 0, f, c, inp.dtSafe);
    MoveSign(f, inp.dtSafe, 65536 + c * inp.dtSafe / 65536);
  }

  lemma PullSign(k: int, d: int)
    requires 0 <= k
    ensures var pull := k * d - Min(0, k * (100 * 65536) * 98304 / 65536);
            var f := Max(-0x7D00_0000_0000, Min(pull, 0x7D00_0000_0000)) / 65536;
            (0 <= d ==> 0 <= f) && (d <= 0 ==> f <= 0)
  {
    MulBounds(k, k, 100 * 65536, 100 * 65536);
    if 0 <= d {
      MulBounds(k, k, d, d);
    } else {
      MulBounds(k, k, -d, -d);
      assert k * -d == -(k * d);
    }
  }

  lemma MoveSign(f: int, dt: int, den: int)
    requires 0 < dt && 0 < den
    ensures var r := TruncDiv((f * dt / 65536) * 65536, den);
            (0 <= f ==> 0 <= r * dt / 65536) && (f <= 0 ==> r * dt / 65536 <= 0)
  {
    var n := (f * dt / 65536) * 65536;
    if 0 <= f {
      MulBounds(f, f, dt, dt);
    }
    if f <= 0 {
      MulBounds(-f, -f, dt, dt);
      assert -f * dt == -(f * dt);
    }
    DivMono(0, Abs(n), den);
    DivUnique(0, den, 0, 0);
    var r := TruncDiv(n, den);
    if 0 <= f {
      MulBounds(r, r, dt, dt);
    }
    if f <= 0 {
      MulBounds(-r, -r, dt, dt);
      assert -r * dt == -(r * dt);
    }
  }

  /** After a structural break the model goes on from standstill at the target: nothing of its state is left. */
  lemma BreakContinues(st: Load, inp: Input, eff: Eff, surgeThresh: q16)
    requires InRange(st, inp) && EffInRange(eff) && inp.structBreak && !Quiet(st, inp)
    requires !Quiet(Load(inp.tgtPsi, 0), inp)
    ensures InRange(Load(inp.tgtPsi, 0), inp.(structBreak := false))
    ensures Demand(st, inp, eff, surgeThresh)
         == Demand(Load(inp.tgtPsi, 0), inp.(structBreak := false), eff, surgeThresh)
  {
  }

  /** The parameters of a full battery on a cool device without long-term pressure. */
  const HEALTHY: Eff := Eff(31 * ONE, 6225, 7536, 11141, 1245, 445_644, 622_591, 98304, 64880, 3 * ONE)

  lemma HealthyIs()
    ensures UpdEff(100 * ONE, ONE, 0) == HEALTHY && EffInRange(HEALTHY)
  {
    UpdEffIs(100 * ONE, ONE, 0);
    UpdEffInRange(100 * ONE, ONE, 0);
    hide UpdEff;
  }

  lemma FirstDamping()
    ensures Damping(31 * ONE, 98304, 0, 0, 0, ONE) == 1_094_667
  {
    DampingIs(31 * ONE, 98304, 0, 0, 0, ONE);
    FloorSqrtUnique(31 * ONE * 65536, 364_889);
    FloorSqrtUnique(ONE * 65536, 65536);
    hide Damping, Sqrt, FloorSqrt;
  }

  lemma FirstForce(inp: Input, surgeThresh: q16)
    requires inp == Input(100 * ONE, 0, DT_SAFE, ONE, 0, 0, 0, false)
    ensures ThermScale(inp) == ONE && SpringK(HEALTHY, inp, ONE) == 31 * ONE && Predicted(HEALTHY, inp) == 100 * ONE
    ensures IntegralTerm(0, 0, 31 * ONE) == 0 && Force(31 * ONE, 100 * ONE, 0) == 203_161_600
    ensures Surged(0, 0, surgeThresh, 6225) == 0
  {
  }

  lemma FirstMove()
    ensures ONE + Mul(1_094_667, DT_SAFE) != 0
    ensures Integrate(0, 0, 203_161_600, 1_094_667, DT_SAFE) == Load(760_718, 7_607_879)
  {
    ProductAt(1_094_667, 6553, 109_456);
    ProductAt(203_161_600, 6553, 20_314_300);
    ProductAt(7_607_879, 6553, 760_718);
    assert Div(20_314_300, 174_992) == 7_607_879 by {
      DivUnique(20_314_300 * 65536, 174_992, 7_607_879, 20_314_300 * 65536 - 7_607_879 * 174_992);
    }
    hide Mul, Div;
  }

  lemma ProductAt(a: int, b: int, r: int)
    requires r * 65536 <= a * b < r * 65536 + 65536
    ensures Mul(a, b) == r
  {
    DivUnique(a * b, 65536, r, a * b - r * 65536);
  }

  /** A worked step: a healthy cool device at rest meets a pressure of 100 and answers with 11.61 after 0.1 s. */
  lemma FirstStep(inp: Input, surgeThresh: q16)
    requires inp == Input(100 * ONE, 0, DT_SAFE, ONE, 0, 0, 0, false)
    ensures UpdEff(100 * ONE, ONE, 0) == HEALTHY && EffInRange(HEALTHY)
    ensures Demand(Load(0, 0), inp, HEALTHY, surgeThresh) == Load(760_718, 7_607_879)
  {
    HealthyIs();
    FirstForce(inp, surgeThresh);
    FirstDamping();
    FirstMove();
    ThermRoot(ONE);
    hide UpdEff, Damping, Sqrt, ThermScale, SpringK, Predicted, IntegralTerm, Force, Surged, Integrate, Mul;
  }
}
