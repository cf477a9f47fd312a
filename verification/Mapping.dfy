/** The actuation of a tick, apply_mapping of src/core/gov.c: from demand and pressure to six nodes. */
module Mapping {
  import opened Machine
  import opened FixedPoint
  import opened LoadDemand
  import opened Tune
  import opened Shaping
  import opened Quantizer
  import Sysfs
  import Restore

  const QUANT_NS: u64 := 65536

  const CHK_LAT: Sysfs.Chk := Sysfs.Rel(100)
  const CHK_GRAN: Sysfs.Chk := Sysfs.Rel(100)
  const CHK_WAKE: Sysfs.Chk := Sysfs.Rel(150)
  const CHK_MIG: Sysfs.Chk := Sysfs.Abs_(50000)
  const CHK_WALT: Sysfs.Chk := Sysfs.Abs_(5)
  const CHK_UCL: Sysfs.Chk := Sysfs.Abs_(32)

  /** Which of the six nodes could be opened. */
  datatype Active = Active(lat: bool, gran: bool, wake: bool, mig: bool, walt: bool, ucl: bool)

  /** The values asked for; 0 for a node that could not be opened. */
  datatype Targets = Targets(lat: u64, gran: u64, wake: u64, mig: u64, walt: u64, ucl: u64)

  function Map(a: Active, vel: q16, thScl: q16, lDem: q16, pEff: q16, cfg: Cfg, eff: Eff, lim: Lim): Targets {
    var lat := Lat(pEff, lDem, ThermLat(thScl, lim), cfg, eff, lim);
    Targets(
      if a.lat then SanQuant(lat, lim.maxLat, QUANT_NS) else 0,
      if a.gran then SanQuant(Gran(lat, cfg, lim), lim.maxGran, QUANT_NS) else 0,
      if a.wake then SanQuant(Wakeup(pEff, eff, lim), lim.maxWake, QUANT_NS) else 0,
      if a.mig then SanQuant(Migration(vel, pEff, lim), lim.minMig, QUANT_NS) else 0,
      if a.walt then SanU64(Walt(pEff, lim), Whole(lim.minWalt)) else 0,
      if a.ucl then SanU64(Uclamp(pEff, thScl, cfg, eff, lim), Whole(lim.minUcl)) else 0)
  }

  /** Q16_TO_INT, as an unsigned word. */
  function Whole(q: q16): u64 { U64(q / TWO16) }

  /** A limit in milliseconds as the whole quantum written for it. */
  function Quanta(ms: nat): nat { RoundTo(ms * 1_000_000 / TWO16, QUANT_NS) }

  /** The demand a pressure is derived from, with the trend gain of the same sample. */
  function Pressure(lDem: q16, vel: q16, eff: Eff): q16 { EffPress(lDem, TrendGain(vel), eff) }

  predicate InBands(a: Active, m: Targets, lim: Lim)
    requires Ordered(lim)
  {
    && (if a.lat then Quanta(lim.minLat) <= m.lat <= Quanta(lim.maxLat) else m.lat == 0)
    && (if a.gran then Quanta(lim.minGran) <= m.gran <= Quanta(lim.maxGran) else m.gran == 0)
    && (if a.wake then Quanta(lim.minWake) <= m.wake <= Quanta(lim.maxWake) else m.wake == 0)
    && (if a.mig then Quanta(lim.minMig) <= m.mig <= Quanta(lim.maxMig) else m.mig == 0)
    && (if a.walt then 10 <= m.walt <= 40 else m.walt == 0)
    && (if a.ucl then 0 <= m.ucl <= (lim.maxUcl + HALF) / TWO16 else m.ucl == 0)
    && (a.lat && a.gran ==> m.gran <= m.lat)
  }

  /** m reacts at least as strongly as n: shorter times, higher thresholds. */
  predicate AtLeast(m: Targets, n: Targets) {
    m.lat <= n.lat && m.gran <= n.gran && m.wake <= n.wake && m.mig <= n.mig && n.walt <= m.walt && n.ucl <= m.ucl
  }

  lemma QuantaBand(v: q16, fallback: q16, lo: q16, hi: q16)
    requires 0 <= lo <= v <= hi
    ensures Quanta(lo) <= SanQuant(v, fallback, QUANT_NS) <= Quanta(hi)
  {
    hide Nanos, RoundTo, SanQuant;
    SanQuantMono(lo, v, lo, fallback, QUANT_NS);
    SanQuantMono(v, hi, fallback, hi, QUANT_NS);
    SanQuantIsRound(lo, lo, QUANT_NS);
    SanQuantIsRound(hi, hi, QUANT_NS);
    NanosExact(lo);
    NanosExact(hi);
  }

  /** Every value is in its quantized band, and the granularity never exceeds the latency. */
  lemma MapInBands(a: Active, vel: q16, thScl: q16, lDem: q16, pEff: q16, cfg: Cfg, eff: Eff, lim: Lim)
    requires 0 <= pEff <= P_MAX && 0 <= lDem && 0 <= thScl <= ONE
    requires EffInRange(eff) && InBand(cfg) && Ordered(lim)
    ensures InBands(a, Map(a, vel, thScl, lDem, pEff, cfg, eff, lim), lim)
  {
    hide SanQuant, Quanta, SanU64, Lat, ThermLat, Gran, Wakeup, Migration, Walt, Uclamp;
    var lat := Lat(pEff, lDem, ThermLat(thScl, lim), cfg, eff, lim);
    LatMono(pEff, pEff, lDem, lDem, ThermLat(thScl, lim), cfg, eff, lim);
    QuantaBand(lat, lim.maxLat, lim.minLat, lim.maxLat);
    GranMono(lat, lat, cfg, lim);
    QuantaBand(Gran(lat, cfg, lim), lim.maxGran, lim.minGran, lim.maxGran);
    SanQuantMono(Gran(lat, cfg, lim), lat, lim.maxGran, lim.maxLat, QUANT_NS);
    WakeupMono(pEff, pEff, eff, lim);
    QuantaBand(Wakeup(pEff, eff, lim), lim.maxWake, lim.minWake, lim.maxWake);
    MigrationMono(vel, pEff, pEff, lim);
    QuantaBand(Migration(vel, pEff, lim), lim.minMig, lim.minMig, lim.maxMig);
    WaltMono(pEff, pEff, lim);
    WholeBand(Walt(pEff, lim), Whole(lim.minWalt), 10 * ONE, 40 * ONE);
    UclampMono(pEff, pEff, thScl, cfg, eff, lim);
    WholeBand(Uclamp(pEff, thScl, cfg, eff, lim), Whole(lim.minUcl), 0, lim.maxUcl);
  }

  lemma WholeBand(v: q16, fallback: u64, lo: q16, hi: q16)
    requires 0 <= lo <= v <= hi <= 1024 * ONE
    ensures (lo + HALF) / TWO16 <= SanU64(v, fallback) <= (hi + HALF) / TWO16
  {
    DivMono(lo + HALF, v + HALF, TWO16);
    DivMono(v + HALF, hi + HALF, TWO16);
  }

  /** In one tick, more load demand never weakens the reaction: through the pressure, the truncating
      sigmoid, the three-branch decay, the interpolations, the clamps and both sanitizers. */
  lemma MoreDemand(a: Active, vel: q16, thScl: q16, l1: q16, l2: q16, cfg: Cfg, eff: Eff, lim: Lim)
    requires 0 <= l1 <= l2 <= PSI_MAX && 0 <= thScl <= ONE
    requires EffInRange(eff) && InBand(cfg) && Ordered(lim)
    ensures AtLeast(
              Map(a, vel, thScl, l2, Pressure(l2, vel, eff), cfg, eff, lim),
              Map(a, vel, thScl, l1, Pressure(l1, vel, eff), cfg, eff, lim))
  {
    PressureRange(l1, l2, vel, eff);
    hide SanQuant, SanU64, Lat, ThermLat, Gran, Wakeup, Migration, Walt, Uclamp, Pressure;
    var p1, p2 := Pressure(l1, vel, eff), Pressure(l2, vel, eff);
    var th := ThermLat(thScl, lim);
    LatMono(p1, p2, l1, l2, th, cfg, eff, lim);
    var lat1, lat2 := Lat(p1, l1, th, cfg, eff, lim), Lat(p2, l2, th, cfg, eff, lim);
    SanQuantMono(lat2, lat1, lim.maxLat, lim.maxLat, QUANT_NS);
    GranMono(lat2, lat1, cfg, lim);
    SanQuantMono(Gran(lat2, cfg, lim), Gran(lat1, cfg, lim), lim.maxGran, lim.maxGran, QUANT_NS);
    WakeupMono(p1, p2, eff, lim);
    SanQuantMono(Wakeup(p2, eff, lim), Wakeup(p1, eff, lim), lim.maxWake, lim.maxWake, QUANT_NS);
    MigrationMono(vel, p1, p2, lim);
    SanQuantMono(Migration(vel, p2, lim), Migration(vel, p1, lim), lim.minMig, lim.minMig, QUANT_NS);
    WaltMono(p1, p2, lim);
    SanU64Mono(Walt(p1, lim), Walt(p2, lim), Whole(lim.minWalt), Whole(lim.minWalt));
    UclampMono(p1, p2, thScl, cfg, eff, lim);
    var u1, u2 := Uclamp(p1, thScl, cfg, eff, lim), Uclamp(p2, thScl, cfg, eff, lim);
    SanU64Mono(u1, u2, Whole(lim.minUcl), Whole(lim.minUcl));
  }

  lemma PressureRange(l1: q16, l2: q16, vel: q16, eff: Eff)
    requires 0 <= l1 <= l2 <= PSI_MAX && EffInRange(eff)
    ensures 0 <= l1 <= Pressure(l1, vel, eff) <= Pressure(l2, vel, eff) <= P_MAX
  {
    hide AlgSig;
    AlgSigRange(vel);
    EffPressRange(l1, TrendGain(vel), eff);
    EffPressRange(l2, TrendGain(vel), eff);
    EffPressMono(l1, l2, TrendGain(vel), eff);
  }

  /** In one tick, heat never strengthens the reaction: with the parameters the code derives from each
      thermal scale, and the pressure from those, at equal battery, baseline, velocity and demand. The
      latency keeps above the thermal floor. */
  lemma MoreHeat(act: Active, batLvl: q16, avg300: q16, vel: q16, hot: q16, cool: q16, l: q16, cfg: Cfg, lim: Lim)
    requires TH_MIN <= hot <= cool <= ONE && 0 <= avg300 <= 100 * ONE && 0 <= l <= PSI_MAX
    requires InBand(cfg) && Ordered(lim)
    ensures var a, b := UpdEff(batLvl, hot, avg300), UpdEff(batLvl, cool, avg300);
            AtLeast(Map(act, vel, cool, l, Pressure(l, vel, b), cfg, b, lim),
                    Map(act, vel, hot, l, Pressure(l, vel, a), cfg, a, lim))
    ensures var a := UpdEff(batLvl, hot, avg300);
            && 0 <= ThermLat(hot, lim)
            && (act.lat ==> Map(act, vel, hot, l, Pressure(l, vel, a), cfg, a, lim).lat >= Quanta(ThermLat(hot, lim)))
  {
    var a, b := UpdEff(batLvl, hot, avg300), UpdEff(batLvl, cool, avg300);
    UpdEffHeat(batLvl, hot, cool, avg300);
    UpdEffInRange(batLvl, hot, avg300);
    UpdEffInRange(batLvl, cool, avg300);
    PressureHeat(l, vel, a, b);
    hide UpdEff, Pressure, Map, Quanta, ThermLat;
    var pH, pC := Pressure(l, vel, a), Pressure(l, vel, b);
    TimesHeat(act, vel, hot, cool, l, pH, pC, cfg, a, b, lim);
    LevelsHeat(act, vel, hot, cool, l, pH, pC, cfg, a, b, lim);
  }

  lemma PressureHeat(l: q16, vel: q16, a: Eff, b: Eff)
    requires 0 <= l <= PSI_MAX && EffInRange(a) && EffInRange(b) && Milder(a, b)
    ensures 0 <= Pressure(l, vel, a) <= Pressure(l, vel, b) <= P_MAX
  {
    PressureRange(l, l, vel, a);
    PressureRange(l, l, vel, b);
    hide AlgSig;
    AlgSigRange(vel);
    EffPressHeat(l, TrendGain(vel), a, b);
  }

  /** The four times of a cool and a hot tick. */
  lemma TimesHeat(
    act: Active, vel: q16, hot: q16, cool: q16, l: q16, pH: q16, pC: q16, cfg: Cfg, a: Eff, b: Eff, lim: Lim)
    requires 0 <= hot <= cool <= ONE && 0 <= l && 0 <= pH <= pC <= P_MAX
    requires EffInRange(a) && EffInRange(b) && Milder(a, b) && InBand(cfg) && Ordered(lim)
    ensures var mC, mH := Map(act, vel, cool, l, pC, cfg, b, lim), Map(act, vel, hot, l, pH, cfg, a, lim);
            && mC.lat <= mH.lat && mC.gran <= mH.gran && mC.wake <= mH.wake && mC.mig <= mH.mig
            && 0 <= ThermLat(hot, lim) && (act.lat ==> mH.lat >= Quanta(ThermLat(hot, lim)))
  {
    var thH, thC := ThermLat(hot, lim), ThermLat(cool, lim);
    SameMidpoints(pH, l, thH, hot, cfg, a, b, lim);
    hide SanQuant, SanU64, Quanta, Lat, ThermLat, Gran, Wakeup, Migration, Walt, Uclamp;
    LatHeat(pH, l, hot, cool, cfg, b, lim);
    LatMono(pH, pC, l, l, thC, cfg, b, lim);
    LatMono(pH, pH, l, l, thH, cfg, b, lim);
    var latH, latC := Lat(pH, l, thH, cfg, a, lim), Lat(pC, l, thC, cfg, b, lim);
    SanQuantMono(latC, latH, lim.maxLat, lim.maxLat, QUANT_NS);
    QuantaBand(latH, lim.maxLat, thH, lim.maxLat);
    GranMono(latC, latH, cfg, lim);
    SanQuantMono(Gran(latC, cfg, lim), Gran(latH, cfg, lim), lim.maxGran, lim.maxGran, QUANT_NS);
    WakeupMono(pH, pC, b, lim);
    WakeupHeat(pH, a, b, lim);
    SanQuantMono(Wakeup(pC, b, lim), Wakeup(pH, a, lim), lim.maxWake, lim.maxWake, QUANT_NS);
    MigrationMono(vel, pH, pC, lim);
    SanQuantMono(Migration(vel, pC, lim), Migration(vel, pH, lim), lim.minMig, lim.minMig, QUANT_NS);
  }

  /** The two load levels of a cool and a hot tick. */
  lemma LevelsHeat(
    act: Active, vel: q16, hot: q16, cool: q16, l: q16, pH: q16, pC: q16, cfg: Cfg, a: Eff, b: Eff, lim: Lim)
    requires 0 <= hot <= cool <= ONE && 0 <= l && 0 <= pH <= pC <= P_MAX
    requires EffInRange(a) && EffInRange(b) && Milder(a, b) && InBand(cfg) && Ordered(lim)
    ensures var mC, mH := Map(act, vel, cool, l, pC, cfg, b, lim), Map(act, vel, hot, l, pH, cfg, a, lim);
            mH.walt <= mC.walt && mH.ucl <= mC.ucl
  {
    SameMidpoints(pH, l, 0, hot, cfg, a, b, lim);
    hide SanQuant, SanU64, Lat, ThermLat, Gran, Wakeup, Migration, Walt, Uclamp;
    WaltMono(pH, pC, lim);
    SanU64Mono(Walt(pH, lim), Walt(pC, lim), Whole(lim.minWalt), Whole(lim.minWalt));
    UclampHeat(pH, hot, cool, cfg, b, lim);
    UclampMono(pH, pH, hot, cfg, b, lim);
    UclampMono(pH, pC, cool, cfg, b, lim);
    SanU64Mono(Uclamp(pH, hot, cfg, a, lim), Uclamp(pC, cool, cfg, b, lim), Whole(lim.minUcl), Whole(lim.minUcl));
  }

  /** End to end, for any core count and frequency, any relative capability and cluster ratio, any battery
      level, thermal scales in [0.1, 1], baseline in [0, 100] and velocity: the values are in the bands of
      the tuned limits, and more load demand and less heat together never weaken the reaction. */
  lemma EndToEnd(core: i32, freqKhz: i32, rel: q16, rat: q16, batLvl: q16, hot: q16, cool: q16, avg300: q16,
                 act: Active, vel: q16, l1: q16, l2: q16)
    requires TH_MIN <= hot <= cool <= ONE && 0 <= avg300 <= 100 * ONE && 0 <= l1 <= l2 <= PSI_MAX
    ensures var lim := if core <= 0 || freqKhz <= 0 then DEFAULT_LIM
                       else Limits(DEFAULT_LIM, HeuristicCap(core, freqKhz / 1000));
            var cfg := Configs(DEFAULT_CFG, rel, rat);
            var a, b := UpdEff(batLvl, hot, avg300), UpdEff(batLvl, cool, avg300);
            var m1 := Map(act, vel, hot, l1, Pressure(l1, vel, a), cfg, a, lim);
            var m2 := Map(act, vel, cool, l2, Pressure(l2, vel, b), cfg, b, lim);
            Ordered(lim) && InBands(act, m1, lim) && InBands(act, m2, lim) && AtLeast(m2, m1)
  {
    hide UpdEff, Limits, Configs, Map, Pressure, HeuristicCap, InBands, Ordered;
    var lim := if core <= 0 || freqKhz <= 0 then DEFAULT_LIM
               else Limits(DEFAULT_LIM, HeuristicCap(core, freqKhz / 1000));
    var cfg := Configs(DEFAULT_CFG, rel, rat);
    var a, b := UpdEff(batLvl, hot, avg300), UpdEff(batLvl, cool, avg300);
    TunedOrdered(core, freqKhz);
    ConfigsInBand(DEFAULT_CFG, rel, rat);
    UpdEffInRange(batLvl, hot, avg300);
    UpdEffInRange(batLvl, cool, avg300);
    PressureRange(l1, l1, vel, a);
    PressureRange(l1, l2, vel, b);
    MapInBands(act, vel, hot, l1, Pressure(l1, vel, a), cfg, a, lim);
    MapInBands(act, vel, cool, l2, Pressure(l2, vel, b), cfg, b, lim);
    MoreDemand(act, vel, cool, l1, l2, cfg, b, lim);
    MoreHeat(act, batLvl, avg300, vel, hot, cool, l1, cfg, lim);
  }

  // ----- the six values in closed form

  /** Milliseconds in Q16 to the nearest multiple of 65536 ns. */
  lemma QuantumIs(v: q16, fallback: q16)
    requires 0 <= v
    ensures SanQuant(v, fallback, QUANT_NS) == (v * 1_000_000 / 65536 + 32768) / 65536 * 65536
  {
    SanQuantIsRound(v, fallback, QUANT_NS);
    NanosExact(v);
    hide SanQuant, Nanos;
    EvenStep(v * 1_000_000 / 65536);
  }

  lemma EvenStep(n: nat)
    ensures RoundTo(n, 65536) == (n + 32768) / 65536 * 65536
  {
  }

  /** The softsign share of a curve of slope k around mid. */
  lemma SigIs(p: q16, k: q16, mid: q16)
    ensures var z := k * (p - mid) / 65536;
            (Soft(SigArg(p, k, mid)) + ONE) / 2 == (TruncDiv(z * 65536, 65536 + Abs(z)) + 65536) / 2
  {
    hide TruncDiv;
  }

  /** The latency in milliseconds. */
  lemma LatMsIs(thScl: q16, lDem: q16, pEff: q16, cfg: Cfg, eff: Eff, lim: Lim)
    requires 0 <= pEff <= P_MAX && 0 <= lDem && 0 <= thScl <= ONE
    requires EffInRange(eff) && InBand(cfg) && Ordered(lim)
    ensures var rng := lim.maxLat - lim.minLat;
            var z := cfg.sigmoidK * (pEff - eff.sigMid) / 65536;
            var sig := (TruncDiv(z * 65536, 65536 + Abs(z)) + 65536) / 2;
            var response := lim.minLat + rng * (65536 - sig) / 65536;
            var ceiling := lim.maxLat - Min(lDem / 100, 65536) * rng / 65536;
            var thermal := lim.minLat + rng * (65536 - thScl) / 65536;
            Lat(pEff, lDem, ThermLat(thScl, lim), cfg, eff, lim) == Max(thermal, Min(response, ceiling))
  {
    hide Lat, ThermLat, Soft, SigArg, TruncDiv, Abs, Mul, Min, Max;
    LatIs(pEff, lDem, thScl, cfg, eff, lim);
    SigIs(pEff, cfg.sigmoidK, eff.sigMid);
    LatFormula(lim.minLat, lim.maxLat, (Soft(SigArg(pEff, cfg.sigmoidK, eff.sigMid)) + ONE) / 2, lDem, thScl);
  }

  lemma LatFormula(min: int, max: int, sig: int, l: int, thScl: int)
    ensures var rng := max - min;
            Max(min + Mul(rng, ONE - thScl), Min(min + Mul(rng, ONE - sig), max - Mul(Min(l / 100, ONE), rng))) ==
            Max(min + rng * (65536 - thScl) / 65536,
                Min(min + rng * (65536 - sig) / 65536, max - Min(l / 100, 65536) * rng / 65536))
  {
    hide Mul, Min, Max;
    var rng := max - min;
    MulIs(rng, ONE - sig);
    MulIs(rng, ONE - thScl);
    MulIs(Min(l / 100, ONE), rng);
  }

  /** The latency written: the closed form to the nearest quantum. */
  lemma LatencyIs(a: Active, vel: q16, thScl: q16, lDem: q16, pEff: q16, cfg: Cfg, eff: Eff, lim: Lim)
    requires 0 <= pEff <= P_MAX && 0 <= lDem && 0 <= thScl <= ONE
    requires EffInRange(eff) && InBand(cfg) && Ordered(lim)
    ensures var rng := lim.maxLat - lim.minLat;
            var z := cfg.sigmoidK * (pEff - eff.sigMid) / 65536;
            var sig := (TruncDiv(z * 65536, 65536 + Abs(z)) + 65536) / 2;
            var response := lim.minLat + rng * (65536 - sig) / 65536;
            var ceiling := lim.maxLat - Min(lDem / 100, 65536) * rng / 65536;
            var thermal := lim.minLat + rng * (65536 - thScl) / 65536;
            var lat := Max(thermal, Min(response, ceiling));
            Map(a, vel, thScl, lDem, pEff, cfg, eff, lim).lat ==
              if a.lat then (lat * 1_000_000 / 65536 + 32768) / 65536 * 65536 else 0
  {
    hide SanQuant, SanU64, Lat, ThermLat, Gran, Wakeup, Migration, Walt, Uclamp, TruncDiv, Min, Max;
    LatMono(pEff, pEff, lDem, lDem, ThermLat(thScl, lim), cfg, eff, lim);
    LatMsIs(thScl, lDem, pEff, cfg, eff, lim);
    QuantumIs(Lat(pEff, lDem, ThermLat(thScl, lim), cfg, eff, lim), lim.maxLat);
  }

  /** The granularity written: the configured share of the unrounded latency, cut to its limits and to the latency. */
  lemma GranularityIs(a: Active, vel: q16, thScl: q16, lDem: q16, pEff: q16, cfg: Cfg, eff: Eff, lim: Lim)
    requires 0 <= pEff <= P_MAX && 0 <= lDem && 0 <= thScl <= ONE
    requires EffInRange(eff) && InBand(cfg) && Ordered(lim)
    ensures var rng := lim.maxLat - lim.minLat;
            var z := cfg.sigmoidK * (pEff - eff.sigMid) / 65536;
            var sig := (TruncDiv(z * 65536, 65536 + Abs(z)) + 65536) / 2;
            var response := lim.minLat + rng * (65536 - sig) / 65536;
            var ceiling := lim.maxLat - Min(lDem / 100, 65536) * rng / 65536;
            var thermal := lim.minLat + rng * (65536 - thScl) / 65536;
            var lat := Max(thermal, Min(response, ceiling));
            var gran := Min(lat, Max(lim.minGran, Min(lim.maxGran, lat * cfg.latGranRat / 65536)));
            Map(a, vel, thScl, lDem, pEff, cfg, eff, lim).gran ==
              if a.gran then (gran * 1_000_000 / 65536 + 32768) / 65536 * 65536 else 0
  {
    hide SanQuant, SanU64, Lat, ThermLat, Gran, Wakeup, Migration, Walt, Uclamp, TruncDiv, Min, Max;
    LatMono(pEff, pEff, lDem, lDem, ThermLat(thScl, lim), cfg, eff, lim);
    LatMsIs(thScl, lDem, pEff, cfg, eff, lim);
    var lat := Lat(pEff, lDem, ThermLat(thScl, lim), cfg, eff, lim);
    GranIs(lat, cfg, lim);
    GranMono(lat, lat, cfg, lim);
    QuantumIs(Gran(lat, cfg, lim), lim.maxGran);
  }

  /** The wake-up granularity written. */
  lemma WakeIs(a: Active, vel: q16, thScl: q16, lDem: q16, pEff: q16, cfg: Cfg, eff: Eff, lim: Lim)
    requires 0 <= pEff <= P_MAX && EffInRange(eff) && Ordered(lim)
    ensures var x := eff.decay * pEff / 65536;
            var den := 65536 + x + x * x / 65536 / 2;
            && den > 0
            && var wake := lim.minWake + (lim.maxWake - lim.minWake) * (0x1_0000_0000 / den) / 65536;
               Map(a, vel, thScl, lDem, pEff, cfg, eff, lim).wake ==
                 if a.wake then (wake * 1_000_000 / 65536 + 32768) / 65536 * 65536 else 0
  {
    hide SanQuant, SanU64, Lat, ThermLat, Gran, Wakeup, Migration, Walt, Uclamp;
    WakeupIs(pEff, eff, lim);
    WakeupMono(pEff, pEff, eff, lim);
    QuantumIs(Wakeup(pEff, eff, lim), lim.maxWake);
  }

  /** The migration cost written: the squared free share, halved at velocities of 25 and more. */
  lemma CostIs(a: Active, vel: q16, thScl: q16, lDem: q16, pEff: q16, cfg: Cfg, eff: Eff, lim: Lim)
    requires 0 <= pEff && Ordered(lim)
    ensures var free := 65536 - Min(pEff / 100, 65536);
            var cost := lim.minMig + (lim.maxMig - lim.minMig) * (free * free / 65536) / 65536;
            var slow := 65536 - Min(Abs(vel) / 25, 65536) / 2;
            var mig := Max(lim.minMig, Min(lim.maxMig, cost * slow / 65536));
            Map(a, vel, thScl, lDem, pEff, cfg, eff, lim).mig ==
              if a.mig then (mig * 1_000_000 / 65536 + 32768) / 65536 * 65536 else 0
  {
    hide SanQuant, SanU64, Lat, ThermLat, Gran, Wakeup, Migration, Walt, Uclamp, Min, Max;
    MigrationIs(vel, pEff, lim);
    MigrationMono(vel, pEff, pEff, lim);
    QuantumIs(Migration(vel, pEff, lim), lim.minMig);
  }

  /** The initial load share written: 10 plus 30 times the squared share of 100, to the nearest whole. */
  lemma ShareWrittenIs(a: Active, vel: q16, thScl: q16, lDem: q16, pEff: q16, cfg: Cfg, eff: Eff, lim: Lim)
    requires 0 <= pEff && Ordered(lim)
    ensures var r := Min(pEff / 100, 65536);
            Map(a, vel, thScl, lDem, pEff, cfg, eff, lim).walt ==
              if a.walt then (10 * 65536 + 30 * (r * r / 65536) + 32768) / 65536 else 0
  {
    hide SanQuant, Lat, ThermLat, Gran, Wakeup, Migration, Walt, Uclamp, Min;
    WaltIs(pEff, lim);
    WaltMono(pEff, pEff, lim);
    WholeIs(Walt(pEff, lim), Whole(lim.minWalt));
  }

  lemma UclampValueIs(thScl: q16, pEff: q16, cfg: Cfg, eff: Eff, lim: Lim)
    requires 0 <= pEff <= P_MAX && 0 <= thScl <= ONE && EffInRange(eff) && InBand(cfg) && Ordered(lim)
    ensures var z := cfg.uclampK * (pEff - eff.uclMid) / 65536;
            var sig := (TruncDiv(z * 65536, 65536 + Abs(z)) + 65536) / 2;
            Uclamp(pEff, thScl, cfg, eff, lim) == (lim.maxUcl * sig / 65536) * thScl / 65536
  {
    hide Uclamp, Soft, SigArg, TruncDiv, Mul, Abs;
    UclampIs(pEff, thScl, cfg, eff, lim);
    SigIs(pEff, cfg.uclampK, eff.uclMid);
    var sig := (Soft(SigArg(pEff, cfg.uclampK, eff.uclMid)) + ONE) / 2;
    ThrottledIs(lim.maxUcl, sig, thScl);
  }

  lemma MulIs(a: int, b: int)
    ensures Mul(a, b) == a * b / 65536
  {
  }

  lemma ThrottledIs(cap: int, sig: int, thScl: int)
    ensures Mul(Mul(cap, sig), thScl) == (cap * sig / 65536) * thScl / 65536
  {
  }

  /** The utilisation clamp written: the softsign share of the cap, throttled by the thermal scale, to the nearest
      whole. */
  lemma ClampWrittenIs(a: Active, vel: q16, thScl: q16, lDem: q16, pEff: q16, cfg: Cfg, eff: Eff, lim: Lim)
    requires 0 <= pEff <= P_MAX && 0 <= thScl <= ONE && EffInRange(eff) && InBand(cfg) && Ordered(lim)
    ensures var z := cfg.uclampK * (pEff - eff.uclMid) / 65536;
            var sig := (TruncDiv(z * 65536, 65536 + Abs(z)) + 65536) / 2;
            Map(a, vel, thScl, lDem, pEff, cfg, eff, lim).ucl ==
              if a.ucl then ((lim.maxUcl * sig / 65536) * thScl / 65536 + 32768) / 65536 else 0
  {
    UclampValueIs(thScl, pEff, cfg, eff, lim);
    UclampMono(pEff, pEff, thScl, cfg, eff, lim);
    hide SanQuant, SanU64, Lat, ThermLat, Gran, Wakeup, Migration, Walt, Uclamp, TruncDiv, Mul, Abs;
    WholeIs(Uclamp(pEff, thScl, cfg, eff, lim), Whole(lim.minUcl));
  }

  lemma WholeIs(v: q16, fallback: u64)
    requires 0 <= v <= 1024 * ONE
    ensures SanU64(v, fallback) == (v + 32768) / 65536
  {
  }

  // ----- the demand of a tick, over runs

  /** The demand part of a governor tick (calc_demand of src/core/gov.c, behind its two polls). Whatever the
      state and the sample are, the demand is in [0, 500]. With the thermal scale in [0.1, 1] and the baseline in
      [0, 100] the pressure is in its range, and for samples and rates in range the step is the exact model. */
  method CalcDemand(st: LoadState, batLvl: q16, thScl: q16, avg300: q16, dtReal: q16,
                    cur: q16, vel: q16, nis: q16, surgeThresh: q16)
    returns (lDem: q16, pEff: q16, ghost inp: Input)
    requires 0 <= st.prevInteg <= 97 * ONE
    modifies st`psiVal, st`rate, st`prevInteg, st`firstRun, st`eff
    ensures st.eff == UpdEff(batLvl, thScl, avg300) && 0 <= st.prevInteg <= 97 * ONE
    ensures inp.tgtPsi == cur && inp.vel == vel && inp.dtSafe == Clamp(dtReal, 1, DT_SAFE)
    ensures inp.thermScale == thScl && inp.trendFact == TrendGain(vel)
    ensures inp.integ == st.prevInteg == Depletion(batLvl)
    ensures inp.integDt == if old(st.firstRun) || dtReal <= 0 then 0
                           else TruncDiv((inp.integ - old(st.prevInteg)) * 65536, 5 * 65536)
    ensures inp.structBreak <==> nis > st.eff.nisThresh
    ensures st.Value() == MachineStep(old(st.psiVal), old(st.rate), inp, st.eff, surgeThresh)
    ensures lDem == st.psiVal && 0 <= lDem <= PSI_MAX && pEff == Pressure(lDem, vel, st.eff)
    ensures TH_MIN <= thScl <= ONE && 0 <= avg300 <= 100 * ONE ==> EffInRange(st.eff) && lDem <= pEff <= P_MAX
    ensures TH_MIN <= thScl <= ONE && 0 <= avg300 <= 100 * ONE && 0 <= cur <= PSI_MAX && Abs(vel) <= 5000 * ONE &&
            0 <= old(st.psiVal) <= PSI_MAX && Abs(old(st.rate)) <= 16000 * ONE ==>
              && InRange(old(st.Value()), inp)
              && st.Value() == Demand(old(st.Value()), inp, st.eff, surgeThresh)
              && 1000 * Abs(st.rate) <= 1000 * Abs(old(st.rate)) + 95 * Abs(vel) + 1000 * 3200 * ONE
  {
    ghost var before := st.Value();
    assert before == Load(st.psiVal, st.rate);
    hide *;
    st.eff := UpdEff(batLvl, thScl, avg300);
    lDem, inp := StepLoad(st, batLvl, thScl, dtReal, cur, vel, nis, surgeThresh);
    pEff := EffPress(lDem, TrendGain(vel), st.eff);
    PressureUnfolds(lDem, vel, st.eff);
    SafeStep(dtReal);
    DemandRanges(before, inp, batLvl, thScl, avg300, surgeThresh, lDem);
  }

  /** The ranges of a tick's demand, pressure and rate. */
  lemma DemandRanges(st: Load, inp: Input, batLvl: q16, thScl: q16, avg300: q16, surgeThresh: q16, lDem: q16)
    requires -0x8000_0000 <= st.psi <= 0x7FFF_FFFF && -0x8000_0000 <= st.rate <= 0x7FFF_FFFF
    requires 1 <= inp.dtSafe <= DT_SAFE && inp.trendFact == TrendGain(inp.vel)
    requires 0 <= inp.integ <= 97 * ONE && Abs(inp.integDt) <= 20 * ONE && 0 <= lDem <= PSI_MAX
    ensures var eff := UpdEff(batLvl, thScl, avg300);
            TH_MIN <= thScl <= ONE && 0 <= avg300 <= 100 * ONE ==>
              EffInRange(eff) && lDem <= Pressure(lDem, inp.vel, eff) <= P_MAX
    ensures var eff := UpdEff(batLvl, thScl, avg300);
            TH_MIN <= thScl <= ONE && 0 <= avg300 <= 100 * ONE && 0 <= inp.tgtPsi <= PSI_MAX &&
            Abs(inp.vel) <= 5000 * ONE && 0 <= st.psi <= PSI_MAX && Abs(st.rate) <= 16000 * ONE ==>
              && EffInRange(eff) && InRange(st, inp)
              && MachineStep(st.psi, st.rate, inp, eff, surgeThresh) == Demand(st, inp, eff, surgeThresh)
              && 1000 * Abs(MachineStep(st.psi, st.rate, inp, eff, surgeThresh).rate)
                 <= 1000 * Abs(st.rate) + 95 * Abs(inp.vel) + 1000 * 3200 * ONE
  {
    hide UpdEff, Pressure, MachineStep, Demand, InRange, EffInRange, TrendGain;
    if TH_MIN <= thScl <= ONE && 0 <= avg300 <= 100 * ONE {
      UpdEffInRange(batLvl, thScl, avg300);
      PressureRange(lDem, lDem, inp.vel, UpdEff(batLvl, thScl, avg300));
      if 0 <= inp.tgtPsi <= PSI_MAX && Abs(inp.vel) <= 5000 * ONE {
        ExactStep(st, inp, UpdEff(batLvl, thScl, avg300), surgeThresh);
      }
    }
  }

  /** A step from a state in band on inputs in range is the exact model. */
  lemma ExactStep(st: Load, inp: Input, eff: Eff, surgeThresh: q16)
    requires -0x8000_0000 <= st.psi <= 0x7FFF_FFFF && -0x8000_0000 <= st.rate <= 0x7FFF_FFFF
    requires EffInRange(eff) && 0 <= inp.tgtPsi <= PSI_MAX
    requires Abs(inp.vel) <= 5000 * ONE && 1 <= inp.dtSafe <= DT_SAFE && inp.trendFact == TrendGain(inp.vel)
    requires 0 <= inp.integ <= 97 * ONE && Abs(inp.integDt) <= 20 * ONE
    ensures 0 <= st.psi <= PSI_MAX && Abs(st.rate) <= 16000 * ONE ==>
              && InRange(st, inp)
              && MachineStep(st.psi, st.rate, inp, eff, surgeThresh) == Demand(st, inp, eff, surgeThresh)
              && 1000 * Abs(MachineStep(st.psi, st.rate, inp, eff, surgeThresh).rate)
                 <= 1000 * Abs(st.rate) + 95 * Abs(inp.vel) + 1000 * 3200 * ONE
  {
    if 0 <= st.psi <= PSI_MAX && Abs(st.rate) <= 16000 * ONE {
      StepInRange(st, inp);
      MachineIsDemand(st.psi, st.rate, inp, eff, surgeThresh);
      DemandBounds(st, inp, eff, surgeThresh);
    }
  }

  lemma SafeStep(dt: q16)
    ensures 1 <= Clamp(dt, 1, DT_SAFE) <= DT_SAFE
  {
  }

  lemma PressureUnfolds(lDem: q16, vel: q16, eff: Eff)
    ensures Pressure(lDem, vel, eff) == EffPress(lDem, TrendGain(vel), eff)
  {
  }

  /** The pressure of a tick: its demand, amplified by the trend gain of its own velocity. */
  lemma PressureIs(lDem: q16, vel: q16, eff: Eff)
    requires 0 <= lDem <= PSI_MAX && EffInRange(eff)
    ensures Pressure(lDem, vel, eff) == lDem * (65536 + TrendGain(vel) * eff.trendAmp / 65536) / 65536
  {
    hide AlgSig;
    AlgSigRange(vel);
    hide EffPress;
    EffPressIs(lDem, TrendGain(vel), eff);
  }

  lemma StepInRange(st: Load, inp: Input)
    requires 0 <= st.psi <= PSI_MAX && Abs(st.rate) <= 16000 * ONE && 0 <= inp.tgtPsi <= PSI_MAX
    requires Abs(inp.vel) <= 5000 * ONE && 1 <= inp.dtSafe <= DT_SAFE && inp.trendFact == TrendGain(inp.vel)
    requires 0 <= inp.integ <= 97 * ONE && Abs(inp.integDt) <= 20 * ONE
    ensures InRange(st, inp)
  {
    hide AlgSig;
    AlgSigRange(inp.vel);
  }

  /** The integrator and the step of the load model. */
  method StepLoad(st: LoadState, batLvl: q16, thScl: q16, dtReal: q16, cur: q16, vel: q16, nis: q16, surgeThresh: q16)
    returns (lDem: q16, ghost inp: Input)
    requires 0 <= st.prevInteg <= 97 * ONE
    modifies st`psiVal, st`rate, st`prevInteg, st`firstRun
    ensures 0 <= st.prevInteg <= 97 * ONE && Abs(inp.integDt) <= 20 * ONE && st.eff == old(st.eff)
    ensures inp.tgtPsi == cur && inp.vel == vel && inp.dtSafe == Clamp(dtReal, 1, DT_SAFE)
    ensures inp.thermScale == thScl && inp.trendFact == TrendGain(vel)
    ensures inp.integ == st.prevInteg == Depletion(batLvl)
    ensures inp.integDt == if old(st.firstRun) || dtReal <= 0 then 0
                           else TruncDiv((inp.integ - old(st.prevInteg)) * 65536, 5 * 65536)
    ensures inp.structBreak <==> nis > st.eff.nisThresh
    ensures st.Value() == MachineStep(old(st.psiVal), old(st.rate), inp, st.eff, surgeThresh)
    ensures lDem == st.psiVal && 0 <= lDem <= PSI_MAX
  {
    hide Demand, Depletion, MachineStep, TrendGain, TruncDiv, InRange, EffInRange;
    var dtSafe := Clamp(dtReal, 1, DT_SAFE);
    var i, iDt := st.UpdIntg(batLvl, dtReal);
    var dIn := Input(cur, vel, dtSafe, thScl, TrendGain(vel), i, iDt, nis > st.eff.nisThresh);
    inp := dIn;
    lDem := st.CalcLoadDemand(dIn, surgeThresh);
  }

  /** At every tick of every run of demand steps, from any state in band and with any inputs, rates and
      velocities so far, the values of that tick are in the bands of the tuned limits. */
  lemma EveryTick(core: i32, freqKhz: i32, rel: q16, rat: q16, psi: q16, rate: q16, samples: seq<Sample>, k: nat,
                  batLvl: q16, thScl: q16, avg300: q16, act: Active, vel: q16)
    requires k <= |samples| && 0 <= psi <= PSI_MAX && TH_MIN <= thScl <= ONE && 0 <= avg300 <= 100 * ONE
    ensures var lim := if core <= 0 || freqKhz <= 0 then DEFAULT_LIM
                       else Limits(DEFAULT_LIM, HeuristicCap(core, freqKhz / 1000));
            var eff := UpdEff(batLvl, thScl, avg300);
            var l := LoadDemand.Run(psi, rate, samples[..k]).psi;
            var cfg := Configs(DEFAULT_CFG, rel, rat);
            && 0 <= l <= PSI_MAX && Ordered(lim)
            && InBands(act, Map(act, vel, thScl, l, Pressure(l, vel, eff), cfg, eff, lim), lim)
  {
    RunInBand(psi, rate, samples, k);
    hide LoadDemand.Run, UpdEff, Limits, Configs, Map, Pressure, HeuristicCap, InBands, Ordered;
    var l: q16 := LoadDemand.Run(psi, rate, samples[..k]).psi;
    EndToEnd(core, freqKhz, rel, rat, batLvl, thScl, thScl, avg300, act, vel, l, l);
  }

  // ----- writing the six nodes

  /** The clock and the outcome of one write. */
  datatype Io = Io(tCheck: nat, tAfter: nat, ok: bool)

  /** Everything ever written through the caches fits 32 bits, and a node never written is untouched. */
  ghost predicate Small(s: Restore.Sinks)
    reads s, s.kernel, s.caches
  {
    forall i :: 0 <= i < |s.caches| ==>
      var c := s.caches[i];
      if c.last == Sysfs.UNSET then c.active ==> c.fd in s.kernel.files && s.kernel.files[c.fd] == c.boot
      else c.last < TWO32
  }

  function Checks(): (s: seq<Sysfs.Chk>)
    ensures |s| == Restore.NR_SINKS
    ensures forall i :: 0 <= i < |s| && s[i].Rel? ==> s[i].tol <= 1000
  {
    [CHK_LAT, CHK_GRAN, CHK_WAKE, CHK_MIG, CHK_WALT, CHK_UCL]
  }

  function Values(m: Targets): (s: seq<u64>)
    ensures |s| == Restore.NR_SINKS
  {
    [m.lat, m.gran, m.wake, m.mig, m.walt, m.ucl]
  }

  /** An active node without a pending failure is within the tolerance of the value asked for. */
  ghost predicate Reached(c: Sysfs.Cache, chk: Sysfs.Chk, value: u64)
    reads c, c.kernel
  {
    c.active && c.fails == 0 ==>
      c.fd in c.kernel.files && 0 <= c.kernel.files[c.fd] < TWO32 && Sysfs.Within(chk, c.kernel.files[c.fd], value)
  }

  lemma SettledReached(c: Sysfs.Cache, chk: Sysfs.Chk, value: u64)
    requires Restore.Settled(c, chk, value) && value < TWO32
    requires c.last == Sysfs.UNSET || c.last < TWO32
    requires chk.Rel? ==> chk.tol <= 1000
    ensures Reached(c, chk, value)
  {
    if c.active && c.fails == 0 {
      if chk.Rel? {
        MulBounds(c.last, TWO32, chk.tol, 1000);
      }
      Sysfs.NotExceeding(chk, c.last, value);
    }
  }

  function ActiveOf(s: Restore.Sinks): Active
    requires |s.caches| == Restore.NR_SINKS
    reads s, s.caches
  {
    Active(s.caches[0].active, s.caches[1].active, s.caches[2].active,
           s.caches[3].active, s.caches[4].active, s.caches[5].active)
  }

  lemma BandsSmall(a: Active, m: Targets, lim: Lim)
    requires Ordered(lim) && InBands(a, m, lim)
    ensures forall i :: 0 <= i < Restore.NR_SINKS ==> Values(m)[i] < TWO32
  {
  }

  ghost predicate Ready(s: Restore.Sinks)
    reads s, s.kernel, s.caches, s.rsTbl
  {
    s.Armed() && Small(s)
  }

  /** The first n nodes are where the mapping wants them. */
  ghost predicate ReachedUpTo(s: Restore.Sinks, m: Targets, n: nat)
    requires n <= Restore.NR_SINKS && s.Valid()
    reads s, s.kernel, s.caches
  {
    forall i :: 0 <= i < n ==> Reached(s.caches[i], Checks()[i], Values(m)[i])
  }

  /** A cache and the node behind it. */
  ghost function PairOf(c: Sysfs.Cache): Sysfs.Pair
    reads c, c.kernel
  {
    Sysfs.Pair(c.Value(), if c.fd in c.kernel.files then c.kernel.files[c.fd] else 0)
  }

  ghost function Pairs(s: Restore.Sinks): (p: seq<Sysfs.Pair>)
    requires s.Valid()
    reads s, s.kernel, s.caches
    ensures |p| == Restore.NR_SINKS && forall i :: 0 <= i < |p| ==> p[i].core.fails <= 7
  {
    seq(Restore.NR_SINKS, i requires 0 <= i < |s.caches| reads s, s.kernel, s.caches => PairOf(s.caches[i]))
  }

  /** apply_mapping: each open node takes one debounced, unforced call for the mapped value with its own tolerance
      (10, 10 and 15 percent, 50000, 5 and 32). So it is brought within that of the value, or its write failed and
      backs off; whatever happens the crash hook stays armed. */
  method ApplyMapping(s: Restore.Sinks, vel: q16, thScl: q16, lDem: q16, pEff: q16, cfg: Cfg, eff: Eff, lim: Lim,
                      io: seq<Io>)
    requires Ready(s) && |io| == Restore.NR_SINKS
    requires 0 <= pEff <= P_MAX && 0 <= lDem && 0 <= thScl <= ONE
    requires EffInRange(eff) && InBand(cfg) && Ordered(lim)
    modifies s.kernel, s.caches
    ensures Ready(s) && Restore.Views(s.caches) == old(Restore.Views(s.caches))
    ensures ReachedUpTo(s, Map(old(ActiveOf(s)), vel, thScl, lDem, pEff, cfg, eff, lim), Restore.NR_SINKS)
    ensures var m := Map(old(ActiveOf(s)), vel, thScl, lDem, pEff, cfg, eff, lim);
            var wanted := [m.lat, m.gran, m.wake, m.mig, m.walt, m.ucl];
            var chks := [Sysfs.Rel(100), Sysfs.Rel(100), Sysfs.Rel(150),
                         Sysfs.Abs_(50000), Sysfs.Abs_(5), Sysfs.Abs_(32)];
            forall i :: 0 <= i < 6 && s.caches[i].active ==>
              Pairs(s)[i] == Sysfs.Call(old(Pairs(s))[i],
                                        Sysfs.Req(wanted[i], false, chks[i], io[i].tCheck, io[i].tAfter, io[i].ok))
  {
    hide Map, Values, Checks, Stepped, Pairs, ReachedUpTo, Sysfs.Call;
    var a := ActiveOf(s);
    MapInBands(a, vel, thScl, lDem, pEff, cfg, eff, lim);
    BandsSmall(a, Map(a, vel, thScl, lDem, pEff, cfg, eff, lim), lim);
    var targets := MapValues(a, vel, thScl, lDem, pEff, cfg, eff, lim);
    hide Ready, ActiveOf;
    ghost var before := Pairs(s);
    WriteAll(s, targets, io);
    SteppedIs(s.caches, before, Pairs(s), targets, io);
  }

  /** The values of the open nodes, each computed only if it is needed. */
  method MapValues(a: Active, vel: q16, thScl: q16, lDem: q16, pEff: q16, cfg: Cfg, eff: Eff, lim: Lim)
    returns (m: Targets)
    ensures m == Map(a, vel, thScl, lDem, pEff, cfg, eff, lim)
  {
    hide SanQuant, SanU64, Lat, ThermLat, Gran, Wakeup, Migration, Walt, Uclamp;
    var vLat, vGran, vWake, vMig, vWlt, vUcl := 0, 0, 0, 0, 0, 0;
    var lat := 0;
    if a.lat || a.gran {
      lat := Lat(pEff, lDem, ThermLat(thScl, lim), cfg, eff, lim);
      if a.lat {
        vLat := SanQuant(lat, lim.maxLat, QUANT_NS);
      }
    }
    if a.gran {
      vGran := SanQuant(Gran(lat, cfg, lim), lim.maxGran, QUANT_NS);
    }
    if a.wake {
      vWake := SanQuant(Wakeup(pEff, eff, lim), lim.maxWake, QUANT_NS);
    }
    if a.mig {
      vMig := SanQuant(Migration(vel, pEff, lim), lim.minMig, QUANT_NS);
    }
    if a.walt {
      vWlt := SanU64(Walt(pEff, lim), Whole(lim.minWalt));
    }
    if a.ucl {
      vUcl := SanU64(Uclamp(pEff, thScl, cfg, eff, lim), Whole(lim.minUcl));
    }
    m := Targets(vLat, vGran, vWake, vMig, vWlt, vUcl);
  }

  /** The six requests written out. */
  lemma SteppedIs(caches: seq<Sysfs.Cache>, before: seq<Sysfs.Pair>, now: seq<Sysfs.Pair>, m: Targets, io: seq<Io>)
    requires |caches| == |before| == |now| == |io| == Restore.NR_SINKS
    requires forall i :: 0 <= i < |before| ==> before[i].core.fails <= 7
    requires Stepped(caches, before, now, m, io, Restore.NR_SINKS)
    ensures var wanted := [m.lat, m.gran, m.wake, m.mig, m.walt, m.ucl];
            var chks := [Sysfs.Rel(100), Sysfs.Rel(100), Sysfs.Rel(150),
                         Sysfs.Abs_(50000), Sysfs.Abs_(5), Sysfs.Abs_(32)];
            forall i :: 0 <= i < 6 && caches[i].active ==>
              now[i] == Sysfs.Call(before[i],
                                   Sysfs.Req(wanted[i], false, chks[i], io[i].tCheck, io[i].tAfter, io[i].ok))
  {
    hide Sysfs.Call;
  }

  /** The six updates of apply_mapping. */
  method WriteAll(s: Restore.Sinks, m: Targets, io: seq<Io>)
    requires Ready(s) && |io| == Restore.NR_SINKS
    requires forall i :: 0 <= i < Restore.NR_SINKS ==> Values(m)[i] < TWO32
    modifies s.kernel, s.caches
    ensures Ready(s) && ReachedUpTo(s, m, Restore.NR_SINKS)
    ensures Restore.Views(s.caches) == old(Restore.Views(s.caches))
    ensures Stepped(s.caches, old(Pairs(s)), Pairs(s), m, io, Restore.NR_SINKS)
  {
    hide Sysfs.Call, Request;
    ghost var before := Pairs(s);
    assert Stepped(s.caches, before, Pairs(s), m, io, 0);
    assert s.Valid() && ReachedUpTo(s, m, 0);
    hide Ready, ReachedUpTo, Values, Restore.Sinks.Valid, Stepped, Pairs, Restore.Views;
    WriteThree(s, 0, m, io, before);
    WriteThree(s, 3, m, io, before);
  }

  method WriteThree(s: Restore.Sinks, i: nat, m: Targets, io: seq<Io>, ghost before: seq<Sysfs.Pair>)
    requires i + 3 <= Restore.NR_SINKS == |io| == |before|
    requires forall k :: 0 <= k < Restore.NR_SINKS ==> Values(m)[k] < TWO32 && before[k].core.fails <= 7
    requires Ready(s) && s.Valid() && ReachedUpTo(s, m, i) && Stepped(s.caches, before, Pairs(s), m, io, i)
    modifies s.kernel, s.caches
    ensures Ready(s) && s.Valid() && ReachedUpTo(s, m, i + 3)
    ensures Stepped(s.caches, before, Pairs(s), m, io, i + 3)
    ensures Restore.Views(s.caches) == old(Restore.Views(s.caches))
  {
    hide Ready, ReachedUpTo, Values, Restore.Sinks.Valid, Stepped, Pairs, Restore.Views;
    WriteOne(s, i, m, io, before);
    WriteOne(s, i + 1, m, io, before);
    WriteOne(s, i + 2, m, io, before);
  }

  /** The first n caches have taken the call of this tick, the others are as they were. */
  ghost predicate Stepped(caches: seq<Sysfs.Cache>, before: seq<Sysfs.Pair>, now: seq<Sysfs.Pair>, m: Targets,
                          io: seq<Io>, n: nat)
    requires |caches| == |before| == |now| == |io| == Restore.NR_SINKS
    requires forall i :: 0 <= i < |before| ==> before[i].core.fails <= 7
    reads caches
  {
    forall i :: 0 <= i < Restore.NR_SINKS && caches[i].active ==>
      now[i] == if i < n then Sysfs.Call(before[i], Request(m, io, i)) else before[i]
  }

  function Request(m: Targets, io: seq<Io>, i: nat): Sysfs.Req
    requires i < Restore.NR_SINKS == |io|
  {
    Sysfs.Req(Values(m)[i], false, Checks()[i], io[i].tCheck, io[i].tAfter, io[i].ok)
  }

  /** One of them: the ones already done stay reached. */
  method WriteOne(s: Restore.Sinks, i: nat, m: Targets, io: seq<Io>, ghost before: seq<Sysfs.Pair>)
    requires i < Restore.NR_SINKS == |io| == |before| && Values(m)[i] < TWO32
    requires forall k :: 0 <= k < |before| ==> before[k].core.fails <= 7
    requires Ready(s) && s.Valid() && ReachedUpTo(s, m, i) && Stepped(s.caches, before, Pairs(s), m, io, i)
    modifies s.kernel, s.caches
    ensures Ready(s) && s.Valid() && ReachedUpTo(s, m, i + 1)
    ensures Stepped(s.caches, before, Pairs(s), m, io, i + 1)
    ensures Restore.Views(s.caches) == old(Restore.Views(s.caches))
  {
    hide Sysfs.Within, Sysfs.Exceeds, Sysfs.Attempts, Sysfs.After, Checks, Values;
    ghost var v := Restore.Views(s.caches);
    s.Update(i, Values(m)[i], false, Checks()[i], io[i].tCheck, io[i].tAfter, io[i].ok);
    SettledReached(s.caches[i], Checks()[i], Values(m)[i]);
    forall j | 0 <= j < i
      ensures Reached(s.caches[j], Checks()[j], Values(m)[j])
    {
      assert v[i] == Restore.View(s.caches[i]) && v[j] == Restore.View(s.caches[j]);
      assert old(Reached(s.caches[j], Checks()[j], Values(m)[j]));
    }
    forall j | 0 <= j < Restore.NR_SINKS && s.caches[j].active
      ensures Pairs(s)[j] == if j < i + 1 then Sysfs.Call(before[j], Request(m, io, j)) else before[j]
    {
      assert v[i] == Restore.View(s.caches[i]) && v[j] == Restore.View(s.caches[j]);
      assert old(Pairs(s)[j]) == if j < i then Sysfs.Call(before[j], Request(m, io, j)) else before[j];
    }
  }

  // ----- a whole life of the six nodes

  /** What a tick that remaps hands to apply_mapping, with the outcome of its six writes. */
  datatype Tick = Tick(vel: q16, thScl: q16, lDem: q16, pEff: q16, eff: Eff, io: seq<Io>)

  predicate TickInRange(t: Tick) {
    0 <= t.pEff <= P_MAX && 0 <= t.lDem && 0 <= t.thScl <= ONE && EffInRange(t.eff) && |t.io| == Restore.NR_SINKS
  }

  /** From freshly opened caches, whose nodes hold `boot`, through any run of ticks with any writes failing,
      to the teardown: a node with a captured base whose last write succeeds is back at its boot value if
      and only if that value fits 32 bits or nothing was ever written. */
  method Life(s: Restore.Sinks, ticks: seq<Tick>, cfg: Cfg, lim: Lim, ok: int -> bool)
    requires Ready(s) && InBand(cfg) && Ordered(lim)
    requires forall t :: t in ticks ==> TickInRange(t)
    requires forall i :: 0 <= i < Restore.NR_SINKS ==> s.caches[i].last == Sysfs.UNSET
    modifies s, s.kernel, s.caches
    ensures s.Valid() && s.rsCnt == 0 && Restore.Views(s.caches) == old(Restore.Views(s.caches))
    ensures forall i :: 0 <= i < Restore.NR_SINKS ==> BackAtBoot(s.caches[i], ok(s.caches[i].fd))
  {
    for k := 0 to |ticks|
      invariant Ready(s) && Restore.Views(s.caches) == old(Restore.Views(s.caches))
    {
      var t := ticks[k];
      assert t in ticks;
      ApplyMapping(s, t.vel, t.thScl, t.lDem, t.pEff, cfg, t.eff, lim, t.io);
    }
    Teardown(s, ok);
  }

  ghost predicate BackAtBoot(c: Sysfs.Cache, ok: bool)
    reads c, c.kernel
  {
    c.active && c.hasBase && ok ==>
      && c.fd in c.kernel.files
      && (c.kernel.files[c.fd] == c.boot <==> c.last == Sysfs.UNSET || c.boot <= I32_MAX)
  }

  method Teardown(s: Restore.Sinks, ok: int -> bool)
    requires Ready(s)
    modifies s, s.kernel, s.caches
    ensures s.Valid() && s.rsCnt == 0 && Restore.Views(s.caches) == old(Restore.Views(s.caches))
    ensures forall i :: 0 <= i < Restore.NR_SINKS ==> BackAtBoot(s.caches[i], ok(s.caches[i].fd))
  {
    ghost var v := Restore.Views(s.caches);
    s.RestoreAll(ok);
    forall i | 0 <= i < Restore.NR_SINKS
      ensures BackAtBoot(s.caches[i], ok(s.caches[i].fd))
    {
      assert v[i] == Restore.View(s.caches[i]) == old(Restore.View(s.caches[i]));
    }
  }
}
