/** Hardware limits: src/policy/tune.c and the static defaults of src/policy/config.c. */
module Tune {
  import opened Machine
  import opened FixedPoint

  datatype Lim = Lim(
    minLat: q16, maxLat: q16, minGran: q16, maxGran: q16, minWake: q16, maxWake: q16,
    minMig: q16, maxMig: q16, minWalt: q16, maxWalt: q16, minUcl: q16, maxUcl: q16)

  datatype Cfg = Cfg(
    latGranRat: q16, uclampK: q16, sigmoidK: q16, surgeThresh: q16, transRate: q16, transDiff: q16, transPoll: q16)

  const DEFAULT_LIM: Lim := Lim(
    8 * ONE, 20 * ONE, 163840, 425984, 98304, 425984, 13107, 39321, 10 * ONE, 40 * ONE, 0, 384 * ONE)

  const DEFAULT_CFG: Cfg := Cfg(22282, 12124, 4718, 1146880, 7536, 38010, 50 * ONE)

  /** INT_TO_Q16 of a run-time value. */
  function IntQ16(i: int): q16 { W32(i * ONE) }

  /** Capability in [0, 1]: 40% core count against 8 cores, 60% frequency against 3500 MHz. */
  function HeuristicCap(core: i32, mhz: i32): q16 {
    var cVal := IntQ16(if core > 0 then core else 8);
    var fVal := IntQ16(if mhz > 0 then mhz else 2000);
    var rCore := Clamp(Q16Div(cVal, 8 * ONE), 0, ONE);
    var rFreq := Clamp(Q16Div(fVal, 3500 * ONE), 0, ONE);
    Clamp(Add32(Q16Mul(rCore, 26214), Q16Mul(rFreq, 39321)), 0, ONE)
  }

  /** Interpolate between two ends and clamp to the interval they span. */
  function Between(from: q16, to: q16, v: q16): q16 {
    Clamp(Lerp(from, to, v), if from <= to then from else to, if from <= to then to else from)
  }

  /** The limits for a capability. */
  function Limits(lim: Lim, cap: q16): Lim {
    lim.(
      maxUcl := Between(384 * ONE, 1024 * ONE, cap),
      minLat := Between(20 * ONE, 4 * ONE, cap),
      maxLat := Between(25 * ONE, 12 * ONE, cap),
      minGran := Between(425984, 98304, cap),
      maxGran := Between(10 * ONE, 4 * ONE, cap),
      minWake := Between(3 * ONE, ONE, cap),
      maxWake := Between(8 * ONE, 4 * ONE, cap),
      minMig := Between(39321, 13107, cap),
      maxMig := Between(78643, 39321, cap))
  }

  /** The global limit and configuration tables, assigned field by field at boot. */
  class Policy {
    var lim: Lim
    var cfg: Cfg

    constructor ()
      ensures lim == DEFAULT_LIM && cfg == DEFAULT_CFG
    {
      lim, cfg := DEFAULT_LIM, DEFAULT_CFG;
    }

    /** pg_tune_limits: unreadable hardware leaves the table as it is. */
    method TuneLimits(core: i32, freqKhz: i32)
      modifies `lim
      ensures lim == if core <= 0 || freqKhz <= 0 then old(lim)
                     else Limits(old(lim), HeuristicCap(core, freqKhz / 1000))
    {
      if core <= 0 || freqKhz <= 0 {
        return;
      }
      var cap := HeuristicCap(core, freqKhz / 1000);
      hide Lerp, HeuristicCap;
      var val := Lerp(384 * ONE, 1024 * ONE, cap);
      lim := lim.(maxUcl := Clamp(val, 384 * ONE, 1024 * ONE));
      val := Lerp(20 * ONE, 4 * ONE, cap);
      lim := lim.(minLat := Clamp(val, 4 * ONE, 20 * ONE));
      val := Lerp(25 * ONE, 12 * ONE, cap);
      lim := lim.(maxLat := Clamp(val, 12 * ONE, 25 * ONE));
      val := Lerp(425984, 98304, cap);
      lim := lim.(minGran := Clamp(val, 98304, 425984));
      val := Lerp(10 * ONE, 4 * ONE, cap);
      lim := lim.(maxGran := Clamp(val, 4 * ONE, 10 * ONE));
      val := Lerp(3 * ONE, ONE, cap);
      lim := lim.(minWake := Clamp(val, ONE, 3 * ONE));
      val := Lerp(8 * ONE, 4 * ONE, cap);
      lim := lim.(maxWake := Clamp(val, 4 * ONE, 8 * ONE));
      val := Lerp(39321, 13107, cap);
      lim := lim.(minMig := Clamp(val, 13107, 39321));
      val := Lerp(78643, 39321, cap);
      lim := lim.(maxMig := Clamp(val, 39321, 78643));
    }

    /** tune_cpu_configs, from the relative capability and the cluster ratio. */
    method TuneCpuConfigs(rel: q16, rat: q16)
      modifies `cfg
      ensures cfg == Configs(old(cfg), rel, rat)
    {
      hide Lerp;
      var val := Lerp(HALF, 13107, rel);
      cfg := cfg.(latGranRat := Clamp(val, 13107, HALF));
      val := Lerp(7864, 16384, rat);
      cfg := cfg.(uclampK := Clamp(val, 7864, 16384));
      val := Lerp(2621, 7864, rat);
      cfg := cfg.(sigmoidK := Clamp(val, 2621, 7864));
      val := Lerp(12 * ONE, 25 * ONE, rel);
      cfg := cfg.(surgeThresh := Clamp(val, 12 * ONE, 25 * ONE));
      val := Lerp(5242, 13107, rel);
      cfg := cfg.(transRate := Clamp(val, 5242, 13107));
      val := Lerp(26214, 58982, rel);
      cfg := cfg.(transDiff := Clamp(val, 26214, 58982));
    }
  }

  function Configs(cfg: Cfg, rel: q16, rat: q16): Cfg {
    cfg.(
      latGranRat := Between(HALF, 13107, rel), uclampK := Between(7864, 16384, rat),
      sigmoidK := Between(2621, 7864, rat), surgeThresh := Between(12 * ONE, 25 * ONE, rel),
      transRate := Between(5242, 13107, rel), transDiff := Between(26214, 58982, rel))
  }

  // ----- every pair is ordered, for any hardware

  /** Ordered pairs, positive values, and a minimum granularity no larger than the minimum latency. */
  predicate Ordered(l: Lim) {
    && ONE <= l.minLat <= l.maxLat <= 25 * ONE
    && ONE <= l.minGran <= l.maxGran <= 10 * ONE && l.minGran <= l.minLat
    && ONE <= l.minWake <= l.maxWake <= 8 * ONE
    && 13107 <= l.minMig <= l.maxMig <= 78643
    && l.minWalt == 10 * ONE && l.maxWalt == 40 * ONE
    && l.minUcl == 0 && 384 * ONE <= l.maxUcl <= 1024 * ONE
  }

  predicate InBand(c: Cfg) {
    && 13107 <= c.latGranRat <= HALF && 7864 <= c.uclampK <= 16384 && 2621 <= c.sigmoidK <= 7864
    && 12 * ONE <= c.surgeThresh <= 25 * ONE && 5242 <= c.transRate <= 13107 && 26214 <= c.transDiff <= 58982
  }

  lemma CapRange(core: i32, mhz: i32)
    ensures 0 <= HeuristicCap(core, mhz) <= ONE
  {
  }

  /** An interpolation with a capability in [0, 1] is exact, so its clamp never acts. */
  lemma BetweenExact(from: q16, to: q16, v: q16)
    requires 0 <= from && 0 <= to && 0 <= v <= ONE
    ensures Between(from, to, v) == from + (to - from) * v / TWO16
  {
    LerpRange(from, to, v);
  }

  /** Ends a whole number n apart: the interpolation is linear without rounding. */
  lemma BetweenWhole(from: q16, n: int, v: q16)
    requires 0 <= v <= ONE && 0 <= from && 0 <= from + n * ONE <= I32_MAX
    ensures Between(from, from + n * ONE, v) == from + n * v
  {
    BetweenExact(from, from + n * ONE, v);
    assert (n * ONE) * v == (n * v) * TWO16;
    DivUnique((n * v) * TWO16, TWO16, n * v, 0);
  }

  lemma LimitsOrdered(lim: Lim, cap: q16)
    requires 0 <= cap <= ONE && Ordered(lim)
    ensures Ordered(Limits(lim, cap))
  {
    hide Between;
    BetweenWhole(384 * ONE, 640, cap);
    BetweenWhole(20 * ONE, -16, cap);
    BetweenWhole(25 * ONE, -13, cap);
    BetweenWhole(425984, -5, cap);
    BetweenWhole(10 * ONE, -6, cap);
    BetweenWhole(3 * ONE, -2, cap);
    BetweenWhole(8 * ONE, -4, cap);
    BetweenExact(39321, 13107, cap);
    BetweenExact(78643, 39321, cap);
  }

  lemma ConfigsInBand(cfg: Cfg, rel: q16, rat: q16)
    ensures InBand(Configs(cfg, rel, rat))
  {
  }

  /** For any core count and any frequency, readable or not, the tuned table is ordered. */
  lemma TunedOrdered(core: i32, freqKhz: i32)
    ensures Ordered(DEFAULT_LIM)
    ensures Ordered(Limits(DEFAULT_LIM, HeuristicCap(core, freqKhz / 1000)))
  {
    CapRange(core, freqKhz / 1000);
    LimitsOrdered(DEFAULT_LIM, HeuristicCap(core, freqKhz / 1000));
  }

  // ----- the tables in numbers

  /** The capability of readable hardware: 0.4 of the cores, cut at 8, plus 0.6 of the clock, cut at 3500 MHz. A count
      or a clock that cannot be read counts as 8 cores or 2000 MHz. */
  lemma HeuristicCapIs(core: i32, mhz: i32)
    requires core <= 32767 && mhz <= 32767
    ensures var cores := if core > 0 then Min(core, 8) else 8;
            var clock := if mhz > 0 then Min(mhz * 65536 / 3500, 65536) else 2000 * 65536 / 3500;
            HeuristicCap(core, mhz) == cores * 8192 * 26214 / 65536 + clock * 39321 / 65536
  {
    var c: i32, f: i32 := if core > 0 then core else 8, if mhz > 0 then mhz else 2000;
    ShareOf(c, 8);
    ShareOf(f, 3500);
    CoreShare(c);
    hide Q16Div, Q16Mul, Add32, Clamp;
    Weighted(Min(c * 65536 / 8, 65536), Min(f * 65536 / 3500, 65536));
  }

  lemma CoreShare(c: int)
    requires 0 < c
    ensures Min(c * 65536 / 8, 65536) == Min(c, 8) * 8192
  {
  }

  lemma Weighted(a: q16, b: q16)
    requires 0 <= a <= ONE && 0 <= b <= ONE
    ensures Clamp(Add32(Q16Mul(a, 26214), Q16Mul(b, 39321)), 0, ONE) == a * 26214 / 65536 + b * 39321 / 65536
  {
    MulUnit(26214, a);
    MulUnit(39321, b);
    MulComm(26214, a);
    MulComm(39321, b);
  }

  lemma ShareOf(n: int, full: int)
    requires 0 < n <= 32767 && 0 < full <= 3500
    ensures Clamp(Q16Div(IntQ16(n), full * ONE), 0, ONE) == Min(n * 65536 / full, 65536)
  {
    DivTwice(n * ONE * TWO16, TWO16, full);
    DivUnique(n * ONE * TWO16, TWO16, n * ONE, 0);
    assert full * ONE == TWO16 * full;
    DivAntitone(n * ONE, 1, full);
  }

  /** The nine tuned limits, from the slowest device at capability 0 to the fastest at 1 (65536). */
  lemma LimitsAre(lim: Lim, cap: q16)
    requires 0 <= cap <= 65536
    ensures var l := Limits(lim, cap);
            && l.maxUcl == 384 * 65536 + 640 * cap
            && l.minLat == 20 * 65536 - 16 * cap && l.maxLat == 25 * 65536 - 13 * cap
            && l.minGran == 425_984 - 5 * cap && l.maxGran == 10 * 65536 - 6 * cap
            && l.minWake == 3 * 65536 - 2 * cap && l.maxWake == 8 * 65536 - 4 * cap
            && l.minMig == 39_321 + -26_214 * cap / 65536 && l.maxMig == 78_643 + -39_322 * cap / 65536
            && l.minWalt == lim.minWalt && l.maxWalt == lim.maxWalt && l.minUcl == lim.minUcl
  {
    hide Between;
    BetweenWhole(384 * ONE, 640, cap);
    BetweenWhole(20 * ONE, -16, cap);
    BetweenWhole(25 * ONE, -13, cap);
    BetweenWhole(425984, -5, cap);
    BetweenWhole(10 * ONE, -6, cap);
    BetweenWhole(3 * ONE, -2, cap);
    BetweenWhole(8 * ONE, -4, cap);
    BetweenExact(39321, 13107, cap);
    BetweenExact(78643, 39321, cap);
  }

  /** The six configured values, for ratios in [0, 1]. */
  lemma ConfigsAre(cfg: Cfg, rel: q16, rat: q16)
    requires 0 <= rel <= 65536 && 0 <= rat <= 65536
    ensures var c := Configs(cfg, rel, rat);
            && c.latGranRat == 32768 + -19_661 * rel / 65536
            && c.uclampK == 7864 + 8520 * rat / 65536 && c.sigmoidK == 2621 + 5243 * rat / 65536
            && c.surgeThresh == 12 * 65536 + 13 * rel
            && c.transRate == 5242 + 7865 * rel / 65536
            && c.transDiff == 26_214 + 32_768 * rel / 65536 && c.transPoll == cfg.transPoll
  {
    hide Between;
    BetweenExact(HALF, 13107, rel);
    BetweenExact(7864, 16384, rat);
    BetweenExact(2621, 7864, rat);
    BetweenWhole(12 * ONE, 13, rel);
    BetweenExact(5242, 13107, rel);
    BetweenExact(26214, 58982, rel);
  }

  // ----- more capable hardware never gets a slower table

  lemma CapMono(core1: i32, mhz1: i32, core2: i32, mhz2: i32)
    requires 0 < core1 <= core2 <= 32767 && 0 < mhz1 <= mhz2 <= 32767
    ensures HeuristicCap(core1, mhz1) <= HeuristicCap(core2, mhz2)
  {
    hide Q16Mul;
    RatioMono(core1, core2, 8);
    RatioMono(mhz1, mhz2, 3500);
    var a1, a2 := Clamp(Q16Div(IntQ16(core1), 8 * ONE), 0, ONE), Clamp(Q16Div(IntQ16(core2), 8 * ONE), 0, ONE);
    var b1, b2 := Clamp(Q16Div(IntQ16(mhz1), 3500 * ONE), 0, ONE), Clamp(Q16Div(IntQ16(mhz2), 3500 * ONE), 0, ONE);
    UnitOrder(a1, a2, 26214);
    UnitOrder(b1, b2, 39321);
  }

  lemma UnitOrder(a: q16, b: q16, c: q16)
    requires 0 <= a <= b <= ONE && 0 <= c <= ONE
    ensures 0 <= Q16Mul(a, c) <= Q16Mul(b, c) <= c
  {
    MulUnit(c, a);
    MulUnit(c, b);
    MulComm(a, c);
    MulComm(b, c);
    MulOrder(a, b, c);
  }

  lemma RatioMono(i: int, j: int, d: int)
    requires 0 < i <= j <= 32767 && 0 < d <= 3500
    ensures Q16Div(IntQ16(i), d * ONE) <= Q16Div(IntQ16(j), d * ONE)
    ensures 0 <= Q16Div(IntQ16(i), d * ONE)
  {
    RatioExact(i, d);
    RatioExact(j, d);
    DivMono(i * TWO16, j * TWO16, d);
    DivMono(0, i * TWO16, d);
  }

  lemma RatioExact(i: int, d: int)
    requires 0 < i <= 32767 && 0 < d <= 3500
    ensures Q16Div(IntQ16(i), d * ONE) == i * TWO16 / d
  {
    assert IntQ16(i) * TWO16 == (i * TWO16) * TWO16;
    DivTwice((i * TWO16) * TWO16, TWO16, d);
    DivUnique((i * TWO16) * TWO16, TWO16, i * TWO16, 0);
    DivAntitone(i * TWO16, 1, d);
    assert TWO16 * d == d * ONE;
  }

  lemma BetweenMono(from: q16, to: q16, v: q16, w: q16)
    requires 0 <= from && 0 <= to && 0 <= v <= w <= ONE
    ensures from <= to ==> Between(from, to, v) <= Between(from, to, w)
    ensures to <= from ==> Between(from, to, w) <= Between(from, to, v)
  {
    BetweenExact(from, to, v);
    BetweenExact(from, to, w);
    var d: int := to - from;
    if from <= to {
      MulMono(v, w, d);
      assert v * d == d * v && w * d == d * w;
      DivMono(d * v, d * w, TWO16);
    } else {
      MulMono(v, w, -d);
      assert d * w == -(w * -d) && d * v == -(v * -d);
      DivMono(d * w, d * v, TWO16);
    }
  }

  /** More cores and a higher clock shorten every time limit and raise the utilisation cap. */
  lemma LimitsMono(lim: Lim, core1: i32, mhz1: i32, core2: i32, mhz2: i32)
    requires 0 < core1 <= core2 <= 32767 && 0 < mhz1 <= mhz2 <= 32767
    ensures var a := Limits(lim, HeuristicCap(core1, mhz1));
            var b := Limits(lim, HeuristicCap(core2, mhz2));
            && b.minLat <= a.minLat && b.maxLat <= a.maxLat && b.minGran <= a.minGran && b.maxGran <= a.maxGran
            && b.minWake <= a.minWake && b.maxWake <= a.maxWake && b.minMig <= a.minMig && b.maxMig <= a.maxMig
            && a.maxUcl <= b.maxUcl
  {
    hide Between, HeuristicCap;
    var v, w := HeuristicCap(core1, mhz1), HeuristicCap(core2, mhz2);
    CapMono(core1, mhz1, core2, mhz2);
    CapRange(core1, mhz1);
    CapRange(core2, mhz2);
    BetweenMono(384 * ONE, 1024 * ONE, v, w);
    BetweenMono(20 * ONE, 4 * ONE, v, w);
    BetweenMono(25 * ONE, 12 * ONE, v, w);
    BetweenMono(425984, 98304, v, w);
    BetweenMono(10 * ONE, 4 * ONE, v, w);
    BetweenMono(3 * ONE, ONE, v, w);
    BetweenMono(8 * ONE, 4 * ONE, v, w);
    BetweenMono(39321, 13107, v, w);
    BetweenMono(78643, 39321, v, w);
  }
}
