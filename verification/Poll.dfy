/** The adaptive poll interval of src/core/poll.c. */
module Poll {
  import opened Machine
  import opened FixedPoint
  import opened Time

  const MIN_MS := 100
  const MAX_MS := 10000

  /** The generator's next state. Builds with a 128-bit type (wide) use a linear congruential generator, the
      others three xorshifts. */
  function NextRng(wide: bool, rng: u64): u64 {
    if wide then U64(U64(rng * 6364136223846793005) + 1) else Shifted(rng)
  }

  function Shifted(rng: u64): u64 { FromBits(Xorshift(ToBits(rng))) }

  function ToBits(x: u64): bv64 { x as bv64 }

  function FromBits(x: bv64): u64 { x as u64 }

  function Xorshift(x: bv64): bv64 { MixLeft(MixRight(MixLeft(x, 13), 7), 17) }

  function MixLeft(x: bv64, n: bv6): bv64 { x ^ (x << n) }

  function MixRight(x: bv64, n: bv6): bv64 { x ^ (x >> n) }

  /** The interval rounded to the nearest 50 ms, within bounds. */
  function Rounded(ivl: int, min: int, max: int): int { Clamp((ivl + 25) / 50 * 50, min, max) }

  /** Pressure predicted half a second ahead. */
  function Ahead(press: q16, vel: q16): q16 { Add32(press, Q16Mul(vel, HALF)) }

  /** The interval a tick asks for, in bounds. */
  function Wanted(cur: int, pred: q16, vel: q16, avg300: q16): int {
    var next :=
      if pred > 5 * ONE || vel > 2 * ONE then MIN_MS
      else if pred > 98304 then cur / 2
      else if avg300 < 2 * ONE then cur + 200
      else cur;
    Clamp(next, MIN_MS, MAX_MS)
  }

  /** The interval kept: a decrease always, an increase only in steps of at least 200 ms. */
  function NextCur(cur: int, pred: q16, vel: q16, avg300: q16): int {
    var want := Wanted(cur, pred, vel, avg300);
    if want < cur || want >= cur + 200 then want else cur
  }

  /** Milliseconds since the last tick, none if the clock went back. */
  function ElapsedMs(prev: Stamp, now: Stamp): nat {
    var e := DtSec(prev, now);
    if e < 0 then 0 else e * 1000 / TWO16
  }

  /** The interval after jitter: its rounded value moved by up to a twentieth, within bounds. */
  function Jittered(ivl: int, min: int, max: int, wide: bool, rng: u64): int {
    var base := Rounded(ivl, min, max);
    var amp := base * 5 / 100;
    if amp <= 0 then base else Clamp(base - amp + Noise(wide, rng, amp * 2 + 1), min, max)
  }

  /** The random number below range drawn from the next generator state. */
  function Noise(wide: bool, rng: u64, range: int): int
    requires range > 0
  {
    var x := NextRng(wide, rng);
    if wide then x * range / TWO64 else x % range
  }

  /** cur_ivl, last_wait, last_tick and rng_state, and which generator the build has. */
  datatype Poll = Poll(cur: int, wait: int, last: Stamp, rng: u64, wide: bool)

  /** What a tick sees: the clock, the pressure, the long-term baseline and the velocity. */
  datatype Tick = Tick(now: Stamp, press: q16, avg300: q16, vel: q16)

  /** More than 200 ms later than asked for. */
  predicate Late(p: Poll, now: Stamp) { ElapsedMs(p.last, now) > p.wait + 200 }

  /** One call of pg_poll_calc_next. */
  function Step(p: Poll, t: Tick): Poll {
    if Late(p, t.now) then p.(cur := MIN_MS, wait := MIN_MS, last := t.now)
    else
      var cur := NextCur(p.cur, Ahead(t.press, t.vel), t.vel, t.avg300);
      var draws := Rounded(cur, MIN_MS, MAX_MS) >= 20;
      Poll(cur, Jittered(cur, MIN_MS, MAX_MS, p.wide, p.rng), t.now,
           if draws then NextRng(p.wide, p.rng) else p.rng, p.wide)
  }

  predicate InRange(p: Poll) { MIN_MS <= p.cur <= MAX_MS && MIN_MS <= p.wait <= MAX_MS }

  /** The wait is the rounded interval give or take 5%. */
  predicate WaitsAbout(p: Poll) {
    100 * Abs(p.wait - Rounded(p.cur, MIN_MS, MAX_MS)) <= 5 * Rounded(p.cur, MIN_MS, MAX_MS)
  }

  class PollState {
    var curIvl: u32
    var lastWait: u32
    var lastTick: Stamp
    var rngState: u64
    const wide: bool

    ghost function Value(): Poll
      reads this
    {
      Poll(curIvl, lastWait, lastTick, rngState, wide)
    }

    /** pg_poll_init, seeded by the wall clock. */
    constructor (now: Stamp, wall: Stamp, wide: bool)
      ensures this.wide == wide
      ensures InRange(Value()) && curIvl == MIN_MS && lastWait == MIN_MS && lastTick == now
    {
      this.wide := wide;
      curIvl, lastWait, lastTick := MIN_MS, MIN_MS, now;
      rngState := U64(U64(wall.sec * 1_000_000_000) + wall.nsec);
    }

    method NextRandom(range: u64) returns (r: u64)
      modifies `rngState
      ensures range == 0 ==> r == 0 && rngState == old(rngState)
      ensures range > 0 ==>
        r < range && rngState == NextRng(wide, old(rngState)) && r == Noise(wide, old(rngState), range)
    {
      if range == 0 {
        return 0;
      }
      hide Shifted;
      NoiseBelow(wide, rngState, range);
      if wide {
        rngState := U64(U64(rngState * 6364136223846793005) + 1);
        r := rngState * range / TWO64;
      } else {
        rngState := NextShifted(rngState);
        r := rngState % range;
      }
    }

    /** The interval rounded and moved by at most 5%, never out of [min, max]. */
    method Jitter(ivl: u32, min: int, max: int) returns (final: int)
      requires 0 <= min <= max < TWO32
      modifies `rngState
      ensures final == Jittered(ivl, min, max, wide, old(rngState)) && min <= final <= max
      ensures 100 * Abs(final - Rounded(ivl, min, max)) <= 5 * Rounded(ivl, min, max)
      ensures rngState == if Rounded(ivl, min, max) < 20 then old(rngState) else NextRng(wide, old(rngState))
    {
      hide NextRng, Noise, Jittered, Rounded;
      JitteredNear(ivl, min, max, wide, rngState);
      var step := 50;
      var clamp := (ivl + step / 2) / step * step;
      if clamp < min {
        clamp := min;
      }
      if clamp > max {
        clamp := max;
      }
      assert clamp == Rounded(ivl, min, max) by { RoundedIs(ivl, min, max); }
      JitteredIs(ivl, min, max, wide, rngState);
      var nAmp := clamp * 5 / 100;
      if nAmp == 0 {
        return clamp;
      }
      var noise: int := NextRandom(nAmp * 2 + 1);
      if noise > nAmp {
        final := clamp + (noise - nAmp);
      } else {
        var sub := nAmp - noise;
        final := if clamp > sub then clamp - sub else 0;
      }
      if final < min {
        final := min;
      }
      if final > max {
        final := max;
      }
    }

    /** pg_poll_calc_next. A tick more than 200 ms late starts over at the minimum. */
    method CalcNext(now: Stamp, curPress: q16, avg300: q16, pressVel: q16) returns (wait: nat)
      requires InRange(Value())
      modifies this
      ensures Value() == Step(old(Value()), Tick(now, curPress, avg300, pressVel))
      ensures InRange(Value()) && WaitsAbout(Value()) && wait == lastWait
    {
      hide DtSec, Ahead, NextRng, Jittered, Rounded;
      RoundedIs(MIN_MS, MIN_MS, MAX_MS);
      var elapsed := DtSec(lastTick, now);
      if elapsed < 0 {
        elapsed := 0;
      }
      var ms := elapsed * 1000 / TWO16;
      if ms > lastWait + 200 {
        lastTick, curIvl, lastWait := now, MIN_MS, MIN_MS;
        return MIN_MS;
      }
      var pred := Ahead(curPress, pressVel);
      var nxtIvl: u64 := curIvl;
      if pred > 5 * ONE || pressVel > 2 * ONE {
        nxtIvl := MIN_MS;
      } else if pred > 98304 {
        nxtIvl := nxtIvl / 2;
      } else if avg300 < 2 * ONE {
        nxtIvl := nxtIvl + 200;
      }
      if nxtIvl < MIN_MS {
        nxtIvl := MIN_MS;
      } else if nxtIvl > MAX_MS {
        nxtIvl := MAX_MS;
      }
      lastTick := now;
      var diff := if nxtIvl > curIvl then nxtIvl - curIvl else curIvl - nxtIvl;
      if nxtIvl < curIvl || diff >= 200 {
        curIvl := nxtIvl;
      }
      wait := Jitter(curIvl, MIN_MS, MAX_MS);
      lastWait := wait;
    }
  }

  method Shifts(rng: bv64) returns (x: bv64)
    ensures x == Xorshift(rng)
  {
    hide MixLeft, MixRight;
    x := rng;
    x := MixLeft(x, 13);
    x := MixRight(x, 7);
    x := MixLeft(x, 17);
  }

  method NextShifted(rng: u64) returns (next: u64)
    ensures next == Shifted(rng)
  {
    hide Xorshift, ToBits, FromBits;
    var x := Shifts(ToBits(rng));
    next := FromBits(x);
  }

  /** Both generators draw from [0, range). */
  lemma NoiseBelow(wide: bool, rng: u64, range: u64)
    requires range > 0
    ensures 0 <= Noise(wide, rng, range) < range
  {
    HighWord(NextRng(wide, rng), range);
    hide NextRng;
  }

  /** The high word of a 128-bit product is below the smaller factor's range. */
  lemma HighWord(x: u64, range: u64)
    requires range > 0
    ensures 0 <= x * range / TWO64 < range
  {
    MulMono(x, TWO64 - 1, range);
    MulMono(0, x, range);
    MulCancelLess(x * range / TWO64, range, TWO64);
  }

  /** The two generators in numbers: the next state of the congruential one, of which the high word of its product with
      the range is drawn, and the remainder by the range drawn from the next state of the other. */
  lemma DrawIs(rng: u64, range: u64)
    requires range > 0
    ensures var s := (rng * 6364136223846793005 + 1) % 0x1_0000_0000_0000_0000;
            NextRng(true, rng) == s && Noise(true, rng, range) == s * range / 0x1_0000_0000_0000_0000
    ensures NextRng(false, rng) == Shifted(rng) && Noise(false, rng, range) == Shifted(rng) % range
  {
    hide Shifted;
    var m := rng * 6364136223846793005;
    assert m == m / TWO64 * TWO64 + U64(m);
    ModShift(U64(m) + 1, m / TWO64, TWO64);
  }

  /** A worked xorshift: 13 left, 7 right, 17 left. */
  lemma XorshiftOfOne()
    ensures Xorshift(1) == 1_082_269_761
  {
  }

  /** The xorshift generator reaches state 0 from no other state. */
  lemma XorshiftAlive(x: bv64)
    ensures Xorshift(x) == 0 <==> x == 0
  {
  }

  lemma RoundedIs(ivl: int, min: int, max: int)
    ensures Rounded(ivl, min, max) == Clamp((ivl + 25) / 50 * 50, min, max)
  {
  }

  lemma JitteredIs(ivl: int, min: int, max: int, wide: bool, rng: u64)
    ensures var base := Rounded(ivl, min, max);
            var amp := base * 5 / 100;
            Jittered(ivl, min, max, wide, rng)
              == if amp <= 0 then base else Clamp(base - amp + Noise(wide, rng, amp * 2 + 1), min, max)
  {
    hide Rounded, Noise;
  }

  /** The jittered interval is in bounds and within 5% of the rounded one. */
  lemma JitteredNear(ivl: int, min: int, max: int, wide: bool, rng: u64)
    requires 0 <= min <= max < TWO32
    ensures min <= Jittered(ivl, min, max, wide, rng) <= max
    ensures 100 * Abs(Jittered(ivl, min, max, wide, rng) - Rounded(ivl, min, max)) <= 5 * Rounded(ivl, min, max)
  {
    var base := Rounded(ivl, min, max);
    assert min <= base <= max;
    hide Rounded, Noise;
    var amp := base * 5 / 100;
    if amp > 0 {
      NoiseBelow(wide, rng, amp * 2 + 1);
    }
  }

  /** One tick in numbers. More than 200 ms late, it starts over at 100. Otherwise a pressure ahead of 5 or a velocity
      of 2 asks for 100, a pressure ahead of 1.5 for half, a baseline below 2 for 200 more as long as that fits
      below 10000, and in between the interval is kept. */
  lemma StepIs(p: Poll, t: Tick)
    requires InRange(p) && FitsI32(t.press + t.vel * 32768 / 65536)
    ensures var elapsed := Max(DtSec(p.last, t.now), 0) * 1000 / 65536;
            var ahead, p' := t.press + t.vel * 32768 / 65536, Step(p, t);
            && p'.last == t.now && p'.wide == p.wide
            && (elapsed > p.wait + 200 ==> p'.cur == 100 && p'.wait == 100 && p'.rng == p.rng)
            && (elapsed <= p.wait + 200 ==>
                p'.cur == if ahead > 327_680 || t.vel > 131_072 then 100
                          else if ahead > 98_304 then Max(p.cur / 2, 100)
                          else if t.avg300 < 131_072 && p.cur <= 9800 then p.cur + 200
                          else p.cur)
  {
    hide DtSec, Jittered, NextRng, Rounded;
  }

  // ----- runs

  function Run(p: Poll, ticks: seq<Tick>): Poll {
    if ticks == [] then p else Step(Run(p, ticks[..|ticks| - 1]), ticks[|ticks| - 1])
  }

  lemma StepInRange(p: Poll, t: Tick)
    requires InRange(p)
    ensures InRange(Step(p, t)) && WaitsAbout(Step(p, t))
  {
    hide Ahead, NextRng, Jittered, Rounded, DtSec, ElapsedMs;
    RoundedIs(MIN_MS, MIN_MS, MAX_MS);
    if !Late(p, t.now) {
      JitteredNear(NextCur(p.cur, Ahead(t.press, t.vel), t.vel, t.avg300), MIN_MS, MAX_MS, p.wide, p.rng);
    }
  }

  /** For every seed, every clock and every run, late ticks included: interval and wait stay in
      [100, 10000], and each wait is the rounded interval give or take 5%. */
  lemma {:induction false} RunInRange(p: Poll, ticks: seq<Tick>)
    requires InRange(p)
    ensures InRange(Run(p, ticks)) && (ticks != [] ==> WaitsAbout(Run(p, ticks)))
  {
    hide Step;
    if ticks != [] {
      var k := |ticks| - 1;
      RunInRange(p, ticks[..k]);
      StepInRange(Run(p, ticks[..k]), ticks[k]);
    }
  }

  /** No tick of the run is late. */
  predicate OnTime(p: Poll, ticks: seq<Tick>) {
    forall k :: 0 <= k < |ticks| ==> !Late(Run(p, ticks[..k]), ticks[k].now)
  }

  predicate Calm(t: Tick) { Ahead(t.press, t.vel) <= 98304 && t.vel <= 2 * ONE && t.avg300 < 2 * ONE }

  predicate Moderate(t: Tick) { 98304 < Ahead(t.press, t.vel) <= 5 * ONE && t.vel <= 2 * ONE }

  predicate Surge(t: Tick) { Ahead(t.press, t.vel) > 5 * ONE || t.vel > 2 * ONE }

  lemma OnTimePrefix(p: Poll, ticks: seq<Tick>)
    requires ticks != [] && OnTime(p, ticks)
    ensures var k := |ticks| - 1; OnTime(p, ticks[..k]) && !Late(Run(p, ticks[..k]), ticks[k].now)
  {
    var init := ticks[..|ticks| - 1];
    forall k | 0 <= k < |init|
      ensures !Late(Run(p, init[..k]), init[k].now)
    {
      assert init[..k] == ticks[..k];
    }
  }

  /** n calm ticks add 200 ms each while a whole step fits below the maximum. So the maximum itself is
      reached if and only if the start is a whole number of steps below it. */
  lemma {:induction false} CalmRun(p: Poll, ticks: seq<Tick>)
    requires InRange(p) && OnTime(p, ticks) && forall t :: t in ticks ==> Calm(t)
    ensures Run(p, ticks).cur == p.cur + 200 * Min(|ticks|, (MAX_MS - p.cur) / 200)
    ensures |ticks| >= (MAX_MS - p.cur) / 200 ==> (Run(p, ticks).cur == MAX_MS <==> (MAX_MS - p.cur) % 200 == 0)
  {
    hide Ahead, Late, Jittered, NextRng;
    if ticks != [] {
      var k := |ticks| - 1;
      assert ticks[k] in ticks;
      OnTimePrefix(p, ticks);
      CalmRun(p, ticks[..k]);
    }
  }

  /** The largest interval k halvings can leave. */
  function HalfLimit(k: nat): nat { if k == 0 then MAX_MS else HalfLimit(k - 1) / 2 }

  lemma {:induction false} SevenHalvings(k: nat)
    requires k >= 7
    ensures HalfLimit(k) < MIN_MS
  {
    if k == 7 {
      assert HalfLimit(2) == 2500;
      assert HalfLimit(4) == 625;
      assert HalfLimit(6) == 156;
    } else {
      SevenHalvings(k - 1);
    }
  }

  /** Moderate pressure halves the interval: seven ticks reach the minimum from anywhere, on time or not. */
  lemma {:induction false} ModerateRun(p: Poll, ticks: seq<Tick>)
    requires InRange(p) && forall t :: t in ticks ==> Moderate(t)
    ensures Run(p, ticks).cur == MIN_MS || Run(p, ticks).cur <= HalfLimit(|ticks|)
    ensures |ticks| >= 7 ==> Run(p, ticks).cur == MIN_MS
  {
    hide Ahead, Late, Jittered, NextRng;
    RunInRange(p, ticks);
    if ticks != [] {
      var k := |ticks| - 1;
      assert ticks[k] in ticks;
      ModerateRun(p, ticks[..k]);
      RunInRange(p, ticks[..k]);
    }
    if |ticks| >= 7 {
      SevenHalvings(|ticks|);
    }
  }

  /** A surge resets at once. */
  lemma SurgeResets(p: Poll, ticks: seq<Tick>, t: Tick)
    requires InRange(p) && Surge(t)
    ensures Run(p, ticks + [t]).cur == MIN_MS
  {
    hide Ahead, Late, Jittered, NextRng;
    RunInRange(p, ticks);
    assert (ticks + [t])[..|ticks|] == ticks;
  }
}
