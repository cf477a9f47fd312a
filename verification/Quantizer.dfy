/** The two sanitizers of include/pg/math.h that turn a Q16 value into what is written to a node. */
module Quantizer {
  import opened Machine
  import opened FixedPoint
  import Isqrt

  /** Bitwise and of two naturals, bit by bit. */
  function BitAnd(x: nat, y: nat): nat {
    if x == 0 || y == 0 then 0
    else 2 * BitAnd(x / 2, y / 2) + (if x % 2 == 1 && y % 2 == 1 then 1 else 0)
  }

  /** Round to the nearest integer, halves up; a negative value becomes the fallback. */
  function SanU64(val: q16, fallback: u64): u64 {
    if val < 0 then fallback else U64(W32(val + HALF) / TWO16)
  }

  /** Milliseconds in Q16 to nanoseconds, before quantization. */
  function Nanos(val: q16): u64 { U64(U64(val) * 1_000_000) / TWO16 }

  function SanQuant(val: q16, fallback: q16, step: u64): u64 {
    var sv := if val < 0 then fallback else val;
    var vNs := Nanos(sv);
    if step <= 1 then vNs
    else if BitAnd(step, step - 1) == 0 then
      // ~(step - 1) in 64 bits
      BitAndU64(U64(vNs + step / 2), U64_MAX - (step - 1))
    else
      var rem := vNs % step;
      if rem >= step / 2 then U64(U64(vNs + step) - rem) else U64(vNs - rem)
  }

  function BitAndU64(x: u64, y: u64): (r: u64)
    ensures r == BitAnd(x, y) <= x
  {
    BitAndSmaller(x, y);
    BitAnd(x, y)
  }

  lemma {:induction false} BitAndSmaller(x: nat, y: nat)
    ensures BitAnd(x, y) <= x
  {
    if x != 0 && y != 0 {
      BitAndSmaller(x / 2, y / 2);
    }
  }

  /** Reference: the remainder-based rounding to a multiple of step. */
  function RoundTo(v: nat, step: nat): (r: nat)
    requires 0 < step
  {
    var rem := v % step;
    if rem >= step / 2 then v - rem + step else v - rem
  }

  // ----- the bit tricks

  predicate IsPow2(s: nat) {
    s == 1 || (s > 1 && s % 2 == 0 && IsPow2(s / 2))
  }

  lemma {:induction false} Exponent(s: nat) returns (k: nat)
    requires IsPow2(s)
    ensures s == Pow2(k)
  {
    if s == 1 {
      k := 0;
    } else {
      k := Exponent(s / 2);
      k := k + 1;
    }
  }

  /** step & (step - 1) is zero exactly for the powers of two. */
  lemma {:induction false} PowerTest(s: nat)
    requires 0 < s
    ensures BitAnd(s, s - 1) == 0 <==> IsPow2(s)
  {
    if s > 1 {
      if s % 2 == 0 {
        PowerTest(s / 2);
        assert (s - 1) / 2 == s / 2 - 1;
      } else {
        SelfAnd(s / 2);
        assert (s - 1) / 2 == s / 2;
      }
    }
  }

  lemma {:induction false} SelfAnd(x: nat)
    ensures BitAnd(x, x) == x
  {
    if x != 0 {
      SelfAnd(x / 2);
    }
  }

  /** Masking with ~(2^k - 1) in w bits clears exactly the remainder modulo 2^k. */
  lemma {:induction false} MaskLow(x: nat, k: nat, w: nat, mask: nat)
    requires k <= w && x < Pow2(w) && mask + Pow2(k) == Pow2(w)
    ensures BitAnd(x, mask) == x - x % Pow2(k)
    decreases w
  {
    if w == 0 {
    } else if k == 0 {
      MaskLow(x / 2, 0, w - 1, mask / 2);
    } else {
      MaskLow(x / 2, k - 1, w - 1, mask / 2);
      HalfMod(x, Pow2(k - 1));
    }
  }

  lemma HalfMod(x: nat, h: nat)
    requires 0 < h
    ensures x % (2 * h) == 2 * (x / 2 % h) + x % 2
  {
    var q := x / 2 / h;
    assert x / 2 == q * h + x / 2 % h;
    assert q * (2 * h) == 2 * (q * h);
    DivUnique(x, 2 * h, q, 2 * (x / 2 % h) + x % 2);
  }

  lemma Pow2Even(k: nat)
    requires Pow2(k) > 1
    ensures k > 0 && Pow2(k) == 2 * Pow2(k - 1) && Pow2(k) / 2 == Pow2(k - 1)
  {
  }

  /** Adding half a step and dropping the remainder is the remainder-based rounding. */
  lemma HalfUp(v: nat, h: nat)
    requires 0 < h
    ensures (v + h) - (v + h) % (2 * h) == RoundTo(v, 2 * h)
  {
    var s := 2 * h;
    assert v == v / s * s + v % s;
    if v % s >= h {
      assert (v / s + 1) * s == v / s * s + s;
      DivUnique(v + h, s, v / s + 1, v % s - h);
    } else {
      DivUnique(v + h, s, v / s, v % s + h);
    }
  }

  // ----- what the quantizer computes

  /** 2^48: a 64-bit word shifted right by 16 stays below it. */
  const NANOS_END: nat := 0x1_0000_0000_0000

  lemma NanosShort(val: q16)
    ensures Nanos(val) < NANOS_END
  {
  }

  lemma NanosExact(val: q16)
    requires 0 <= val
    ensures Nanos(val) == val * 1_000_000 / TWO16 < 32_768_000_000
  {
  }

  /** The bitwise path, for a step of 2^k. */
  lemma BitPath(v: nat, k: nat, step: u64)
    requires v < NANOS_END && 1 < step == Pow2(k)
    ensures BitAnd(U64(v + step / 2), U64_MAX - (step - 1)) == RoundTo(v, step)
  {
    hide Pow2, BitAnd, RoundTo;
    var w := 64;
    Isqrt.Pow2Width(31, w);
    PowBelow(k, w);
    Pow2Even(k);
    MaskLow(v + step / 2, k, w, U64_MAX - (step - 1));
    HalfUp(v, step / 2);
  }

  /** The value quantized: a negative one is replaced by the fallback. */
  function Sanitized(val: q16, fallback: q16): q16 { if val < 0 then fallback else val }

  /** For every value, fallback and step the quantizer is the remainder-based rounding, or no rounding for
      steps 0 and 1: the bitwise path taken for powers of two is only a faster form of it, and neither path
      wraps, not even for a negative fallback. */
  lemma SanQuantIsRound(val: q16, fallback: q16, step: u64)
    ensures var ns := Nanos(Sanitized(val, fallback));
            SanQuant(val, fallback, step) == if step <= 1 then ns else RoundTo(ns, step)
  {
    hide BitAnd, Nanos, RoundTo, Pow2;
    var ns := Nanos(Sanitized(val, fallback));
    NanosShort(Sanitized(val, fallback));
    if step > 1 {
      PowerTest(step);
      if BitAnd(step, step - 1) == 0 {
        var k := Exponent(step);
        BitPath(ns, k, step);
      } else {
        RemainderPath(ns, step);
      }
    }
  }

  lemma PowBelow(k: nat, w: nat)
    requires Pow2(k) < Pow2(w)
    ensures k <= w
  {
    if w < k {
      Isqrt.Pow2Less(w, k);
    }
  }

  /** A 64-bit sum that may wrap, less something that brings it back. */
  lemma WrapBack(x: nat, rem: nat)
    requires rem <= x < TWO64 + rem && x < 2 * TWO64
    ensures U64(U64(x) - rem) == x - rem
  {
    if x < TWO64 {
      assert U64(x) == x;
    } else {
      assert U64(x) == x - TWO64;
      ModShift(x - rem, -1, TWO64);
    }
  }

  /** The remainder path: its intermediate sum may wrap, its result does not. */
  lemma RemainderPath(v: nat, s: u64)
    requires v < NANOS_END && 1 < s
    ensures (if v % s >= s / 2 then U64(U64(v + s) - v % s) else U64(v - v % s)) == RoundTo(v, s)
  {
    hide U64;
    assert v == v / s * s + v % s;
    if v < s {
      DivUnique(v, s, 0, v);
    } else {
      MulMono(0, v / s, s);
    }
    WrapBack(v + s, v % s);
    U64Fits(v - v % s);
  }

  /** The result is a multiple of the step. It is a nearest one if and only if the step is even or the
      remainder differs from the truncated half step, where an odd step rounds up too early. */
  lemma RoundNearest(v: nat, step: nat)
    requires 1 < step
    ensures RoundTo(v, step) % step == 0
    ensures 2 * Abs(RoundTo(v, step) - v) <= step <==> !(step % 2 == 1 && v % step == step / 2)
    ensures Abs(RoundTo(v, step) - v) <= step / 2 + 1
  {
    assert v == v / step * step + v % step;
    DivUnique(v / step * step, step, v / step, 0);
    assert (v / step + 1) * step == v / step * step + step;
    DivUnique(v / step * step + step, step, v / step + 1, 0);
  }

  /** An odd step: 15 ns lie nearer to 0 than to 31, but are rounded up. */
  lemma OddStepRoundsUp()
    ensures Nanos(1) == 15 && SanQuant(1, 0, 31) == 31
  {
    SanQuantIsRound(1, 0, 31);
    hide SanQuant;
  }

  lemma RoundMono(v: nat, w: nat, step: nat)
    requires 0 < step && v <= w
    ensures RoundTo(v, step) <= RoundTo(w, step)
  {
    DivMono(v, w, step);
    assert v == v / step * step + v % step && w == w / step * step + w % step;
    if v / step < w / step {
      MulMono(v / step + 1, w / step, step);
      assert (v / step + 1) * step == v / step * step + step;
    }
  }

  /** The quantizer keeps the order of the values it is given. */
  lemma SanQuantMono(a: q16, b: q16, fa: q16, fb: q16, step: u64)
    requires 0 <= a <= b && 1 < step
    ensures SanQuant(a, fa, step) <= SanQuant(b, fb, step)
  {
    NanosExact(a);
    NanosExact(b);
    SanQuantIsRound(a, fa, step);
    SanQuantIsRound(b, fb, step);
    RoundMono(Nanos(a), Nanos(b), step);
  }

  /** The integer sanitizer rounds to nearest and keeps order, below the point where val + 1/2 overflows. */
  lemma SanU64Mono(a: q16, b: q16, fa: u64, fb: u64)
    requires 0 <= a <= b < TWO31 - HALF
    ensures SanU64(a, fa) <= SanU64(b, fb)
    ensures SanU64(a, fa) * TWO16 - HALF <= a < SanU64(a, fa) * TWO16 + HALF
  {
  }
}
