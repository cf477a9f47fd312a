/** The digit-by-digit square root of include/pg/math.h. */
module Isqrt {
  import opened Machine

  /** Reference: the largest integer whose square does not exceed n. */
  function FloorSqrt(n: nat): (r: nat)
    ensures r * r <= n < (r + 1) * (r + 1)
  {
    if n == 0 then 0 else NextRoot(FloorSqrt(n / 4), n)
  }

  /** Doubling the root of a quarter leaves at most one step to go. */
  function NextRoot(half: nat, n: nat): (r: nat)
    requires half * half <= n / 4 < (half + 1) * (half + 1)
    ensures r * r <= n < (r + 1) * (r + 1)
  {
    QuarterRoot(half, n);
    if (2 * half + 1) * (2 * half + 1) <= n then 2 * half + 1 else 2 * half
  }

  lemma QuarterRoot(half: nat, n: nat)
    requires half * half <= n / 4 < (half + 1) * (half + 1)
    ensures (2 * half) * (2 * half) <= n < (2 * half + 2) * (2 * half + 2)
  {
    var h, h1 := half * half, (half + 1) * (half + 1);
    assert (2 * half) * (2 * half) == 4 * h;
    assert (2 * half + 2) * (2 * half + 2) == 4 * h1;
  }

  lemma FloorSqrtUnique(n: nat, r: nat)
    requires r * r <= n < (r + 1) * (r + 1)
    ensures r == FloorSqrt(n)
  {
    FloorSqrtAtLeast(n, r);
    FloorSqrtBelow(n, r + 1);
  }

  lemma SquareOrder(a: nat, b: nat)
    requires a * a < b * b
    ensures a < b
  {
    if b <= a {
      MulBounds(b, a, b, a);
    }
  }

  lemma FloorSqrtAtLeast(n: nat, a: nat)
    requires a * a <= n
    ensures a <= FloorSqrt(n)
  {
    SquareOrder(a, FloorSqrt(n) + 1);
  }

  lemma FloorSqrtBelow(n: nat, b: nat)
    requires n < b * b
    ensures FloorSqrt(n) < b
  {
    SquareOrder(FloorSqrt(n), b);
  }

  /** 63 - clz(v): the position of the highest set bit of a nonzero 64-bit value. */
  function TopBit(v: u64): (t: nat)
    requires v > 0
    ensures t <= 63 && Pow2(t) <= v < Pow2(t + 1)
  {
    Pow2Width(31, 64);
    TopBitFrom(v, 63)
  }

  function TopBitFrom(v: u64, t: nat): (r: nat)
    requires v > 0 && v < Pow2(t + 1)
    ensures r <= t && Pow2(r) <= v < Pow2(r + 1)
  {
    if v >= Pow2(t) then t else TopBitFrom(v, t - 1)
  }

  /** The state of the square-root loop. `root` is the part of the root found so far and p the root
      bit on trial, so that bit == p * p; p == 0 once the trial bit is shifted out. */
  ghost predicate Trial(value: nat, val: int, res: int, bit: int, root: nat, p: nat) {
    && val == value - root * root
    && 0 <= val
    && bit == p * p
    && res == (if p == 0 then root else 2 * (root * p))
    && root + 2 * p <= TWO32
    && if p == 0 then value < (root + 1) * (root + 1) else value < (root + 2 * p) * (root + 2 * p)
  }

  lemma Square(root: int, p: int)
    ensures (root + p) * (root + p) == root * root + 2 * (root * p) + p * p
  {
  }

  lemma TrialBounds(value: nat, val: int, res: int, bit: int, root: nat, p: nat)
    requires Trial(value, val, res, bit, root, p)
    ensures 0 <= bit && 0 <= res && res + bit < TWO64
    ensures bit == 0 <==> p == 0
  {
    if p > 0 {
      Square(root, p);
      MulBounds(root + p, TWO32 - 1, root + p, TWO32 - 1);
      MulBounds(root, root, p, p);
      MulBounds(1, p, 1, p);
    }
  }

  lemma DoubleSquare(r: nat, h: nat)
    ensures (2 * h) * (2 * h) / 4 == h * h && r * (2 * h) == 2 * (r * h)
  {
    assert (2 * h) * (2 * h) == 4 * (h * h);
  }

  /** Shifting the trial bit down keeps the relation once root + p is known to be too large. */
  lemma Lower(value: nat, val: int, s: int, bit: int, root: nat, p: nat)
    requires val == value - root * root && 0 <= val && bit == p * p && s == root * p
    requires root + p <= TWO32 && value < (root + p) * (root + p)
    requires p == 1 || p == 2 * (p / 2) > 0
    ensures Trial(value, val, s, bit / 4, root, p / 2)
  {
    DoubleSquare(root, p / 2);
  }

  lemma SetBit(value: nat, val: int, res: int, bit: int, root: nat, p: nat)
    requires Trial(value, val, res, bit, root, p) && val >= res + bit
    requires p == 1 || p == 2 * (p / 2) > 0
    ensures Trial(value, val - (res + bit), res / 2 + bit, bit / 4, root + p, p / 2)
  {
    Square(root, p);
    assert (root + p) * p == root * p + p * p;
    Lower(value, val - (res + bit), res / 2 + bit, bit, root + p, p);
  }

  lemma KeepBit(value: nat, val: int, res: int, bit: int, root: nat, p: nat)
    requires Trial(value, val, res, bit, root, p) && val < res + bit
    requires p == 1 || p == 2 * (p / 2) > 0
    ensures Trial(value, val, res / 2, bit / 4, root, p / 2)
  {
    Square(root, p);
    Lower(value, val, res / 2, bit, root, p);
  }

  /** The loop of pg_math_isqrt64, from any starting bit 4^k that is not too small. A root bit is set
      exactly when the square it would give still fits. */
  method IsqrtFrom(value: u64, k: nat) returns (res: u64)
    requires k <= 31 && value < Pow2(2 * k + 2)
    ensures res == FloorSqrt(value)
  {
    hide Trial, FloorSqrt, Pow2;
    var val: u64 := value;
    res := 0;
    PowBits(k);
    var bit: u64 := Pow2(2 * k);
    ghost var j: int := k;
    ghost var p := Pow2(k);
    ghost var root: nat := 0;
    TrialStart(value, bit, p);
    while bit != 0
      invariant -1 <= j && p == (if j >= 0 then Pow2(j) else 0)
      invariant Trial(value, val, res, bit, root, p)
      decreases bit
    {
      TrialBounds(value, val, res, bit, root, p);
      Pow2Half(j);
      if val >= res + bit {
        SetBit(value, val, res, bit, root, p);
        val := val - (res + bit);
        res := res / 2 + bit;
        root := root + p;
      } else {
        KeepBit(value, val, res, bit, root, p);
        res := res / 2;
      }
      bit := bit / 4;
      j := j - 1;
      p := p / 2;
    }
    TrialBounds(value, val, res, bit, root, p);
    TrialDone(value, val, res, root);
    FloorSqrtUnique(value, res);
  }

  lemma Pow2Half(j: int)
    ensures j == 0 ==> Pow2(0) == 1
    ensures j > 0 ==> Pow2(j) / 2 == Pow2(j - 1) && Pow2(j) == 2 * Pow2(j - 1)
  {
  }

  lemma TrialStart(value: nat, bit: int, p: nat)
    requires bit == p * p && value < (2 * p) * (2 * p) && 0 < p <= TWO31
    ensures Trial(value, value, 0, bit, 0, p)
  {
  }

  lemma TrialDone(value: nat, val: int, res: int, root: nat)
    requires Trial(value, val, res, 0, root, 0)
    ensures res * res <= value < (res + 1) * (res + 1)
  {
  }

  /** Pow2(m + n) from Pow2(m) and Pow2(n), on numbers. */
  lemma Pow2Sum(m: nat, pm: int, n: nat, pn: int, s: nat)
    requires Pow2(m) == pm && Pow2(n) == pn && s == m + n
    ensures Pow2(s) == pm * pn
  {
    Pow2Add(m, n);
  }

  lemma Pow2Width(a: nat, b: nat)
    requires a == 31 && b == 64
    ensures Pow2(a) == TWO31 && Pow2(b) == TWO64
  {
    assert Pow2(4) == 16;
    var e, d, c := a - 23, a - 15, a + 1;
    Pow2Sum(4, 16, 4, 16, e);
    Pow2Sum(e, 256, e, 256, d);
    Pow2Sum(d, TWO16, d, TWO16, c);
    Pow2Sum(c, TWO32, c, TWO32, b);
    Pow2Unfold(a);
  }

  lemma PowBits(k: nat)
    requires k <= 31
    ensures Pow2(2 * k) == Pow2(k) * Pow2(k) && Pow2(2 * k + 2) == (2 * Pow2(k)) * (2 * Pow2(k))
    ensures Pow2(k) <= TWO31 && Pow2(2 * k) <= TWO63
  {
    Pow2Width(31, 64);
    Pow2Less(k, 31);
    Pow2Double(k, 2 * k);
    Pow2Double(k + 1, 2 * k + 2);
    Pow2Unfold(k);
    MulBounds(Pow2(k), TWO31, Pow2(k), TWO31);
  }

  lemma Pow2Double(k: nat, n: nat)
    requires n == k + k
    ensures Pow2(n) == Pow2(k) * Pow2(k)
  {
    Pow2Add(k, k);
  }

  lemma Pow2Unfold(n: nat)
    ensures Pow2(n + 1) == 2 * Pow2(n)
  {
  }

  /** pg_math_isqrt64: the starting bit comes from the leading-zero count, rounded down to even. */
  method Isqrt64(val: u64) returns (res: u64)
    ensures res == FloorSqrt(val)
  {
    if val == 0 {
      return 0;
    }
    var shift := StartShift(val);
    res := IsqrtFrom(val, shift / 2);
  }

  /** (63 - clz(val)) & ~1 */
  function StartShift(val: u64): (shift: nat)
    requires val > 0
    ensures shift == 2 * (shift / 2) <= 62 && val < Pow2(shift + 2)
  {
    var top := TopBit(val);
    if top % 2 == 0 then
      Pow2Less(top + 1, top + 2);
      top
    else
      top - 1
  }

  lemma Pow2Less(m: nat, n: nat)
    requires m <= n
    ensures Pow2(m) <= Pow2(n)
  {
    Pow2Add(m, n - m);
    MulMono(1, Pow2(n - m), Pow2(m));
  }
}
