/** C integer widths, and the conversions, shifts and divisions the daemon's arithmetic uses.
    A signed result that leaves its width is taken modulo two's complement. */
module Machine {
  const TWO16 := 0x1_0000
  const TWO31 := 0x8000_0000
  const TWO32 := 0x1_0000_0000
  const TWO63 := 0x8000_0000_0000_0000
  const TWO64 := 0x1_0000_0000_0000_0000
  const I32_MIN: i32 := -0x8000_0000
  const I32_MAX: i32 := 0x7FFF_FFFF
  const U64_MAX: u64 := 0xFFFF_FFFF_FFFF_FFFF

  type i32 = x: int | -0x8000_0000 <= x <= 0x7FFF_FFFF
  type i64 = x: int | -0x8000_0000_0000_0000 <= x <= 0x7FFF_FFFF_FFFF_FFFF
  type u32 = x: int | 0 <= x <= 0xFFFF_FFFF
  type u64 = x: int | 0 <= x <= 0xFFFF_FFFF_FFFF_FFFF
  type byte = x: int | 0 <= x <= 255

  predicate FitsI32(x: int) { -TWO31 <= x < TWO31 }

  predicate FitsI64(x: int) { -TWO63 <= x < TWO63 }

  /** Conversion of any integer to a signed 32-bit value. */
  function W32(x: int): i32
  {
    if FitsI32(x) then x else (x + TWO31) % TWO32 - TWO31
  }

  /** Conversion of any integer to a signed 64-bit value. */
  function W64(x: int): i64
  {
    if FitsI64(x) then x else (x + TWO63) % TWO64 - TWO63
  }

  function Add32(a: int, b: int): i32 { W32(a + b) }

  function Sub32(a: int, b: int): i32 { W32(a - b) }

  function Add64(a: int, b: int): i64 { W64(a + b) }

  function Sub64(a: int, b: int): i64 { W64(a - b) }

  /** Conversion of any integer to an unsigned 32-bit value. */
  function U32(x: int): u32 { x % TWO32 }

  /** Conversion of any integer to an unsigned 64-bit value. */
  function U64(x: int): u64 { x % TWO64 }

  lemma U64Fits(x: int)
    requires 0 <= x < TWO64
    ensures U64(x) == x
  {
  }

  /** C division: the quotient is truncated toward zero. */
  function TruncDiv(a: int, b: int): int
    requires b != 0
  {
    if (a >= 0) == (b > 0) then Abs(a) / Abs(b) else -(Abs(a) / Abs(b))
  }

  function Abs(x: int): nat { if x < 0 then -x else x }

  function Min(a: int, b: int): int { if a < b then a else b }

  function Max(a: int, b: int): int { if a > b then a else b }

  /** x cut to [lo, hi]. */
  function Clamp(x: int, lo: int, hi: int): int { if x < lo then lo else if x > hi then hi else x }

  function Pow2(n: nat): (p: nat)
    ensures p >= 1
  {
    if n == 0 then 1 else 2 * Pow2(n - 1)
  }

  lemma {:induction false} Pow2Add(m: nat, n: nat)
    ensures Pow2(m + n) == Pow2(m) * Pow2(n)
  {
    if m == 0 {
    } else {
      Pow2Add(m - 1, n);
      assert m + n - 1 == (m - 1) + n;
      assert 2 * (Pow2(m - 1) * Pow2(n)) == (2 * Pow2(m - 1)) * Pow2(n);
    }
  }

  // Products and floors of products. Each fact is stated alone so that callers name the one they need.

  lemma MulMono(a: int, b: int, c: int)
    requires a <= b && 0 <= c
    ensures a * c <= b * c
  {
  }

  lemma MulBounds(a: int, hiA: int, b: int, hiB: int)
    requires 0 <= a <= hiA && 0 <= b <= hiB
    ensures 0 <= a * b <= hiA * hiB
  {
    MulMono(a, hiA, b);
    MulMono(b, hiB, hiA);
    assert hiA * b == b * hiA;
  }

  lemma AbsMulBounds(a: int, hiA: nat, b: int, hiB: nat)
    requires Abs(a) <= hiA && Abs(b) <= hiB
    ensures Abs(a * b) <= hiA * hiB
  {
    MulBounds(Abs(a), hiA, Abs(b), hiB);
    assert a * b == Abs(a) * Abs(b) || a * b == -(Abs(a) * Abs(b));
  }

  lemma MulCancelLess(x: int, y: int, d: int)
    requires 0 < d && x * d < y * d
    ensures x < y
  {
    if y <= x {
      MulMono(y, x, d);
    }
  }

  lemma DivMono(a: int, b: int, d: int)
    requires a <= b && 0 < d
    ensures a / d <= b / d
  {
    assert (b / d + 1) * d == (b / d) * d + d;
    MulCancelLess(a / d, b / d + 1, d);
  }

  lemma DivAntitone(n: nat, d: int, e: int)
    requires 0 < d <= e
    ensures 0 <= n / e <= n / d
  {
    assert n == (n / e) * e + n % e;
    assert (n / d + 1) * d == (n / d) * d + d;
    MulMono(d, e, n / e);
    assert (n / e) * d <= (n / e) * e by {
      assert d * (n / e) == (n / e) * d;
      assert e * (n / e) == (n / e) * e;
    }
    MulCancelLess(n / e, n / d + 1, d);
  }

  /** floor(x / (d * e)) computed in two steps. */
  lemma DivTwice(x: int, d: int, e: int)
    requires 0 < d && 0 < e
    ensures 0 < d * e && x / d / e == x / (d * e)
  {
    var q := x / d / e;
    var r := x - q * (d * e);
    assert x == (x / d) * d + x % d;
    assert x / d == q * e + x / d % e;
    assert r == (x / d % e) * d + x % d by {
      assert (q * e + x / d % e) * d == (q * e) * d + (x / d % e) * d;
      assert (q * e) * d == q * (d * e);
    }
    MulBounds(x / d % e, e - 1, d, d);
    assert (e - 1) * d == d * e - d;
    DivUnique(x, d * e, q, r);
  }

  lemma DivUnique(x: int, d: int, q: int, r: int)
    requires 0 < d && 0 <= r < d && x == q * d + r
    ensures x / d == q && x % d == r
  {
    assert x == (x / d) * d + x % d;
    assert (x / d - q) * d == r - x % d;
    if x / d > q {
      MulMono(1, x / d - q, d);
    } else if x / d < q {
      MulMono(x / d - q, -1, d);
    }
  }

  lemma ModShift(x: int, k: int, m: int)
    requires 0 < m
    ensures (x + k * m) % m == x % m
    ensures (x + k * m) / m == x / m + k
  {
    assert x == (x / m) * m + x % m;
    assert (x / m + k) * m == (x / m) * m + k * m;
    DivUnique(x + k * m, m, x / m + k, x % m);
  }
}
