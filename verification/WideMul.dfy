/** The Q32.32 multiply of include/pg/math.h in its two builds: one 128-bit product where the
    compiler has such a type, four 32-bit partial products with sign corrections elsewhere. */
module WideMul {
  import opened Machine

  const TWO96 := TWO64 * TWO32
  const TWO128 := TWO64 * TWO64

  /** What both builds promise: floor(a * b / 2^32), reduced to a signed 64-bit value. */
  function Q32Mul(a: i64, b: i64): i64 { W64(a * b / TWO32) }

  /** The build with a 128-bit type: both operands are sign-extended and multiplied modulo 2^128. */
  function Q32MulWide(a: i64, b: i64): i64 {
    W64((a % TWO128) * (b % TWO128) % TWO128 / TWO32)
  }

  lemma W64Shift(x: int, k: int)
    ensures W64(x + k * TWO64) == W64(x)
  {
    W64IsMod(x);
    W64IsMod(x + k * TWO64);
    ModShift(x + TWO63, k, TWO64);
  }

  lemma W64IsMod(x: int)
    ensures W64(x) == (x + TWO63) % TWO64 - TWO63
  {
  }

  /** x and y agree modulo 2^128, so their bits 32 to 95 agree. */
  lemma SameMiddleBits(x: int, y: int, k: int)
    requires x == y + k * TWO128
    ensures W64(x / TWO32) == W64(y / TWO32)
  {
    assert k * TWO128 == (k * TWO96) * TWO32;
    ModShift(y, k * TWO96, TWO32);
    assert k * TWO96 == (k * TWO32) * TWO64;
    W64Shift(y / TWO32, k * TWO32);
  }

  lemma Distribute(x: int, kx: int, y: int, ky: int, m: int)
    ensures (x + kx * m) * (y + ky * m) == x * y + (x * ky + kx * y + kx * ky * m) * m
  {
    assert (x + kx * m) * (y + ky * m) == x * y + x * (ky * m) + (kx * m) * y + (kx * m) * (ky * m);
    assert x * (ky * m) == (x * ky) * m;
    assert (kx * m) * y == (kx * y) * m;
    assert (kx * m) * (ky * m) == (kx * ky * m) * m;
  }

  lemma ProductMod(a: int, b: int, m: int) returns (k: int)
    requires 0 < m
    ensures a * b == (a % m) * (b % m) + k * m
  {
    assert a == a % m + (a / m) * m;
    assert b == b % m + (b / m) * m;
    Distribute(a % m, a / m, b % m, b / m, m);
    k := (a % m) * (b / m) + (a / m) * (b % m) + (a / m) * (b / m) * m;
  }

  /** The 128-bit build is the floor reduced to 64 bits, and the floor itself exactly when that fits. */
  lemma Q32MulWideIsFloor(a: i64, b: i64)
    ensures Q32MulWide(a, b) == Q32Mul(a, b)
    ensures Q32MulWide(a, b) == a * b / TWO32 <==> FitsI64(a * b / TWO32)
  {
    var k := ProductMod(a, b, TWO128);
    var low := (a % TWO128) * (b % TWO128);
    SameMiddleBits(a * b, low, k);
    SameMiddleBits(low, low % TWO128, low / TWO128);
  }

  /** The partial-product build. No 32x32-bit partial product leaves 64 bits; every sum wraps. */
  method Q32MulParts(a: i64, b: i64) returns (r: i64)
    ensures r == Q32MulWide(a, b)
  {
    hide U32, U64, W64, Q32MulWide;
    var al: u32 := U32(a);
    var ah: u32 := U64(a) / TWO32;
    var bl: u32 := U32(b);
    var bh: u32 := U64(b) / TWO32;

    var ll: u64 := Part(al, bl);
    var hl: u64 := Part(ah, bl);
    var lh: u64 := Part(al, bh);
    var hh: u64 := Part(ah, bh);

    var mid: u64 := U64(hl + lh + ll / TWO32);
    var res: u64 := U64(U64(hh * TWO32) + mid);

    if a < 0 {
      res := U64(res - U64(U64(b) * TWO32));
    }

    if b < 0 {
      res := U64(res - U64(U64(a) * TWO32));
    }

    r := W64(res);
    Assembled(a, b, ll, hl, lh, hh, res);
  }

  /** The sum as the method forms it, in terms of the four partial products. */
  lemma Assembled(a: i64, b: i64, ll: int, hl: int, lh: int, hh: int, res: u64)
    requires ll == U32(a) * U32(b) && hl == (U64(a) / TWO32) * U32(b)
    requires lh == U32(a) * (U64(b) / TWO32) && hh == (U64(a) / TWO32) * (U64(b) / TWO32)
    requires
      var s0 := U64(U64(hh * TWO32) + U64(hl + lh + ll / TWO32));
      var s1 := if a < 0 then U64(s0 - U64(U64(b) * TWO32)) else s0;
      res == if b < 0 then U64(s1 - U64(U64(a) * TWO32)) else s1
    ensures W64(res) == Q32MulWide(a, b)
  {
    var k := SumsWrap(hh * TWO32, hl + lh + ll / TWO32, a, b);
    PartsAreFloor(a, b, ll, hl, lh, hh, res, k);
    Q32MulWideIsFloor(a, b);
  }

  /** What a negative x takes away from the unsigned product x * y, shifted right by 32. */
  function SignFix(x: i64, y: i64): int { if x < 0 then U64(y) * TWO32 else 0 }

  lemma U64Off(x: int) returns (k: int)
    ensures U64(x) == x - k * TWO64
  {
    k := x / TWO64;
  }

  /** Reducing each term and each partial sum modulo 2^64 reduces the whole sum modulo 2^64. */
  lemma SumsWrap(high: int, mid: int, a: i64, b: i64) returns (k: int)
    ensures
      var s0 := U64(U64(high) + U64(mid));
      var s1 := if a < 0 then U64(s0 - U64(U64(b) * TWO32)) else s0;
      var s2 := if b < 0 then U64(s1 - U64(U64(a) * TWO32)) else s1;
      s2 == high + mid - SignFix(a, b) - SignFix(b, a) + k * TWO64
  {
    var k0 := U64Off(high);
    var k1 := U64Off(mid);
    var s0 := U64(high) + U64(mid);
    var k2 := U64Off(s0);
    var j := U64Off(U64(b) * TWO32);
    var t0 := U64(s0) - U64(U64(b) * TWO32);
    var k3 := U64Off(t0);
    var s1 := if a < 0 then U64(t0) else U64(s0);
    var m := U64Off(U64(a) * TWO32);
    var t1 := s1 - U64(U64(a) * TWO32);
    var k4 := U64Off(t1);
    k := -k0 - k1 - k2 + (if a < 0 then j - k3 else 0) + (if b < 0 then m - k4 else 0);
  }

  /** A 32x32-bit product fits 64 bits. */
  function Part(x: u32, y: u32): (p: u64)
    ensures p == x * y
  {
    MulBounds(x, TWO32 - 1, y, TWO32 - 1);
    x * y
  }

  /** The unsigned product and its bits from 32 up, in terms of the partial products. */
  lemma UnsignedParts(al: u32, ah: u32, bl: u32, bh: u32)
    ensures (ah * TWO32 + al) * (bh * TWO32 + bl) / TWO32 == ah * bh * TWO32 + ah * bl + al * bh + al * bl / TWO32
  {
    Distribute(al, ah, bl, bh, TWO32);
    ModShift(al * bl, al * bh + ah * bl + ah * bh * TWO32, TWO32);
  }

  /** a * b from the unsigned images ua, ub: subtract the sign corrections, up to a multiple of 2^128. */
  lemma SignedProduct(ua: int, sa: int, ub: int, sb: int)
    ensures (ua - sa * TWO64) * (ub - sb * TWO64) / TWO32
         == ua * ub / TWO32 - sa * ub * TWO32 - sb * ua * TWO32 + (sa * sb * TWO32) * TWO64
  {
    Distribute(ua, -sa, ub, -sb, TWO64);
    var k := -sa * ub * TWO32 - sb * ua * TWO32 + sa * sb * TWO96;
    assert (ua * -sb + -sa * ub + -sa * -sb * TWO64) * TWO64 == k * TWO32;
    ModShift(ua * ub, k, TWO32);
  }

  lemma PartsAreFloor(a: i64, b: i64, ll: int, hl: int, lh: int, hh: int, res: u64, k: int)
    requires ll == U32(a) * U32(b) && hl == (U64(a) / TWO32) * U32(b)
    requires lh == U32(a) * (U64(b) / TWO32) && hh == (U64(a) / TWO32) * (U64(b) / TWO32)
    requires res == hh * TWO32 + (hl + lh + ll / TWO32) - SignFix(a, b) - SignFix(b, a) + k * TWO64
    ensures W64(res) == Q32Mul(a, b)
  {
    var ua, ub := U64(a), U64(b);
    var sa, sb := if a < 0 then 1 else 0, if b < 0 then 1 else 0;
    UnsignedParts(U32(a), ua / TWO32, U32(b), ub / TWO32);
    LowHigh(a);
    LowHigh(b);
    SignedProduct(ua, sa, ub, sb);
    var n := sa * sb * TWO32;
    assert res == a * b / TWO32 + (k - n) * TWO64;
    W64Shift(a * b / TWO32, k - n);
  }

  lemma LowHigh(a: i64)
    ensures U64(a) == U64(a) / TWO32 * TWO32 + U32(a)
    ensures a == U64(a) - (if a < 0 then 1 else 0) * TWO64
  {
    ModShift(a, if a < 0 then TWO32 else 0, TWO32);
  }
}
