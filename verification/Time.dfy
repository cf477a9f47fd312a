/** Elapsed time between two clock readings: include/pg/time.h. */
module Time {
  import opened Machine
  import opened FixedPoint

  const NS := 1_000_000_000

  /** A struct timespec as the kernel fills it. */
  datatype Stamp = Stamp(sec: i64, nsec: int)

  predicate Normal(t: Stamp) { 0 <= t.nsec < NS }

  function Nanos(t: Stamp): int { t.sec * NS + t.nsec }

  /** pg_dt_sec */
  function DtSec(prev: Stamp, now: Stamp): q16 {
    var d: int := Sub64(now.sec, prev.sec);
    var sec := if d > 32000 then 32000 else if d < -32000 then -32000 else d;
    var nsecQ16 := W32(TruncDiv((now.nsec - prev.nsec) * ONE, NS));
    Add32(W32(sec * ONE), nsecQ16)
  }

  lemma TruncNear(x: int, d: int)
    requires 0 < d
    ensures x - d < TruncDiv(x, d) * d < x + d
  {
    var q := Abs(x) / d;
    assert Abs(x) == q * d + Abs(x) % d;
    assert -q * d == -(q * d);
  }

  /** Within its clamp the elapsed time is exact to one unit of 2^-16 s, and it never overflows. */
  lemma DtNear(prev: Stamp, now: Stamp)
    requires Normal(prev) && Normal(now) && -32000 <= now.sec - prev.sec <= 32000
    ensures -NS < DtSec(prev, now) * NS - (Nanos(now) - Nanos(prev)) * ONE < NS
  {
    TruncNear((now.nsec - prev.nsec) * ONE, NS);
  }

  /** A reading above k seconds means that strictly more than k seconds have passed. */
  lemma DtLonger(prev: Stamp, now: Stamp, k: nat)
    requires Normal(prev) && Normal(now) && k <= 32000 && FitsI64(now.sec - prev.sec)
    requires DtSec(prev, now) > k * ONE
    ensures Nanos(now) - Nanos(prev) > k * NS
  {
    TruncNear((now.nsec - prev.nsec) * ONE, NS);
  }

  /** At least k seconds read as at least k seconds. */
  lemma DtAtLeast(prev: Stamp, now: Stamp, k: nat)
    requires Normal(prev) && Normal(now) && k < 32000 && FitsI64(now.sec - prev.sec)
    requires Nanos(now) - Nanos(prev) >= k * NS
    ensures DtSec(prev, now) >= k * ONE
  {
    TruncNear((now.nsec - prev.nsec) * ONE, NS);
  }
}
