/** The token-bucket limiter of src/sys/log.c. */
module LogLimit {
  import opened Machine

  const BURST := 128
  const REFILL_MS := 10000
  const CREDIT_MAX := 1_280_000

  /** The statics of should_rate_limit. */
  datatype Bucket = Bucket(credit: u64, last: u64, dropped: u32)

  const FRESH: Bucket := Bucket(CREDIT_MAX, 0, 0)

  predicate Valid(b: Bucket) { b.credit <= CREDIT_MAX }

  function Refilled(b: Bucket, now: u64): u64 {
    if b.last == 0 then b.credit
    else
      var c := U64(b.credit + U64(now - b.last));
      if c > CREDIT_MAX then CREDIT_MAX else c
  }

  predicate Limited(b: Bucket, now: u64) { Refilled(b, now) < REFILL_MS }

  function Step(b: Bucket, now: u64): Bucket {
    var c := Refilled(b, now);
    if c < REFILL_MS then Bucket(c, now, U32(b.dropped + 1)) else Bucket(c - REFILL_MS, now, 0)
  }

  class Limiter {
    var creditMs: u64
    var lastMs: u64
    var dropped: u32

    ghost function Value(): Bucket
      reads this
    {
      Bucket(creditMs, lastMs, dropped)
    }

    constructor ()
      ensures Value() == FRESH
    {
      creditMs, lastMs, dropped := CREDIT_MAX, 0, 0;
    }

    /** should_rate_limit: a passed message reports, and forgets, the drops before it. */
    method ShouldRateLimit(nowMs: u64) returns (limited: bool, reported: u32)
      modifies this
      ensures Value() == Step(old(Value()), nowMs)
      ensures limited <==> Limited(old(Value()), nowMs)
      ensures reported == if limited then 0 else old(dropped)
    {
      if lastMs != 0 {
        creditMs := U64(creditMs + U64(nowMs - lastMs));
        if creditMs > CREDIT_MAX {
          creditMs := CREDIT_MAX;
        }
      }
      lastMs := nowMs;
      if creditMs < REFILL_MS {
        dropped := U32(dropped + 1);
        return true, 0;
      }
      creditMs := creditMs - REFILL_MS;
      reported := dropped;
      dropped := 0;
      limited := false;
    }
  }

  // ----- runs

  /** A monotone clock that stays clear of the end of 64 bits. */
  predicate Monotone(from: u64, times: seq<u64>)
    decreases times
  {
    times == [] || (from <= times[0] <= U64_MAX - CREDIT_MAX && Monotone(times[0], times[1..]))
  }

  function Passes(b: Bucket, times: seq<u64>): nat
    decreases times
  {
    if times == [] then 0
    else (if Limited(b, times[0]) then 0 else 1) + Passes(Step(b, times[0]), times[1..])
  }

  function Drops(b: Bucket, times: seq<u64>): nat
    decreases times
  {
    if times == [] then 0
    else (if Limited(b, times[0]) then 1 else 0) + Drops(Step(b, times[0]), times[1..])
  }

  /** Sum of what passed messages reported. */
  function Reported(b: Bucket, times: seq<u64>): nat
    decreases times
  {
    if times == [] then 0
    else (if Limited(b, times[0]) then 0 else b.dropped) + Reported(Step(b, times[0]), times[1..])
  }

  function Final(b: Bucket, times: seq<u64>): Bucket
    decreases times
  {
    if times == [] then b else Final(Step(b, times[0]), times[1..])
  }

  lemma RefillExact(b: Bucket, now: u64)
    requires Valid(b) && b.last <= now <= U64_MAX - CREDIT_MAX
    ensures Refilled(b, now) <= CREDIT_MAX
    ensures Refilled(b, now) <= b.credit + (now - b.last)
    ensures Refilled(b, now) >= b.credit
  {
  }

  /** Each passed message costs 10 s of credit, and credit is only earned by the clock. */
  lemma {:induction false} PassesCost(b: Bucket, times: seq<u64>, start: u64, end: u64)
    requires Valid(b) && b.last <= start <= end && Monotone(start, times)
    requires forall i :: 0 <= i < |times| ==> times[i] <= end
    ensures REFILL_MS * Passes(b, times) <= CREDIT_MAX + (end - start)
    ensures b.last == start ==> REFILL_MS * Passes(b, times) <= b.credit + (end - start)
    decreases times
  {
    if times != [] {
      var t := times[0];
      RefillExact(b, t);
      var b' := Step(b, t);
      assert forall i :: 0 <= i < |times| - 1 ==> times[1..][i] == times[i + 1];
      PassesCost(b', times[1..], t, end);
    }
  }

  /** Any window of T ms, in any run, passes at most 128 + T / 10000 messages. */
  lemma WindowBound(b: Bucket, times: seq<u64>, start: u64, window: nat)
    requires Valid(b) && b.last <= start && Monotone(start, times) && start + window <= U64_MAX
    requires forall i :: 0 <= i < |times| ==> times[i] <= start + window
    ensures Passes(b, times) <= BURST + window / REFILL_MS
  {
    PassesCost(b, times, start, start + window);
  }

  /** As many messages pass in a row as there are ten seconds of credit, whenever they come. */
  lemma {:induction false} CreditPasses(b: Bucket, times: seq<u64>, m: nat)
    requires Valid(b) && m <= 128 && (times != [] ==> 10_000 * m <= Refilled(b, times[0]))
    requires Monotone(b.last, times)
    ensures Passes(b, times) >= Min(m, |times|)
    decreases times
  {
    if times != [] && m > 0 {
      var b' := Step(b, times[0]);
      if |times| > 1 {
        RefillExact(b', times[1]);
      }
      CreditPasses(b', times[1..], m - 1);
    }
  }

  /** The first 128 messages after start-up pass. */
  lemma FreshPasses(times: seq<u64>)
    requires Monotone(0, times)
    ensures Passes(FRESH, times) >= Min(128, |times|)
  {
    CreditPasses(FRESH, times, 128);
  }

  /** After m times ten quiet seconds, up to 128 of them, m messages in a row pass, whatever was dropped before. */
  lemma QuietPasses(b: Bucket, times: seq<u64>, m: nat)
    requires Valid(b) && b.last != 0 && m <= 128 && Monotone(b.last, times)
    requires times != [] && times[0] - b.last >= 10_000 * m
    ensures Passes(b, times) >= Min(m, |times|)
  {
    QuietRefill(b, times[0], m);
    hide Passes, Refilled, Monotone;
    CreditPasses(b, times, m);
  }

  lemma QuietRefill(b: Bucket, now: u64, m: nat)
    requires Valid(b) && b.last != 0 && m <= 128 && b.last + 10_000 * m <= now <= U64_MAX - CREDIT_MAX
    ensures 10_000 * m <= Refilled(b, now)
  {
    U64Fits(now - b.last);
    U64Fits(b.credit + (now - b.last));
    hide U64;
  }

  /** Every bucket a run from start-up reaches is one the window bound applies to. */
  lemma {:induction false} RunValid(b: Bucket, times: seq<u64>, from: u64)
    requires Valid(b) && b.last <= from && Monotone(from, times)
    ensures Valid(Final(b, times))
    ensures Final(b, times).last == if times == [] then b.last else times[|times| - 1]
    decreases times
  {
    if times != [] {
      RefillExact(b, times[0]);
      RunValid(Step(b, times[0]), times[1..], times[0]);
    }
  }

  /** No drop is lost: what was pending at the start plus the drops of the run is what was reported plus
      what is pending at the end, as long as the 32-bit counter does not wrap. */
  lemma {:induction false} DropsConserved(b: Bucket, times: seq<u64>)
    requires b.dropped + |times| < TWO32
    ensures b.dropped + Drops(b, times) == Reported(b, times) + Final(b, times).dropped
    ensures Passes(b, times) + Drops(b, times) == |times|
    decreases times
  {
    if times != [] {
      DropsConserved(Step(b, times[0]), times[1..]);
    }
  }
}
