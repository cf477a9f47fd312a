/** The debounced, backing-off write cache of src/sys/sysfs.c and the node it fronts. */
module Sysfs {
  import opened Machine
  import NumText

  /** `last` before anything was written. */
  const UNSET: u64 := U64_MAX
  const FAIL_MAX := 7
  const BACKOFF_BASE_MS := 1000
  const BACKOFF_MAX_MS := 60000

  /** When a new value is worth a write: an absolute distance, a relative one in thousandths, or any change. */
  datatype Chk = Abs_(thresh: u64) | Rel(tol: u64) | Strict

  function Distance(a: u64, b: u64): u64 { if a > b then a - b else b - a }

  predicate Absolute(cur: u64, tgt: u64, thresh: u64) {
    cur == UNSET || (cur != tgt && Distance(cur, tgt) >= thresh)
  }

  predicate Relative(cur: u64, tgt: u64, tol: u64) {
    cur == UNSET || (cur != tgt && (if cur == 0 then tgt != 0 else U64(Distance(cur, tgt) * 1000) >= U64(cur * tol)))
  }

  predicate Exceeds(chk: Chk, cur: u64, tgt: u64) {
    match chk
    case Abs_(thresh) => Absolute(cur, tgt, thresh)
    case Rel(tol) => Relative(cur, tgt, tol)
    case Strict => cur != tgt
  }

  /** Close enough, in exact arithmetic. */
  predicate Within(chk: Chk, node: u64, tgt: u64) {
    node == tgt ||
    match chk
    case Abs_(thresh) => Distance(node, tgt) < thresh
    case Rel(tol) => Distance(node, tgt) * 1000 < node * tol
    case Strict => false
  }

  /** A value that is not worth a write is within the tolerance, as long as the products of the relative
      check fit 64 bits. */
  lemma NotExceeding(chk: Chk, cur: u64, tgt: u64)
    requires chk.Rel? ==> Distance(cur, tgt) * 1000 <= U64_MAX && cur * chk.tol <= U64_MAX
    requires cur != UNSET
    ensures !Exceeds(chk, cur, tgt) <==> Within(chk, cur, tgt)
  {
    if chk.Rel? {
      U64Fits(Distance(cur, tgt) * 1000);
      MulBounds(cur, cur, chk.tol, chk.tol);
      U64Fits(cur * chk.tol);
    }
  }

  lemma SameValue(chk: Chk, v: u64)
    requires v != UNSET
    ensures !Exceeds(chk, v, v) && Exceeds(chk, UNSET, v)
  {
  }

  /** mono_ms: the low 32 bits of the monotonic clock in milliseconds. */
  function MonoMs(t: nat): u32 { U32(t) }

  function Backoff(fails: nat): nat
    requires 1 <= fails <= FAIL_MAX
  {
    var delay := BACKOFF_BASE_MS * Pow2(fails - 1);
    if delay > BACKOFF_MAX_MS then BACKOFF_MAX_MS else delay
  }

  // ----- one call as a step

  datatype Core = Core(last: u64, retryMs: u32, fails: nat)

  /** A call of pg_sysfs_update: the request, the clock at the backoff test and after a failed write,
      and what the write returns. */
  datatype Req = Req(value: u64, force: bool, chk: Chk, tCheck: nat, tAfter: nat, ok: bool)

  predicate Held(c: Core, t: nat) { c.fails != 0 && W32(MonoMs(t) - c.retryMs) < 0 }

  predicate Attempts(c: Core, r: Req) {
    (r.force || Exceeds(r.chk, c.last, r.value)) && !Held(c, r.tCheck)
  }

  function Bump(fails: nat): nat { if fails < FAIL_MAX then fails + 1 else fails }

  function After(c: Core, r: Req): Core
    requires c.fails <= FAIL_MAX
  {
    if !Attempts(c, r) then c
    else if r.ok then c.(last := r.value, fails := 0)
    else c.(fails := Bump(c.fails), retryMs := U32(MonoMs(r.tAfter) + Backoff(Bump(c.fails))))
  }

  // ----- the objects

  /** What the node behind each open descriptor holds. A write succeeds or changes nothing. */
  class Kernel {
    var files: map<int, int>

    method Pwrite(fd: int, value: u64, ok: bool) returns (ret: int)
      modifies this
      ensures ret == (if fd >= 0 && fd in old(files) && ok then 0 else -5)
      ensures files == if ret == 0 then old(files)[fd := value] else old(files)
    {
      if fd < 0 || fd !in files || !ok {
        return -5;
      }
      files := files[fd := value];
      ret := 0;
    }
  }

  /** A candidate path as cache_init finds it: the descriptor open returns, and whether it reads. */
  datatype Candidate = Candidate(fd: int, readable: bool)

  /** Candidate i is the first one that opens, with descriptor fd. */
  predicate FirstOpen(candidates: seq<Candidate>, i: int, fd: int) {
    0 <= i < |candidates| && fd == candidates[i].fd >= 0 && forall j :: 0 <= j < i ==> candidates[j].fd < 0
  }

  /** pg_sysfs_read_i32 of a node that prints an integer: saturated to 32 bits. */
  function ReadNode(v: int): NumText.Parsed { NumText.SpecI32(NumText.Text(v)) }

  class Cache {
    const kernel: Kernel
    var last: u64
    var fd: int
    var base: u32
    var retryMs: u32
    var fails: nat
    var hasBase: bool
    var active: bool
    /** What the node held when the cache was opened. */
    ghost var boot: int

    ghost function Value(): Core
      reads this
    {
      Core(last, retryMs, fails)
    }

    /** The cache and its node agree: with `last` unset nothing was written (or the one value that reads
        as unset), otherwise the node holds `last`. A captured base is the boot value, saturated. */
    ghost predicate Valid()
      reads this, kernel
    {
      && fails <= FAIL_MAX
      && (active ==>
          && fd >= 0 && fd in kernel.files
          && (if last == UNSET then kernel.files[fd] == boot || kernel.files[fd] == UNSET else kernel.files[fd] == last)
          && (hasBase ==> 0 <= boot && base == (if boot > I32_MAX then I32_MAX else boot)))
    }

    /** A cache that was never opened. */
    constructor (kernel: Kernel)
      ensures Valid() && !active && fd == -1 && this.kernel == kernel && last == UNSET
    {
      this.kernel := kernel;
      last, fd, base, retryMs, fails, hasBase, active := UNSET, -1, 0, 0, 0, false, false;
    }

    /** pg_sysfs_cache_init: the first candidate that opens. */
    method Init(candidates: seq<Candidate>) returns (n: int)
      requires forall i :: 0 <= i < |candidates| && candidates[i].fd >= 0 ==> candidates[i].fd in kernel.files
      modifies this
      ensures Valid() && last == UNSET && fails == 0
      ensures n == (if active then 1 else 0)
      ensures active <==> exists i :: 0 <= i < |candidates| && candidates[i].fd >= 0
      ensures active ==> boot == kernel.files[fd]
      ensures active ==> exists i :: FirstOpen(candidates, i, fd) &&
                                     (hasBase <==> candidates[i].readable && kernel.files[fd] >= 0)
      ensures !active ==> fd == -1
    {
      active, hasBase, fails, retryMs, last, base, fd := false, false, 0, 0, UNSET, 0, -1;
      for i := 0 to |candidates|
        invariant !active && !hasBase && fails == 0 && last == UNSET && fd == -1
        invariant forall j :: 0 <= j < i ==> candidates[j].fd < 0
      {
        var c := candidates[i];
        if c.fd < 0 {
          continue;
        }
        fd, active := c.fd, true;
        boot := kernel.files[fd];
        NumText.ReadBack(kernel.files[fd]);
        if c.readable && ReadNode(kernel.files[fd]).value >= 0 {
          base, hasBase := ReadNode(kernel.files[fd]).value, true;
        }
        assert FirstOpen(candidates, i, fd);
        return 1;
      }
      n := 0;
    }

    /** pg_sysfs_update */
    method Update(value: u64, force: bool, chk: Chk, tCheck: nat, tAfter: nat, ok: bool) returns (attempted: bool)
      requires Valid()
      modifies this, kernel
      ensures Valid() && active == old(active) && hasBase == old(hasBase) && base == old(base) && fd == old(fd)
      ensures boot == old(boot)
      ensures var r := Req(value, force, chk, tCheck, tAfter, ok);
              && attempted == (active && Attempts(old(Value()), r))
              && Value() == (if active then After(old(Value()), r) else old(Value()))
      ensures kernel.files == if attempted && ok then old(kernel.files)[fd := value] else old(kernel.files)
      ensures active && fails == 0 && value != UNSET ==>
                kernel.files[fd] == last && last != UNSET && !Exceeds(chk, last, value)
    {
      hide Exceeds, Pow2, U32, W32;
      if value != UNSET {
        SameValue(chk, value);
      }
      attempted := false;
      if !active {
        return;
      }
      var update := force || Exceeds(chk, last, value);
      if !update {
        return;
      }
      if fails != 0 && W32(MonoMs(tCheck) - retryMs) < 0 {
        return;
      }
      attempted := true;
      var rc := kernel.Pwrite(fd, value, ok);
      if rc == 0 {
        last := value;
        fails := 0;
        return;
      }
      if fails < FAIL_MAX {
        fails := fails + 1;
      }
      var delay := BACKOFF_BASE_MS * Pow2(fails - 1);
      if delay > BACKOFF_MAX_MS {
        delay := BACKOFF_MAX_MS;
      }
      retryMs := U32(MonoMs(tAfter) + delay);
    }

    /** pg_sysfs_restore. After a successful write, or when none is needed, a node with a captured base
        is back at its boot value exactly if the boot value fits 32 bits or nothing was ever written. */
    method Restore(ok: bool)
      requires Valid()
      modifies this, kernel
      ensures Valid() && active == old(active) && hasBase == old(hasBase) && base == old(base) && fd == old(fd)
      ensures boot == old(boot) && fails == old(fails) && retryMs == old(retryMs)
      ensures kernel.files == old(kernel.files) ||
              (active && hasBase && ok && kernel.files == old(kernel.files)[fd := base])
      ensures last == UNSET <==> old(last) == UNSET
      ensures last == UNSET ==> kernel.files == old(kernel.files)
      ensures active && hasBase && ok && old(last) != UNSET ==> last == base
      ensures active && hasBase && ok && old(last) != UNSET ==> kernel.files[fd] == base
      ensures active && hasBase && ok && old(last) != UNSET ==> (kernel.files[fd] == boot <==> boot <= I32_MAX)
    {
      if !active || !hasBase || last == UNSET || last == base {
        return;
      }
      var rc := kernel.Pwrite(fd, base, ok);
      if rc == 0 {
        last := base;
      }
    }
  }

  /** The smallest boot value a restore does not bring back: it is captured as one less. */
  lemma BootTooLarge()
    ensures ReadNode(TWO31).value == I32_MAX == TWO31 - 1
  {
    NumText.ReadBack(TWO31);
  }

  // ----- runs

  /** The core and what the node behind it holds. */
  datatype Pair = Pair(core: Core, node: int)

  function Call(p: Pair, r: Req): Pair
    requires p.core.fails <= FAIL_MAX
  {
    Pair(After(p.core, r), if Attempts(p.core, r) && r.ok then r.value else p.node)
  }

  function Run(p: Pair, reqs: seq<Req>): Pair
    requires p.core.fails <= FAIL_MAX
    ensures Run(p, reqs).core.fails <= FAIL_MAX
  {
    if reqs == [] then p else Call(Run(p, reqs[..|reqs| - 1]), reqs[|reqs| - 1])
  }

  /** `last` unset means that the node still holds its boot value, otherwise the node holds `last`. */
  predicate Agrees(p: Pair, boot: int) {
    if p.core.last == UNSET then p.node == boot else p.node == p.core.last
  }

  /** Agreement survives a call if and only if the call does not write 2^64 - 1 over another boot value. */
  lemma CallAgrees(p: Pair, boot: int, r: Req)
    requires p.core.fails <= FAIL_MAX && Agrees(p, boot)
    ensures Agrees(Call(p, r), boot) <==>
            !(Attempts(p.core, r) && r.ok && r.value == UNSET && boot != UNSET)
  {
  }

  /** The one value that breaks it: written over a node that booted with 5, it looks like "never written". */
  lemma UnsetLooksUnwritten() returns (r: Req, p: Pair)
    ensures r.ok && r.value == UNSET && p == Run(Pair(Core(UNSET, 0, 0), 5), [r])
    ensures p.core.last == UNSET && p.node == UNSET && !Agrees(p, 5)
  {
    r := Req(UNSET, false, Abs_(1), 0, 0, true);
    p := Run(Pair(Core(UNSET, 0, 0), 5), [r]);
    assert [r][..0] == [];
  }

  datatype Written = Nothing | Last(value: u64)

  /** The value of the last write that succeeded. */
  function LastWritten(p: Pair, reqs: seq<Req>): Written
    requires p.core.fails <= FAIL_MAX
  {
    if reqs == [] then Nothing
    else
      var k := |reqs| - 1;
      if Attempts(Run(p, reqs[..k]).core, reqs[k]) && reqs[k].ok then Last(reqs[k].value)
      else LastWritten(p, reqs[..k])
  }

  /** Over every run from an unwritten cache: node and `last` are the last value written, which some request
      asked for, or untouched. So they agree if and only if that value is not 2^64 - 1 over another boot value. */
  lemma {:induction false} RunAgrees(boot: int, retryMs: u32, reqs: seq<Req>)
    ensures var start := Pair(Core(UNSET, retryMs, 0), boot);
            var p := Run(start, reqs);
            && (match LastWritten(start, reqs)
                case Nothing => p.core.last == UNSET && p.node == boot
                case Last(v) => p.core.last == v && p.node == v && exists i :: 0 <= i < |reqs| && reqs[i].value == v)
            && (Agrees(p, boot) <==> !(LastWritten(start, reqs) == Last(UNSET) && boot != UNSET))
  {
    if reqs != [] {
      var k := |reqs| - 1;
      RunAgrees(boot, retryMs, reqs[..k]);
      var start := Pair(Core(UNSET, retryMs, 0), boot);
      var q := Run(start, reqs[..k]);
      if Attempts(q.core, reqs[k]) && reqs[k].ok {
        assert reqs[k].value == Call(q, reqs[k]).core.last;
      } else if LastWritten(start, reqs[..k]).Last? {
        var i :| 0 <= i < k && reqs[..k][i].value == q.core.last;
        assert reqs[i].value == q.core.last;
      }
    }
  }

  // ----- the wrapping deadline and the backoff bound

  /** The 32-bit comparison for every distance: it says "not yet" exactly when the clock, counted from
      the deadline modulo 2^32, lies in the upper half. */
  lemma HeldExactly(t: nat, deadline: nat)
    ensures W32(MonoMs(t) - MonoMs(deadline)) < 0 <==> (t - deadline) % TWO32 >= TWO31
  {
    var a, b := t / TWO32, deadline / TWO32;
    ModShift(MonoMs(t) - MonoMs(deadline), a - b, TWO32);
  }

  /** Within 2^31 ms of the deadline it agrees with unbounded time. */
  lemma HeldNear(t: nat, deadline: nat)
    requires -TWO31 <= t - deadline < TWO31
    ensures W32(MonoMs(t) - MonoMs(deadline)) < 0 <==> t < deadline
  {
    HeldExactly(t, deadline);
    if t < deadline {
      ModShift(t - deadline + TWO32, -1, TWO32);
    }
  }

  predicate Ordered(now: nat, reqs: seq<Req>, end: nat)
    decreases reqs
  {
    reqs == [] || (now <= reqs[0].tCheck <= reqs[0].tAfter <= end && Ordered(reqs[0].tAfter, reqs[1..], end))
  }

  predicate AllFail(reqs: seq<Req>) { forall i :: 0 <= i < |reqs| ==> !reqs[i].ok }

  /** Number of writes tried. */
  function Tries(c: Core, reqs: seq<Req>): nat
    requires c.fails <= FAIL_MAX
    decreases reqs
  {
    if reqs == [] then 0
    else (if Attempts(c, reqs[0]) then 1 else 0) + Tries(After(c, reqs[0]), reqs[1..])
  }

  /** Every call that leaves a trace in the cache is counted. */
  lemma TriesCount(p: Pair, r: Req, reqs: seq<Req>)
    requires p.core.fails <= FAIL_MAX && Call(p, r) != p
    ensures Tries(p.core, [r] + reqs) == 1 + Tries(Call(p, r).core, reqs)
  {
    assert ([r] + reqs)[1..] == reqs;
  }

  /** The deadline a core waits for, in unbounded time: at most a minute ahead. */
  predicate Waits(c: Core, deadline: nat, now: nat) {
    c.fails <= FAIL_MAX && (c.fails != 0 ==> c.retryMs == MonoMs(deadline) && deadline <= now + BACKOFF_MAX_MS)
  }

  /** How many writes can still be tried until `end`. */
  function Cap(fails: nat, deadline: nat, now: nat, end: nat): int
    requires fails <= FAIL_MAX
  {
    if fails < FAIL_MAX then FAIL_MAX - fails + (end - now) / BACKOFF_MAX_MS
    else
      var next := if now < deadline then deadline else now;
      if next <= end then 1 + (end - next) / BACKOFF_MAX_MS else 0
  }

  lemma BackoffRange(fails: nat)
    requires 1 <= fails <= FAIL_MAX
    ensures 1000 <= Backoff(fails) <= BACKOFF_MAX_MS
    ensures fails == FAIL_MAX ==> Backoff(fails) == BACKOFF_MAX_MS
  {
    if fails == FAIL_MAX {
      assert Pow2(6) == 64;
    }
  }

  /** The wrapped deadline after a failure is the unbounded one reduced to 32 bits. */
  lemma RetryWraps(t: nat, delay: nat)
    ensures U32(MonoMs(t) + delay) == MonoMs(t + delay)
  {
    ModShift(MonoMs(t) + delay, t / TWO32, TWO32);
  }

  lemma {:induction false} TriesBound(c: Core, deadline: nat, now: nat, reqs: seq<Req>, end: nat)
    requires Waits(c, deadline, now) && Ordered(now, reqs, end) && AllFail(reqs) && now <= end
    ensures Tries(c, reqs) <= Cap(c.fails, deadline, now, end)
    decreases reqs
  {
    hide Backoff, Exceeds, MonoMs;
    if reqs != [] {
      var r := reqs[0];
      var c' := After(c, r);
      if Attempts(c, r) {
        if c.fails != 0 && r.tCheck < deadline {
          HeldNear(r.tCheck, deadline);
        }
        BackoffRange(c'.fails);
        var deadline' := r.tAfter + Backoff(c'.fails);
        RetryWraps(r.tAfter, Backoff(c'.fails));
        TriesBound(c', deadline', r.tAfter, reqs[1..], end);
      } else {
        TriesBound(c, deadline, r.tAfter, reqs[1..], end);
      }
    }
  }

  /** Under persistent write failure, the writes tried in any window of T ms are at most 7 + T / 60000:
      for every state the cache can be in, however often update is called, and across any wrap of the
      32-bit clock. */
  lemma BackoffBound(c: Core, deadline: nat, start: nat, reqs: seq<Req>, window: nat)
    requires Waits(c, deadline, start) && Ordered(start, reqs, start + window) && AllFail(reqs)
    ensures Tries(c, reqs) <= 7 + window / 60000
  {
    TriesBound(c, deadline, start, reqs, start + window);
    if c.fails == FAIL_MAX {
      var next := if start < deadline then deadline else start;
      if next <= start + window {
        DivMono(start + window - next, window, 60000);
      }
    }
  }

  /** Every core a run produces waits for some deadline at most a minute ahead of the last clock read. */
  lemma StepWaits(c: Core, deadline: nat, now: nat, r: Req) returns (deadline': nat)
    requires Waits(c, deadline, now) && now <= r.tCheck <= r.tAfter
    ensures Waits(After(c, r), deadline', r.tAfter)
  {
    if Attempts(c, r) && !r.ok {
      var f := Bump(c.fails);
      BackoffRange(f);
      RetryWraps(r.tAfter, Backoff(f));
      deadline' := r.tAfter + Backoff(f);
    } else {
      deadline' := deadline;
    }
  }

  /** The core after a run of calls. */
  function Final(c: Core, reqs: seq<Req>): (f: Core)
    requires c.fails <= FAIL_MAX
    ensures f.fails <= FAIL_MAX
    decreases reqs
  {
    if reqs == [] then c else Final(After(c, reqs[0]), reqs[1..])
  }

  lemma {:induction false} RunWaits(c: Core, deadline: nat, now: nat, reqs: seq<Req>, end: nat) returns (deadline': nat)
    requires Waits(c, deadline, now) && Ordered(now, reqs, end) && now <= end
    ensures Waits(Final(c, reqs), deadline', end)
    decreases reqs
  {
    if reqs == [] {
      deadline' := deadline;
    } else {
      deadline' := StepWaits(c, deadline, now, reqs[0]);
      deadline' := RunWaits(After(c, reqs[0]), deadline', reqs[0].tAfter, reqs[1..], end);
    }
  }

  /** For every cache a run from start-up reaches, whatever succeeded or failed before: in any T ms of
      failing writes at most 7 + T / 60000 are tried. */
  lemma BackoffAlways(retryMs: u32, before: seq<Req>, start: nat, reqs: seq<Req>, window: nat)
    requires Ordered(0, before, start) && Ordered(start, reqs, start + window) && AllFail(reqs)
    ensures Tries(Final(Core(UNSET, retryMs, 0), before), reqs) <= 7 + window / 60000
  {
    var deadline := RunWaits(Core(UNSET, retryMs, 0), 0, 0, before, start);
    BackoffBound(Final(Core(UNSET, retryMs, 0), before), deadline, start, reqs, window);
  }

  // ----- when a call must write

  /** The waits after one, two, ... failures in a row. */
  lemma BackoffIs(fails: nat)
    requires 1 <= fails <= FAIL_MAX
    ensures Backoff(fails) == [1000, 2000, 4000, 8000, 16000, 32000, 60000][fails - 1]
  {
    assert Pow2(2) == 4 && Pow2(4) == 16 && Pow2(6) == 64;
  }

  /** The products of the relative check fit 64 bits. */
  predicate Comparable(chk: Chk, cur: u64, tgt: u64) {
    chk.Rel? && cur != UNSET ==> Distance(cur, tgt) * 1000 <= U64_MAX && cur * chk.tol <= U64_MAX
  }

  /** The request is to be written: it is forced, nothing was written before, or the node is out of tolerance. */
  predicate Due(c: Core, r: Req) {
    r.force || (if c.last == UNSET then !(r.chk.Strict? && r.value == UNSET) else !Within(r.chk, c.last, r.value))
  }

  /** One call in unbounded time, for a clock within 2^31 ms of the deadline: a due request is written at or
      after the deadline and not before it; success forgets the failures, and a failure waits 1, 2, 4, 8, 16,
      32 or 60 seconds. */
  lemma CallIs(p: Pair, deadline: nat, r: Req)
    requires p.core.fails <= 7 && Comparable(r.chk, p.core.last, r.value)
    requires p.core.fails != 0 ==>
      p.core.retryMs == deadline % 0x1_0000_0000 && -0x8000_0000 <= r.tCheck - deadline < 0x8000_0000
    ensures Call(p, r) ==
      if !Due(p.core, r) || (p.core.fails > 0 && r.tCheck < deadline) then p
      else if r.ok then Pair(Core(r.value, p.core.retryMs, 0), r.value)
      else
        var f := Min(p.core.fails + 1, 7);
        var wait := [1000, 2000, 4000, 8000, 16000, 32000, 60000][f - 1];
        Pair(Core(p.core.last, (r.tAfter + wait) % 0x1_0000_0000, f), p.node)
  {
    hide Within, Backoff, W32;
    if p.core.last != UNSET {
      NotExceeding(r.chk, p.core.last, r.value);
    }
    if p.core.fails != 0 {
      HeldNear(r.tCheck, deadline);
    }
    var f := Min(p.core.fails + 1, 7);
    BackoffIs(f);
    RetryWraps(r.tAfter, Backoff(f));
  }

  /** Values and tolerances as the daemon uses them: the relative check never wraps. */
  predicate Small(v: u64) { v < 0x40_0000_0000_0000 }

  predicate SmallReq(r: Req) { Small(r.value) && (r.chk.Rel? ==> r.chk.tol <= 1000) }

  lemma SmallComparable(c: Core, r: Req)
    requires (c.last == UNSET || Small(c.last)) && SmallReq(r)
    ensures Comparable(r.chk, c.last, r.value)
  {
    if r.chk.Rel? && c.last != UNSET {
      MulBounds(c.last, 0x40_0000_0000_0000, r.chk.tol, 1000);
    }
  }

  /** Writes work again: no failures are left, or the deadline that the last failure set is still the one. */
  predicate Recovering(p: Pair, deadline: nat) {
    && p.core.fails <= FAIL_MAX
    && (p.core.fails != 0 ==> p.core.retryMs == deadline % 0x1_0000_0000)
    && (p.core.last == UNSET || (Small(p.core.last) && p.node == p.core.last))
  }

  lemma OkCall(p: Pair, deadline: nat, r: Req)
    requires Recovering(p, deadline) && SmallReq(r) && r.ok
    ensures Recovering(Call(p, r), deadline)
  {
    hide Attempts;
  }

  lemma {:induction false} OkRun(p: Pair, deadline: nat, reqs: seq<Req>)
    requires Recovering(p, deadline) && forall r :: r in reqs ==> SmallReq(r) && r.ok
    ensures Recovering(Run(p, reqs), deadline)
  {
    hide Recovering, SmallReq, Call;
    if reqs != [] {
      var k := |reqs| - 1;
      assert p.core.fails <= FAIL_MAX by { RecoveringFails(p, deadline); }
      OkRun(p, deadline, reqs[..k]);
      OkCall(Run(p, reqs[..k]), deadline, reqs[k]);
    }
  }

  lemma RecoveringFails(p: Pair, deadline: nat)
    requires Recovering(p, deadline)
    ensures p.core.fails <= FAIL_MAX
  {
  }

  /** Recovery. A write fails at tAfter; from then on writes succeed and updates keep coming. Then the first call a
      minute later (or more, up to 2^31 ms), like every later one in that time, leaves the node within tolerance of
      what it asks for. */
  lemma Recovers(p: Pair, f: Req, mid: seq<Req>, r: Req)
    requires Recovering(p, p.core.retryMs) && Attempts(p.core, f) && !f.ok
    requires SmallReq(r) && r.ok && forall q :: q in mid ==> SmallReq(q) && q.ok
    requires f.tAfter + 60_000 <= r.tCheck < f.tAfter + 0x8000_0000
    ensures var e := Call(Run(Call(p, f), mid), r);
            (r.force ==> e.node == r.value) && 0 <= e.node <= U64_MAX && Within(r.chk, e.node, r.value)
  {
    hide Within, Attempts, Backoff;
    var n := Bump(p.core.fails);
    BackoffRange(n);
    RetryWraps(f.tAfter, Backoff(n));
    var deadline := f.tAfter + Backoff(n);
    OkRun(Call(p, f), deadline, mid);
    var m := Run(Call(p, f), mid);
    SmallComparable(m.core, r);
    CallIs(m, deadline, r);
    SelfWithin(r.chk, r.value);
  }

  lemma SelfWithin(chk: Chk, v: u64)
    ensures Within(chk, v, v)
  {
  }
}
