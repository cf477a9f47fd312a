/** The display state machine, update_disp of src/core/gov.c, over every run of ticks. */
module Display {
  import opened FixedPoint
  import opened Time

  const CHECK_S := 1
  const GRACE_S := 10

  datatype State = Unknown | On | Grace | Suspend

  /** disp_state, last_disp and last_dispoff of the context. */
  datatype Disp = Disp(state: State, lastDisp: Stamp, lastOff: Stamp)

  /** What one backlight sensor answers. */
  datatype Level = Unreadable | Level(v: int)

  /** pg_sensor_read_bl with its caller's rule: lit if some sensor says so, and also if none can be read. */
  predicate Lit(levels: seq<Level>) {
    (forall i :: 0 <= i < |levels| ==> levels[i].Unreadable?) ||
    (exists i :: 0 <= i < |levels| && levels[i].Level? && levels[i].v > 0)
  }

  /** A tick: the clock and what a read of the backlight would say. */
  datatype Look = Look(now: Stamp, levels: seq<Level>)

  /** While the display is on it is read at most once a second. */
  predicate Skips(d: Disp, now: Stamp) { d.state.On? && DtSec(d.lastDisp, now) < CHECK_S * ONE }

  function Step(d: Disp, l: Look): Disp {
    if Skips(d, l.now) then d
    else
      var d := d.(lastDisp := l.now);
      if Lit(l.levels) then d.(state := On)
      else match d.state
        case On => d.(state := Grace, lastOff := l.now)
        case Unknown => d.(state := Grace, lastOff := l.now)
        case Grace => if DtSec(d.lastOff, l.now) > GRACE_S * ONE then d.(state := Suspend) else d
        case Suspend => d
  }

  /** The display after a run of ticks from start-up. */
  function Run(start: Disp, looks: seq<Look>): Disp {
    if looks == [] then start else Step(Run(start, looks[..|looks| - 1]), looks[|looks| - 1])
  }

  lemma RunSnoc(start: Disp, looks: seq<Look>, l: Look)
    ensures Run(start, looks + [l]) == Step(Run(start, looks), l)
  {
    assert (looks + [l])[..|looks|] == looks;
  }

  // ----- when the daemon suspends

  /** Tick j saw the display go off, and every tick since has read it as off. */
  predicate OffSince(start: Disp, looks: seq<Look>, j: nat) {
    && j < |looks|
    && Run(start, looks[..j]).state in {Unknown, On} && !Skips(Run(start, looks[..j]), looks[j].now)
    && forall k :: j <= k < |looks| ==> !Lit(looks[k].levels)
  }

  /** More than ten seconds (655360 units), as the clock difference measures them, passed up to tick m. */
  predicate GraceOver(looks: seq<Look>, j: nat, m: nat) {
    j < m < |looks| && DtSec(looks[j].now, looks[m].now) > 655360
  }

  predicate Dark(d: Disp) { d.state in {Grace, Suspend} }

  lemma {:induction false} OffSinceIsDark(start: Disp, looks: seq<Look>, j: nat)
    requires OffSince(start, looks, j)
    ensures Dark(Run(start, looks)) && Run(start, looks).lastOff == looks[j].now
    ensures Run(start, looks).state == Suspend <==> exists m :: GraceOver(looks, j, m)
    decreases |looks|
  {
    hide Lit, DtSec;
    var n := |looks| - 1;
    var init := looks[..n];
    if j < n {
      assert looks[..j] == init[..j];
      OffSinceIsDark(start, init, j);
      GraceOverSnoc(looks, j);
    }
  }

  lemma GraceOverSnoc(looks: seq<Look>, j: nat)
    requires looks != []
    ensures var n := |looks| - 1;
            (exists m :: GraceOver(looks, j, m)) <==>
            (exists m :: GraceOver(looks[..n], j, m)) || GraceOver(looks, j, n)
  {
    var n := |looks| - 1;
    var init := looks[..n];
    if m: nat :| GraceOver(init, j, m) {
      assert GraceOver(looks, j, m);
    }
    if m: nat :| GraceOver(looks, j, m) && m != n {
      assert GraceOver(init, j, m);
    }
  }

  lemma {:induction false} DarkIsOffSince(start: Disp, looks: seq<Look>) returns (j: nat)
    requires start.state == Unknown && Dark(Run(start, looks))
    ensures OffSince(start, looks, j)
    decreases |looks|
  {
    hide Lit, DtSec;
    var n := |looks| - 1;
    var init := looks[..n];
    if Dark(Run(start, init)) {
      j := DarkIsOffSince(start, init);
      assert looks[..j] == init[..j];
    } else {
      j := n;
    }
  }

  /** The daemon is suspended if and only if some tick saw the display go off, every tick since read it as
      off, and one of them came more than ten seconds later. */
  lemma SuspendedIff(start: Disp, looks: seq<Look>)
    requires start.state == Unknown
    ensures Run(start, looks).state == Suspend <==>
            (exists j, m :: OffSince(start, looks, j) && GraceOver(looks, j, m))
  {
    if Run(start, looks).state == Suspend {
      var j := DarkIsOffSince(start, looks);
      OffSinceIsDark(start, looks, j);
      var m :| GraceOver(looks, j, m);
      assert OffSince(start, looks, j) && GraceOver(looks, j, m);
    }
    if j, m :| OffSince(start, looks, j) && GraceOver(looks, j, m) {
      OffSinceIsDark(start, looks, j);
    }
  }

  /** In real time: a suspended daemon has read nothing but "off" for strictly more than ten seconds. */
  lemma SuspendedAfterTenSeconds(start: Disp, looks: seq<Look>) returns (j: nat, m: nat)
    requires start.state == Unknown && Run(start, looks).state == Suspend
    requires forall k :: 0 <= k < |looks| ==> Normal(looks[k].now) && 0 <= looks[k].now.sec
    ensures j < m < |looks| && Nanos(looks[m].now) - Nanos(looks[j].now) > 10_000_000_000
    ensures forall k :: j <= k < |looks| ==> !Lit(looks[k].levels)
  {
    hide DtSec;
    SuspendedIff(start, looks);
    j, m :| OffSince(start, looks, j) && GraceOver(looks, j, m);
    DtLonger(looks[j].now, looks[m].now, 10);
  }

  /** One lit reading ends every dark spell at once. */
  lemma LitWakes(start: Disp, looks: seq<Look>, l: Look)
    requires Lit(l.levels)
    ensures Run(start, looks + [l]).state == On
  {
    assert (looks + [l])[..|looks|] == looks;
  }

  // ----- when the daemon must notice

  /** Some sensor can be read, and every one that can says off. */
  predicate AllOff(levels: seq<Level>) {
    (exists i :: 0 <= i < |levels| && levels[i].Level?) &&
    (forall i :: 0 <= i < |levels| && levels[i].Level? ==> levels[i].v <= 0)
  }

  lemma OffIsNotLit(levels: seq<Level>)
    ensures AllOff(levels) <==> !Lit(levels)
  {
  }

  /** A lit display was last read by one of the looks. */
  lemma {:induction false} LastRead(start: Disp, looks: seq<Look>) returns (k: nat)
    requires start.state == Unknown && Run(start, looks).state == On
    ensures k < |looks| && Run(start, looks).lastDisp == looks[k].now
  {
    hide Lit, DtSec, Skips;
    var n := |looks| - 1;
    k := n;
    if Skips(Run(start, looks[..n]), looks[n].now) {
      k := LastRead(start, looks[..n]);
    }
  }

  /** An "off" that comes a second (65536 units) or more after every earlier look is noticed. */
  lemma OffNoticed(start: Disp, looks: seq<Look>, l: Look)
    requires start.state == Unknown && AllOff(l.levels)
    requires forall k :: 0 <= k < |looks| ==> DtSec(looks[k].now, l.now) >= 65536
    ensures Run(start, looks + [l]).state == Grace || Run(start, looks + [l]).state == Suspend
  {
    RunSnoc(start, looks, l);
    OffIsNotLit(l.levels);
    if Run(start, looks).state == On {
      var k := LastRead(start, looks);
    }
  }

  /** A display that has just come on is not read again within the second. */
  lemma OnHolds(start: Disp, looks: seq<Look>, l1: Look, l2: Look)
    requires Run(start, looks).state != On && !AllOff(l1.levels) && DtSec(l1.now, l2.now) < 65536
    ensures Run(start, looks + [l1] + [l2]) == Disp(On, l1.now, Run(start, looks).lastOff)
  {
    OffIsNotLit(l1.levels);
    RunSnoc(start, looks, l1);
    RunSnoc(start, looks + [l1], l2);
  }

  /** The converse of SuspendedIff in times and levels alone. If every look from tick j on is "off", tick a >= j
      comes a second or more after every look before it, and tick b more than ten seconds (655360 units) after
      every look up to a, then the daemon is suspended, and it stays so. */
  lemma DarkSuspends(start: Disp, looks: seq<Look>, j: nat, a: nat, b: nat)
    requires start.state == Unknown && j <= a < b < |looks|
    requires forall k :: j <= k < |looks| ==> AllOff(looks[k].levels)
    requires forall k :: 0 <= k < a ==> DtSec(looks[k].now, looks[a].now) >= 65536
    requires forall k :: 0 <= k <= a ==> DtSec(looks[k].now, looks[b].now) > 655360
    ensures Run(start, looks).state == Suspend
  {
    hide DtSec, Lit;
    var upto := looks[..a + 1];
    assert upto == looks[..a] + [looks[a]];
    OffNoticed(start, looks[..a], looks[a]);
    var i := DarkIsOffSince(start, upto);
    assert upto[..i] == looks[..i];
    forall k | i <= k < |looks|
      ensures !Lit(looks[k].levels)
    {
      if k >= j {
        OffIsNotLit(looks[k].levels);
      } else {
        assert upto[k] == looks[k];
      }
    }
    assert OffSince(start, looks, i);
    assert GraceOver(looks, i, b);
    SuspendedIff(start, looks);
  }

  /** The same on the clock, in nanoseconds: a second, and then eleven, of darkness suspend the daemon. */
  lemma DarkSuspendsInTime(start: Disp, looks: seq<Look>, j: nat, a: nat, b: nat)
    requires start.state == Unknown && j <= a < b < |looks|
    requires forall k :: 0 <= k < |looks| ==> Normal(looks[k].now) && 0 <= looks[k].now.sec
    requires forall k :: j <= k < |looks| ==> AllOff(looks[k].levels)
    requires forall k :: 0 <= k < a ==> Nanos(looks[a].now) - Nanos(looks[k].now) >= 1_000_000_000
    requires forall k :: 0 <= k <= a ==> Nanos(looks[b].now) - Nanos(looks[k].now) >= 11_000_000_000
    ensures Run(start, looks).state == Suspend
  {
    hide DtSec, AllOff, Run;
    forall k | 0 <= k < a
      ensures DtSec(looks[k].now, looks[a].now) >= 65536
    {
      DtAtLeast(looks[k].now, looks[a].now, 1);
    }
    forall k | 0 <= k <= a
      ensures DtSec(looks[k].now, looks[b].now) > 655360
    {
      DtAtLeast(looks[k].now, looks[b].now, 11);
    }
    DarkSuspends(start, looks, j, a, b);
  }
}
