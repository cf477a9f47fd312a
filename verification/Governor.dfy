/** The long-lived context: the governor tick and the PSI trigger protocol of src/core/gov.c, the reactor
    of src/core/epoll.c, and acquisition and release in src/core/daemon.c. */
module Governor {
  import opened Machine
  import opened FixedPoint
  import opened Time
  import opened Display
  import opened Descriptors
  import opened Ledger
  import Kalman
  import LoadDemand
  import Mapping
  import Poll
  import Psi
  import Tune

  const PSI_FAIL_MAX := 6
  const BAT_CHK_S := 5
  const THERM_CHK_S := 1
  const SUSPEND_MS := 5000
  const BL_MAX := 4
  const NR_NODES := 6
  const START: Disp := Display.Disp(Unknown, Stamp(0, 0), Stamp(0, 0))

  /** How the calls that re-arm the trigger turn out. */
  datatype Arming = Arming(open: bool, write: bool, add: bool)

  /** Everything a tick gets from outside: the clock, the backlights, what pread of the pressure file
      returns (nothing: failure), the outcome of reopening and re-arming, the battery readings, the thermal
      scale the thermal loop would set, the clock again for the poll interval, and how long the tick took. */
  datatype Tick = Tick(
    now: Stamp, levels: seq<Level>, text: seq<byte>, reopen: bool, arm: Arming, batLvl: q16, batTemp: q16,
    thScl: q16, later: Stamp, calcMs: int)

  /** What epoll_wait reports for one descriptor, and the tick a trigger event leads to. */
  datatype Event = Event(fd: int, sigRead: bool, tick: Tick)

  /** One return of epoll_wait. */
  datatype Wait = Interrupted(elapsedMs: int) | Broken | Timeout(tick: Tick) | Ready(events: seq<Event>)

  /** One of the first n events is a termination signal that could be read. */
  predicate Terminates(events: seq<Event>, n: nat, sigFd: int)
    requires n <= |events|
  {
    exists i :: 0 <= i < n && events[i].fd == sigFd && events[i].sigRead
  }

  /** How many of the calls succeed. */
  function Opening(opens: seq<bool>): nat {
    if opens == [] then 0
    else
      var k := |opens| - 1;
      Opening(opens[..k]) + if opens[k] then 1 else 0
  }

  /** How many of the returns are timeouts. */
  function Timeouts(waits: seq<Wait>): nat {
    if waits == [] then 0
    else
      var k := |waits| - 1;
      Timeouts(waits[..k]) + if waits[k].Timeout? then 1 else 0
  }

  lemma NoTimeouts(waits: seq<Wait>)
    ensures Timeouts(waits[..0]) == 0
  {
  }

  lemma TimeoutsSnoc(waits: seq<Wait>, i: nat)
    requires i < |waits|
    ensures Timeouts(waits[..i + 1]) == Timeouts(waits[..i]) + if waits[i].Timeout? then 1 else 0
  {
    assert waits[..i + 1][..i] == waits[..i];
  }

  /** Whether each acquisition of the boot sequence succeeds, and the wake-ups of the reactor. */
  datatype Boot = Boot(
    privileged: bool, lockOpen: bool, lockHeld: bool, booted: bool, candidates: seq<seq<bool>>, logOpen: bool,
    hasPsi: bool,
    cpuTemp: bool, batTemp: bool, batCap: bool, trgOpen: bool, trgWrite: bool, psi: bool, sig: bool,
    backlights: seq<bool>, epoll: bool, addSig: bool, addTrg: bool, waits: seq<Wait>)

  predicate BootInput(b: Boot) {
    |b.candidates| == NR_NODES && |b.backlights| <= BL_MAX
  }

  /** The boot sequence gets as far as the reactor and the reactor starts. Without a node to write the daemon is
      dormant and needs no trigger. */
  predicate Runs(b: Boot) {
    && b.privileged && b.lockOpen && b.lockHeld && b.booted && b.hasPsi && b.sig && b.epoll && b.addSig
    && (Found(b.candidates) > 0 ==> b.trgOpen && b.trgWrite && b.addTrg)
  }

  /** min(1000 << (fails - 1), 30000) */
  function RetryMs(fails: nat): (ms: int)
    requires 1 <= fails <= PSI_FAIL_MAX
    ensures 1000 <= ms <= 30000
    ensures ms == [1000, 2000, 4000, 8000, 16000, 30000][fails - 1]
  {
    assert Pow2(2) == 4 && Pow2(4) == 16 && Pow2(5) == 32;
    var delay := 1000 * Pow2(fails - 1);
    if delay > 30000 then 30000 else delay
  }

  predicate EarlyOnlyIn(owner: map<int, File>) {
    forall k :: k in owner ==> owner[k] == Other || owner[k] == Lock || owner[k].Node?
  }

  /** How many nodes have a candidate that opens. */
  function Found(candidates: seq<seq<bool>>): nat {
    if candidates == [] then 0
    else
      var k := |candidates| - 1;
      Found(candidates[..k]) + if true in candidates[k] then 1 else 0
  }

  /** The boot sequence gets as far as opening the log. */
  predicate ReachesLog(b: Boot) { b.privileged && b.lockOpen && b.lockHeld && b.booted && b.logOpen }

  /** The log ends on a standard error descriptor that nobody closes: 0, 1 and 2 are all free and no node opens. */
  predicate LogStays(inherited: set<int>, b: Boot) {
    ReachesLog(b) && inherited !! {0, 1, STDERR} && Found(b.candidates) == 0
  }

  /** The log replaces the file behind a descriptor of the lock or a node: 2 is free, and the lock and the nodes
      are enough to reach it. */
  predicate FileLost(inherited: set<int>, b: Boot) {
    ReachesLog(b) && STDERR !in inherited && 1 + Found(b.candidates) > LowFree(inherited)
  }

  /** The history of samples: the display came on, or a sample was taken. */
  datatype Mark = Woke | Sampled(trend: Psi.Trend)

  /** The next sample will be the first since start-up or since the display last came on. */
  predicate Awaiting(marks: seq<Mark>) { marks == [] || marks[|marks| - 1].Woke? }

  /** The kernel's own ten-second average, standing still. */
  predicate Seeded(t: Psi.Trend) { t.cur == t.avg10 && t.vel == 0 && t.nis == 0 }

  /** Every first sample of the history is seeded. */
  predicate FirstsSeeded(marks: seq<Mark>) {
    forall i :: 0 <= i < |marks| && marks[i].Sampled? && Awaiting(marks[..i]) ==> Seeded(marks[i].trend)
  }

  lemma MarkAppended(marks: seq<Mark>, m: Mark)
    requires FirstsSeeded(marks) && (m.Sampled? && Awaiting(marks) ==> Seeded(m.trend))
    ensures FirstsSeeded(marks + [m])
  {
    forall i | 0 <= i < |marks + [m]| && (marks + [m])[i].Sampled? && Awaiting((marks + [m])[..i])
      ensures Seeded((marks + [m])[i].trend)
    {
      assert (marks + [m])[..i] == marks[..i];
      if i == |marks| {
        assert marks[..i] == marks;
      }
    }
  }

  /** What can be seen when the reactor is about to wait. */
  datatype Head = Head(open: map<int, File>, watched: set<int>, trg: int, sig: int, wake: int)

  /** At most one PSI trigger is open: it is the one in trg_fd, and it is registered; nothing else is but the
      signal descriptor. And the reactor will not spin. */
  ghost predicate AtHead(h: Head) {
    && (forall k :: k in h.open && h.open[k] == Trigger <==> k == h.trg && h.trg >= 0)
    && h.watched == (if h.trg >= 0 then {h.sig, h.trg} else {h.sig}) && h.sig != h.trg
    && h.wake >= 1
  }

  class Context {
    const fds: Table
    const psi: Psi.Monitor
    const load: LoadDemand.LoadState
    const poll: Poll.PollState
    const cfg: Tune.Cfg
    var dispState: State
    var lastDisp: Stamp
    var lastDispoff: Stamp
    var lastBat: Stamp
    var lastTherm: Stamp
    var lastTick: Stamp
    var batLvl: q16
    var batTemp: q16
    var cachedThScl: q16
    var remapDue: bool
    var epollFd: int
    var sigFd: int
    var trgFd: int
    var lockFd: int
    var cpuTempFd: int
    var batTempFd: int
    var batCapFd: int
    var bl: seq<int>
    var nodes: seq<int>
    var nextWake: int
    var psiFails: nat
    var dormant: bool
    var shutdownReq: bool
    ghost var marks: seq<Mark>
    /** Every look at the display so far. */
    ghost var looks: seq<Look>
    /** Descriptors inherited from outside. */
    ghost var others: set<int>

    ghost function Disp(): Disp
      reads `dispState, `lastDisp, `lastDispoff
    {
      Display.Disp(dispState, lastDisp, lastDispoff)
    }

    ghost function Held(): Fields
      reads `lockFd, `nodes, `cpuTempFd, `batTempFd, `batCapFd, `trgFd, `sigFd, `bl, `epollFd, `others, psi`fd
    {
      Fields(others, lockFd, nodes, cpuTempFd, batTempFd, batCapFd, trgFd, psi.fd, sigFd, bl, epollFd)
    }

    ghost predicate Tidy()
      reads `lockFd, `nodes, `cpuTempFd, `batTempFd, `batCapFd, `trgFd, `sigFd, `bl, `epollFd, `others, psi`fd, fds
    {
      |nodes| == NR_NODES && fds.Valid() && Accounted(fds.owner, Held())
    }

    /** The reactor's descriptors: the trigger, if there is one, and the signal descriptor are registered. */
    ghost predicate Wired()
      reads `lockFd, `nodes, `cpuTempFd, `batTempFd, `batCapFd, `trgFd, `sigFd, `bl, `epollFd, `others, psi`fd, fds
    {
      Tidy() && epollFd >= 0 && sigFd >= 0 && fds.watched == (if trgFd >= 0 then {sigFd, trgFd} else {sigFd})
    }

    ghost predicate Steady()
      reads `dispState, `lastDisp, `lastDispoff, `looks, `psiFails, `nextWake, `marks
      reads psi`firstRun, load`prevInteg, poll
    {
      && psiFails <= PSI_FAIL_MAX && nextWake >= 1 && cfg.transPoll >= ONE
      && 0 <= load.prevInteg <= 97 * ONE && Poll.InRange(poll.Value())
      && (Awaiting(marks) ==> psi.firstRun) && FirstsSeeded(marks)
      && Disp() == Display.Run(START, looks)
    }

    /** What holds whenever the reactor is about to wait. */
    ghost predicate LoopHead()
      reads this, psi, fds, load, poll
    {
      Wired() && Steady()
    }

    ghost function HeadNow(): Head
      reads this, fds
    {
      Head(fds.open, fds.watched, trgFd, sigFd, nextWake)
    }

    /** init_context_defaults, pg_psi_init, pg_poll_init and the static zeroes. */
    constructor (open: map<int, File>, cfg: Tune.Cfg, now: Stamp, wall: Stamp, wide: bool)
      requires (forall k :: k in open ==> k >= 0 && open[k] == Other) && cfg.transPoll >= ONE
      ensures Tidy() && Steady()
      ensures fresh(fds) && fresh(psi) && fresh(psi.filter) && fresh(load) && fresh(poll)
      ensures fds.open == fds.owner == open && fds.watched == {} && others == open.Keys
      ensures psi.fd == lockFd == cpuTempFd == batTempFd == batCapFd == trgFd == sigFd == epollFd == -1 && bl == []
      ensures nodes == [-1, -1, -1, -1, -1, -1]
      ensures Disp() == START && looks == [] && marks == [] && psi.firstRun && !shutdownReq && !dormant
    {
      others := open.Keys;
      fds := new Table(open);
      psi := new Psi.Monitor(-1, now);
      load := new LoadDemand.LoadState();
      poll := new Poll.PollState(now, wall, wide);
      this.cfg := cfg;
      var zero := Stamp(0, 0);
      dispState, lastDisp, lastDispoff, lastBat, lastTherm, lastTick := Unknown, zero, zero, now, now, now;
      epollFd, sigFd, trgFd, lockFd, cpuTempFd, batTempFd, batCapFd := -1, -1, -1, -1, -1, -1, -1;
      bl, nodes := [], [-1, -1, -1, -1, -1, -1];
      batLvl, batTemp, cachedThScl, remapDue := 0, 0, ONE, false;
      nextWake, psiFails, dormant, shutdownReq, marks, looks := Poll.MIN_MS, 0, false, false, [], [];
    }

    // ----- the display

    /** update_disp: refines the display machine. Whenever the display comes on, the filter, the load state
        and the pressure monitor start afresh. */
    method UpdateDisp(now: Stamp, levels: seq<Level>) returns (suspended: bool)
      modifies `dispState, `lastDisp, `lastDispoff, `nextWake, `lastTick, `marks, `looks, psi, psi.filter, load`firstRun
      ensures looks == old(looks) + [Look(now, levels)] && Disp() == Display.Step(old(Disp()), Look(now, levels))
      ensures suspended <==> dispState == Suspend
      ensures suspended ==> nextWake == SUSPEND_MS && lastTick == now
      ensures !suspended ==> nextWake == old(nextWake) && lastTick == old(lastTick)
      ensures psi.fd == old(psi.fd)
      ensures var woke := old(dispState) != On && dispState == On;
              && marks == (if woke then old(marks) + [Woke] else old(marks))
              && (woke ==> psi.firstRun && psi.filter.Value() == Kalman.INITIAL && load.firstRun)
              && (!woke ==> unchanged(psi) && unchanged(psi.filter) && unchanged(load))
    {
      hide Lit, DtSec;
      looks := looks + [Look(now, levels)];
      if dispState == On && DtSec(lastDisp, now) < CHECK_S * ONE {
        return false;
      }
      lastDisp := now;
      var on := Lit(levels);
      if on && dispState != On {
        load.firstRun := true;
        psi.Restart();
        marks := marks + [Woke];
        dispState := On;
      } else if !on && (dispState == On || dispState == Unknown) {
        dispState := Grace;
        lastDispoff := now;
      } else if !on && dispState == Grace {
        if DtSec(lastDispoff, now) > GRACE_S * ONE {
          dispState := Suspend;
        }
      }
      if dispState == Suspend {
        nextWake := SUSPEND_MS;
        lastTick := now;
        return true;
      }
      return false;
    }

    /** The same between two waits of the reactor. */
    method LookAtDisplay(now: Stamp, levels: seq<Level>) returns (suspended: bool)
      requires LoopHead()
      modifies `dispState, `lastDisp, `lastDispoff, `nextWake, `lastTick, `marks, `looks, psi, psi.filter, load`firstRun
      ensures LoopHead() && looks == old(looks) + [Look(now, levels)] && old(marks) <= marks
      ensures suspended <==> dispState == Suspend
      ensures psiFails <= PSI_FAIL_MAX && (suspended ==> nextWake == 5000)
    {
      hide Wired, FirstsSeeded, Display.Run, Display.Step, Poll.InRange;
      MarkAppended(marks, Woke);
      RunSnoc(START, looks, Look(now, levels));
      suspended := UpdateDisp(now, levels);
    }

    // ----- the trigger protocol

    /** pg_psi_open_trg: a descriptor whose configuration could not be written is closed again. */
    method OpenTrg(open: bool, write: bool) returns (fd: int)
      requires fds.Valid()
      modifies fds
      ensures fds.Valid() && fds.watched == old(fds.watched)
      ensures if open && write
              then fd >= 0 && fd !in old(fds.open) && fd !in old(fds.owner) &&
                   fds.open == old(fds.open)[fd := Trigger] && fds.owner == old(fds.owner)[fd := Trigger]
              else fd < 0 && fds.open == old(fds.open) && fds.owner == old(fds.owner)
    {
      fd := fds.Open(Trigger, open);
      if fd < 0 {
        return;
      }
      if !write {
        fds.Close(fd);
        return -1;
      }
    }

    /** pg_epoll_add_trg */
    method AddTrg(ok: bool) returns (ret: int)
      requires fds.Valid()
      modifies fds`watched
      ensures fds.Valid() && ret <= 0
      ensures ret == 0 <==> trgFd >= 0 && epollFd >= 0 && trgFd in fds.open && trgFd !in old(fds.watched) && ok
      ensures fds.watched == if ret == 0 then old(fds.watched) + {trgFd} else old(fds.watched)
    {
      if trgFd < 0 || epollFd < 0 {
        return -9;
      }
      ret := fds.Add(trgFd, ok);
    }

    /** pg_epoll_rm_trg, then the close of read_psi: no trigger is open any more. */
    method DropTrg()
      requires Wired()
      modifies fds, `trgFd
      ensures Wired() && trgFd < 0
    {
      hide FdOf, Accounted, Changed, Table.Valid;
      if trgFd >= 0 && epollFd >= 0 {
        fds.Remove(trgFd);
      }
      if trgFd >= 0 {
        Numbers();
        Apart(fds.owner, Held(), Trigger, Signal);
        CloseTrg();
      }
    }

    method CloseTrg()
      requires Tidy() && trgFd >= 0
      modifies fds, `trgFd
      ensures Tidy() && trgFd == -1 && fds.watched == old(fds.watched) - {old(trgFd)}
    {
      hide FdOf, Accounted, Changed, Table.Valid;
      ghost var h := Held();
      Numbers();
      FieldSet(h, -1);
      fds.Close(trgFd);
      trgFd := -1;
      Released(old(fds.owner), h, Trigger, Held());
    }

    /** Where the three descriptors of the reactor and the pressure file are. */
    lemma Numbers()
      requires Tidy()
      ensures FdOf(Held(), Trigger) == trgFd && FdOf(Held(), Signal) == sigFd
      ensures FdOf(Held(), Epoll) == epollFd && FdOf(Held(), Pressure) == psi.fd
      ensures trgFd >= 0 ==> trgFd in fds.open && trgFd in fds.owner && fds.open[trgFd] == Trigger
      ensures sigFd >= 0 ==> sigFd in fds.open && sigFd in fds.owner && fds.open[sigFd] == Signal
      ensures epollFd >= 0 ==> epollFd in fds.open && epollFd in fds.owner && fds.open[epollFd] == Epoll
      ensures psi.fd >= 0 ==> psi.fd in fds.open && psi.fd in fds.owner && fds.open[psi.fd] == Pressure
    {
      assert Known(fds.owner, Trigger, FdOf(Held(), Trigger)) && Known(fds.owner, Signal, FdOf(Held(), Signal));
      assert Known(fds.owner, Epoll, FdOf(Held(), Epoll)) && Known(fds.owner, Pressure, FdOf(Held(), Pressure));
    }

    /** arm_trigger: a trigger that cannot be registered is closed at once. */
    method ArmTrigger(a: Arming)
      requires Wired() && trgFd < 0
      modifies fds, `trgFd
      ensures Wired()
      ensures trgFd >= 0 <==> a.open && a.write && a.add
    {
      hide FdOf, Accounted, Changed, Table.Valid;
      ghost var h := Held();
      Numbers();
      var fd := OpenTrg(a.open, a.write);
      if fd < 0 {
        return;
      }
      FieldSet(h, fd);
      trgFd := fd;
      Acquired(old(fds.owner), h, Trigger, fd, Held());
      Register(a.add);
    }

    /** The second half of arm_trigger: a fresh trigger, not yet registered. */
    method Register(ok: bool)
      requires Tidy() && epollFd >= 0 && sigFd >= 0 && trgFd >= 0 && fds.watched == {sigFd}
      modifies fds, `trgFd
      ensures Wired() && (trgFd >= 0 <==> ok)
    {
      hide FdOf, Accounted, Changed, Table.Valid;
      Numbers();
      Apart(fds.owner, Held(), Trigger, Signal);
      var ret := AddTrg(ok);
      assert {sigFd} + {trgFd} == {sigFd, trgFd};
      if ret < 0 {
        CloseTrg();
      }
    }

    /** pg_psi_recov: reopens the pressure file; on success the monitor starts afresh. */
    method RecovPsi(ok: bool)
      requires Wired()
      modifies fds, psi, psi.filter
      ensures Wired()
      ensures psi.fd >= 0 <==> ok
      ensures ok ==> psi.firstRun && psi.filter.Value() == Kalman.INITIAL
      ensures psi.firstRun == (ok || old(psi.firstRun))
    {
      hide Wired;
      ClosePsi();
      Reopen(ok);
      if psi.fd >= 0 {
        psi.Restart();
      }
    }

    method ClosePsi()
      requires Wired()
      modifies fds, psi`fd
      ensures Wired() && psi.fd < 0
    {
      hide FdOf, Accounted, Changed, Table.Valid;
      ghost var h := Held();
      FieldSet(h, -1);
      Numbers();
      if psi.fd >= 0 {
        fds.Close(psi.fd);
        psi.fd := -1;
        Released(old(fds.owner), h, Pressure, Held());
      }
    }

    method Reopen(ok: bool)
      requires Wired() && psi.fd < 0
      modifies fds, psi`fd
      ensures Wired() && (psi.fd >= 0 <==> ok)
    {
      hide FdOf, Accounted, Changed, Table.Valid;
      ghost var h := Held();
      Numbers();
      psi.fd := fds.Open(Pressure, ok);
      FieldSet(h, psi.fd);
      Taken(old(fds.owner), fds.owner, h, Pressure, psi.fd, Held());
    }

    /** read_psi. A success returns the sample, and the first one since the display came on is the kernel's
        own ten-second average with zero velocity and zero NIS. A failure doubles the wait up to half a
        minute, drops the trigger, reopens the pressure file and arms a new trigger. */
    method ReadPsi(t: Tick) returns (ok: bool, trend: Psi.Trend)
      requires LoopHead()
      modifies fds, psi, psi.filter, `trgFd, `psiFails, `nextWake, `marks
      ensures LoopHead()
      ensures ok ==> psiFails == 0 && nextWake == old(nextWake) && trgFd == old(trgFd)
      ensures marks == if ok then old(marks) + [Sampled(trend)] else old(marks)
      ensures ok <==> old(psi.fd) >= 0 && t.text != [] && Psi.FindSome(t.text).Line?
      ensures ok && Awaiting(old(marks)) ==> Seeded(trend)
      ensures !ok ==> psiFails == (if old(psiFails) < PSI_FAIL_MAX then old(psiFails) + 1 else PSI_FAIL_MAX)
      ensures !ok ==> psiFails > 0 && nextWake == RetryMs(psiFails)
      ensures !ok ==> (trgFd >= 0 <==> t.arm.open && t.arm.write && t.arm.add) && (psi.fd >= 0 <==> t.reopen)
    {
      hide Wired, Display.Run, Seeded, FirstsSeeded;
      hide Psi.FindSome, Psi.ReadFilter, Psi.ReadTrend, Psi.ReadDt, Psi.ParseTail;
      ok, trend := Sample(t);
      if ok {
        if psiFails != 0 {
          psiFails := 0;
        }
        MarkAppended(marks, Sampled(trend));
        marks := marks + [Sampled(trend)];
        return;
      }
      ReadFailed(t);
    }

    /** The failure path of read_psi. */
    method ReadFailed(t: Tick)
      requires LoopHead()
      modifies fds, psi, psi.filter, `trgFd, `psiFails, `nextWake
      ensures LoopHead()
      ensures psiFails == if old(psiFails) < PSI_FAIL_MAX then old(psiFails) + 1 else PSI_FAIL_MAX
      ensures psiFails > 0 && nextWake == RetryMs(psiFails)
      ensures (trgFd >= 0 <==> t.arm.open && t.arm.write && t.arm.add) && (psi.fd >= 0 <==> t.reopen)
    {
      hide Pow2, Wired, Display.Run, FirstsSeeded;
      if psiFails < PSI_FAIL_MAX {
        psiFails := psiFails + 1;
      }
      var delay := 1000 * Pow2(psiFails - 1);
      nextWake := if delay > 30000 then 30000 else delay;
      assert nextWake == RetryMs(psiFails);
      DropTrg();
      RecovPsi(t.reopen);
      ArmTrigger(t.arm);
    }

    /** The pread and pg_psi_read of a tick. */
    method Sample(t: Tick) returns (ok: bool, trend: Psi.Trend)
      modifies psi, psi.filter
      ensures psi.fd == old(psi.fd) && (!ok ==> psi.firstRun == old(psi.firstRun))
      ensures ok && old(psi.firstRun) ==> Seeded(trend)
      ensures ok <==> old(psi.fd) >= 0 && t.text != [] && Psi.FindSome(t.text).Line?
      ensures ok ==>
        var smp, dt := old(psi.SampleOf(t.text)), Psi.ReadDt(old(psi.firstRun), old(psi.lastRead), t.now);
        && psi.filter.Value()
           == Psi.ReadFilter(old(psi.filter.Value()), smp, old(psi.firstRun), old(psi.lastTot), dt)
        && trend == Psi.ReadTrend(psi.filter.Value(), smp, old(psi.firstRun))
    {
      hide Psi.FindSome, Psi.ReadFilter, Psi.ParseTail;
      var buf := new byte[|t.text|](i requires 0 <= i < |t.text| => t.text[i]);
      assert buf[..buf.Length] == t.text;
      ok, trend := psi.Read(buf, buf.Length, t.now);
    }

    /** poll_battery_metrics */
    method PollBattery(t: Tick)
      requires Wired()
      modifies fds, `trgFd, `lastBat, `batLvl, `batTemp
      ensures Wired()
      ensures DtSec(old(lastBat), t.now) >= 5 * 65536 ==>
                && lastBat == t.now && batLvl == t.batLvl && batTemp == t.batTemp
                && (trgFd >= 0 <==> old(trgFd) >= 0 || (t.arm.open && t.arm.write && t.arm.add))
      ensures DtSec(old(lastBat), t.now) < 5 * 65536 ==>
                lastBat == old(lastBat) && batLvl == old(batLvl) && batTemp == old(batTemp) && trgFd == old(trgFd)
    {
      hide DtSec, Accounted;
      if DtSec(lastBat, t.now) < BAT_CHK_S * ONE {
        return;
      }
      batLvl, batTemp := t.batLvl, t.batTemp;
      lastBat := t.now;
      if trgFd < 0 {
        ArmTrigger(t.arm);
      }
    }

    // ----- a tick and the reactor

    /** calc_demand: one step of the load model on the sample, the battery level, the thermal scale and the time since
        the last tick, cut to [1, 6553]. Whatever the sample is, the demand is in [0, 500], and the pressure is the one
        it gives with the trend gain of the sample. The thermal loop runs once a second and makes a remapping due. */
    method Demand(t: Tick, trend: Psi.Trend) returns (lDem: q16, pEff: q16, ghost inp: LoadDemand.Input)
      requires Wired() && 0 <= load.prevInteg <= 97 * ONE
      modifies fds, `trgFd, `lastBat, `batLvl, `batTemp, `lastTherm, `cachedThScl, `remapDue, `lastTick, load
      ensures Wired() && 0 <= load.prevInteg <= 97 * ONE && load.psiRef == old(load.psiRef)
      ensures 0 <= lDem <= LoadDemand.PSI_MAX && lDem == load.psiVal
      ensures pEff == Mapping.Pressure(lDem, trend.vel, load.eff)
      ensures load.Value() == LoadDemand.MachineStep(old(load.psiVal), old(load.rate), inp, load.eff, cfg.surgeThresh)
      ensures inp.tgtPsi == trend.cur && inp.vel == trend.vel && inp.trendFact == LoadDemand.TrendGain(trend.vel)
      ensures inp.thermScale == cachedThScl && inp.integ == LoadDemand.Depletion(batLvl)
      ensures inp.integDt == if old(load.firstRun) || DtSec(old(lastTick), t.now) <= 0 then 0
                             else TruncDiv((inp.integ - old(load.prevInteg)) * 65536, 5 * 65536)
      ensures inp.dtSafe == Max(1, Min(DtSec(old(lastTick), t.now), 6553))
      ensures inp.structBreak <==> trend.nis > load.eff.nisThresh
      ensures var due := DtSec(old(lastTherm), t.now) >= 65536;
              && remapDue == (old(remapDue) || due)
              && cachedThScl == (if due then t.thScl else old(cachedThScl))
              && lastTherm == (if due then t.now else old(lastTherm))
      ensures load.eff == LoadDemand.UpdEff(batLvl, cachedThScl, trend.avg300) && lastTick == t.now
    {
      hide *;
      PollBattery(t);
      RenewThermal(t);
      lDem, pEff, inp := LoadStep(t, trend);
    }

    /** The thermal part of calc_demand. */
    method RenewThermal(t: Tick)
      modifies `lastTherm, `cachedThScl, `remapDue
      ensures var due := DtSec(old(lastTherm), t.now) >= 65536;
              && remapDue == (old(remapDue) || due)
              && cachedThScl == (if due then t.thScl else old(cachedThScl))
              && lastTherm == (if due then t.now else old(lastTherm))
    {
      hide DtSec;
      if DtSec(lastTherm, t.now) >= THERM_CHK_S * ONE {
        cachedThScl, lastTherm, remapDue := t.thScl, t.now, true;
      }
    }

    /** The rest of it. */
    method LoadStep(t: Tick, trend: Psi.Trend) returns (lDem: q16, pEff: q16, ghost inp: LoadDemand.Input)
      requires 0 <= load.prevInteg <= 97 * ONE
      modifies `lastTick, load
      ensures 0 <= load.prevInteg <= 97 * ONE && load.psiRef == old(load.psiRef)
      ensures 0 <= lDem <= LoadDemand.PSI_MAX && lDem == load.psiVal
      ensures pEff == Mapping.Pressure(lDem, trend.vel, load.eff)
      ensures load.Value() == LoadDemand.MachineStep(old(load.psiVal), old(load.rate), inp, load.eff, cfg.surgeThresh)
      ensures inp.tgtPsi == trend.cur && inp.vel == trend.vel && inp.trendFact == LoadDemand.TrendGain(trend.vel)
      ensures inp.thermScale == cachedThScl && inp.integ == LoadDemand.Depletion(batLvl)
      ensures inp.integDt == if old(load.firstRun) || DtSec(old(lastTick), t.now) <= 0 then 0
                             else TruncDiv((inp.integ - old(load.prevInteg)) * 65536, 5 * 65536)
      ensures inp.dtSafe == Max(1, Min(DtSec(old(lastTick), t.now), 6553))
      ensures inp.structBreak <==> trend.nis > load.eff.nisThresh
      ensures load.eff == LoadDemand.UpdEff(batLvl, cachedThScl, trend.avg300) && lastTick == t.now
    {
      hide *;
      var dtReal := DtSec(lastTick, t.now);
      lastTick := t.now;
      lDem, pEff, inp := Mapping.CalcDemand(
        load, batLvl, cachedThScl, trend.avg300, dtReal, trend.cur, trend.vel, trend.nis, cfg.surgeThresh);
      SafeStep(dtReal);
    }

    static lemma SafeStep(dt: q16)
      ensures Clamp(dt, 1, LoadDemand.DT_SAFE) == Max(1, Min(dt, 6553))
    {
    }

    /** gov_gate: the next wait is what the poll interval asks for, shortened while the load is moving. Returns whether
        the six nodes are to be remapped. */
    method Gate(t: Tick, trend: Psi.Trend, pEff: q16) returns (remap: bool)
      requires Poll.InRange(poll.Value()) && cfg.transPoll >= ONE
      modifies `nextWake, `remapDue, load`psiRef, poll
      ensures Poll.InRange(poll.Value()) && nextWake >= 1
      ensures poll.Value() == Poll.Step(old(poll.Value()), Poll.Tick(t.later, pEff, trend.avg300, trend.vel))
      ensures var moving := old(load.Moving(cfg.transRate, cfg.transDiff));
              && remap == (moving || old(remapDue)) && !remapDue
              && nextWake == (if moving then Min(poll.Value().wait, cfg.transPoll / ONE) else poll.Value().wait)
              && load.psiRef == (if remap then load.psiVal else old(load.psiRef))
    {
      hide Poll.Step, AbsQ16, Sub32;
      var nPoll := poll.CalcNext(t.later, pEff, trend.avg300, trend.vel);
      nextWake := nPoll;
      var moving := load.Moving(cfg.transRate, cfg.transDiff);
      if !moving && !remapDue {
        return false;
      }
      if moving {
        var tPoll := cfg.transPoll / ONE;
        if nPoll > tPoll {
          nextWake := tPoll;
        }
      }
      load.psiRef := load.psiVal;
      remapDue := false;
      return true;
    }

    /** The two together. */
    method DemandAndGate(t: Tick, trend: Psi.Trend) returns (remap: bool, lDem: q16, pEff: q16)
      requires LoopHead()
      modifies fds, `trgFd, `lastBat, `batLvl, `batTemp, `lastTherm, `cachedThScl, `remapDue, `lastTick, `nextWake
      modifies load, poll
      ensures LoopHead() && 0 <= lDem <= LoadDemand.PSI_MAX && lDem == load.psiVal
      ensures pEff == Mapping.Pressure(lDem, trend.vel, load.eff)
      ensures nextWake == poll.Value().wait || nextWake == Min(poll.Value().wait, cfg.transPoll / 65536)
    {
      hide Wired, Mapping.Pressure, Display.Run, FirstsSeeded, Awaiting, LoadDemand.LoadState.Moving, Poll.Step, DtSec;
      hide LoadDemand.MachineStep, LoadDemand.UpdEff, LoadDemand.Depletion, LoadDemand.TrendGain, TruncDiv;
      ghost var inp;
      lDem, pEff, inp := Demand(t, trend);
      remap := Gate(t, trend, pEff);
    }

    /** The wait a tick sets: 5 s while suspended, the retry wait after a failed read, and otherwise the wait of the
        poll interval, or that cut to the configured one while the load moves. */
    ghost predicate WakeSet(wake: int)
      requires psiFails <= PSI_FAIL_MAX
      reads `dispState, `psiFails, poll
    {
      if dispState == Suspend then wake == 5000
      else if psiFails > 0 then wake == [1000, 2000, 4000, 8000, 16000, 30000][psiFails - 1]
      else wake == poll.Value().wait || wake == Min(poll.Value().wait, cfg.transPoll / 65536)
    }

    /** exec_gov_logic, up to the writes of apply_mapping. */
    method Exec(t: Tick)
      requires LoopHead()
      modifies this, fds, psi, psi.filter, load, poll
      ensures psiFails <= PSI_FAIL_MAX && WakeSet(nextWake)
      ensures LoopHead() && Kept(old(sigFd), old(shutdownReq), old(others)) && dormant == old(dormant)
      ensures looks == old(looks) + [Look(t.now, t.levels)] && old(marks) <= marks
    {
      hide LoopHead, Lit, DtSec, Display.Step;
      var suspended := LookAtDisplay(t.now, t.levels);
      if suspended {
        return;
      }
      var ok, trend := ReadPsi(t);
      if !ok {
        return;
      }
      var remap, lDem, pEff := DemandAndGate(t, trend);
    }

    /** What no tick changes. */
    ghost predicate Kept(sig: int, shutdown: bool, inherited: set<int>)
      reads this
    {
      sigFd == sig && shutdownReq == shutdown && others == inherited
    }

    method DormantTick(t: Tick)
      requires LoopHead()
      modifies this, psi, psi.filter, load`firstRun
      ensures LoopHead() && Kept(old(sigFd), old(shutdownReq), old(others)) && dormant == old(dormant)
      ensures looks == old(looks) + [Look(t.now, t.levels)] && old(marks) <= marks
      ensures nextWake == if dispState == Suspend then 5000 else 10_000
    {
      hide Wired, Display.Run, Display.Step, FirstsSeeded;
      var suspended := LookAtDisplay(t.now, t.levels);
      if !suspended {
        nextWake := Poll.MAX_MS;
      }
    }

    /** pg_gov_process: the wait is shortened by the time the tick took, but never below one millisecond. */
    method Process(t: Tick)
      requires LoopHead()
      modifies this, fds, psi, psi.filter, load, poll
      ensures LoopHead() && Kept(old(sigFd), old(shutdownReq), old(others))
      ensures looks == old(looks) + [Look(t.now, t.levels)] && old(marks) <= marks
      ensures old(dormant) ==> nextWake == if dispState == Suspend then 5000 else 10_000
      ensures !old(dormant) ==>
        psiFails <= PSI_FAIL_MAX && exists wake :: WakeSet(wake) && nextWake == Max(1, wake - t.calcMs)
    {
      hide Wired, Display.Run, FirstsSeeded, WakeSet;
      if dormant {
        DormantTick(t);
        return;
      }
      Exec(t);
      ghost var wake := nextWake;
      assert WakeSet(wake);
      var adjWake := nextWake - t.calcMs;
      nextWake := if adjWake > 0 then adjWake else 1;
      assert WakeSet(wake) && nextWake == Max(1, wake - t.calcMs);
    }

    /** epoll_error */
    method WaitError(w: Wait)
      requires LoopHead()
      modifies `nextWake, `shutdownReq
      ensures LoopHead() && shutdownReq == (old(shutdownReq) || !w.Interrupted?)
      ensures nextWake == if w.Interrupted? then Max(1, old(nextWake) - w.elapsedMs) else old(nextWake)
    {
      if w.Interrupted? {
        if nextWake >= 0 {
          nextWake := nextWake - w.elapsedMs;
          if nextWake < 1 {
            nextWake := 1;
          }
        }
      } else {
        shutdownReq := true;
      }
    }

    /** epoll_events: a termination signal is noticed, and after it no trigger is handled any more; before it, a trigger
        leads to a tick. */
    method HandleEvents(events: seq<Event>)
      requires LoopHead()
      modifies this, fds, psi, psi.filter, load, poll
      ensures LoopHead() && sigFd == old(sigFd) && others == old(others)
      ensures old(looks) <= looks && old(marks) <= marks
      ensures old(shutdownReq) ==> shutdownReq && looks == old(looks)
      ensures shutdownReq <==> old(shutdownReq) || Terminates(events, |events|, sigFd)
      ensures events != [] && !old(shutdownReq) && events[0].fd == old(trgFd) != sigFd ==>
                old(looks) + [Look(events[0].tick.now, events[0].tick.levels)] <= looks
    {
      hide Wired, Steady;
      for i := 0 to |events|
        invariant LoopHead() && sigFd == old(sigFd) && others == old(others)
        invariant old(looks) <= looks && old(marks) <= marks
        invariant old(shutdownReq) ==> shutdownReq && looks == old(looks)
        invariant shutdownReq <==> old(shutdownReq) || Terminates(events, i, sigFd)
        invariant i == 0 ==> trgFd == old(trgFd) && looks == old(looks)
        invariant i > 0 && !old(shutdownReq) && events[0].fd == old(trgFd) != sigFd ==>
                    old(looks) + [Look(events[0].tick.now, events[0].tick.levels)] <= looks
      {
        var e := events[i];
        if e.fd == sigFd {
          if e.sigRead {
            shutdownReq := true;
          }
        } else if e.fd == trgFd {
          if !shutdownReq {
            Process(e.tick);
          }
        }
      }
    }

    /** epoll_setup: on failure no epoll instance is left behind. */
    method EpollSetup(create: bool, addSig: bool, addTrg: bool) returns (ret: int)
      requires Tidy() && epollFd < 0 && sigFd >= 0 && fds.watched == {}
      modifies fds, `epollFd
      ensures ret <= 0
      ensures ret == 0 <==> create && addSig && (trgFd >= 0 ==> addTrg)
      ensures ret == 0 ==> Wired()
      ensures ret != 0 ==> Tidy() && epollFd < 0 && fds.watched == {}
    {
      hide FdOf, Accounted, Changed, Table.Valid;
      ghost var h := Held();
      Numbers();
      epollFd := fds.Open(Epoll, create);
      FieldSet(h, epollFd);
      Taken(old(fds.owner), fds.owner, h, Epoll, epollFd, Held());
      if epollFd < 0 {
        return -1;
      }
      ret := RegisterBoth(addSig, addTrg);
    }

    /** The registrations of epoll_setup. */
    method RegisterBoth(addSig: bool, addTrg: bool) returns (ret: int)
      requires Tidy() && epollFd >= 0 && sigFd >= 0 && fds.watched == {}
      modifies fds, `epollFd
      ensures ret <= 0
      ensures ret == 0 <==> addSig && (trgFd >= 0 ==> addTrg)
      ensures ret == 0 ==> Wired()
      ensures ret != 0 ==> Tidy() && epollFd < 0 && fds.watched == {}
    {
      hide FdOf, Accounted, Changed, Table.Valid;
      Numbers();
      ret := fds.Add(sigFd, addSig);
      if ret < 0 {
        CloseEpoll();
        return;
      }
      if trgFd >= 0 {
        Apart(fds.owner, Held(), Trigger, Signal);
        ret := AddTrg(addTrg);
        assert {sigFd} + {trgFd} == {sigFd, trgFd};
        if ret < 0 {
          CloseEpoll();
          return;
        }
      }
    }

    method CloseEpoll()
      requires Tidy() && epollFd >= 0
      modifies fds, `epollFd
      ensures Tidy() && epollFd < 0 && fds.watched == {}
    {
      hide FdOf, Accounted, Changed, Table.Valid;
      ghost var h := Held();
      Numbers();
      fds.Close(epollFd);
      epollFd := -1;
      FieldSet(h, -1);
      Released(old(fds.owner), h, Epoll, Held());
    }

    /** pg_epoll_run over any finite list of wake-ups, or until a termination signal. What could be seen
        whenever the reactor was about to wait is returned as a trace; the histories of looks and samples only grow. */
    method EpollRun(create: bool, addSig: bool, addTrg: bool, waits: seq<Wait>)
      returns (ret: int, ghost heads: seq<Head>)
      requires Tidy() && Steady() && epollFd < 0 && sigFd >= 0 && fds.watched == {}
      modifies this, fds, psi, psi.filter, load, poll
      ensures Tidy() && Steady() && epollFd < 0 && fds.watched == {} && others == old(others)
      ensures forall h :: h in heads ==> AtHead(h)
      ensures ret == 0 <==> create && addSig && (old(trgFd) >= 0 ==> addTrg)
      ensures if ret != 0 then heads == [] else |heads| <= |waits| && (|heads| < |waits| ==> shutdownReq)
      ensures old(looks) <= looks && old(marks) <= marks
      ensures |heads| <= |waits| && |looks| >= |old(looks)| + Timeouts(waits[..|heads|])
    {
      heads := [];
      ret := EpollSetup(create, addSig, addTrg);
      if ret < 0 {
        return;
      }
      hide LoopHead, AtHead, Timeouts;
      var i := 0;
      while !shutdownReq && i < |waits|
        invariant LoopHead() && others == old(others) && i <= |waits|
        invariant |heads| == i && forall h :: h in heads ==> AtHead(h)
        invariant old(looks) <= looks && old(marks) <= marks
        invariant |looks| >= |old(looks)| + Timeouts(waits[..i])
      {
        HeadFine();
        TimeoutsSnoc(waits, i);
        heads := heads + [HeadNow()];
        HandleWait(waits[i]);
        i := i + 1;
      }
      Finish();
    }

    /** One return of epoll_wait. */
    method HandleWait(w: Wait)
      requires LoopHead()
      modifies this, fds, psi, psi.filter, load, poll
      ensures LoopHead() && sigFd == old(sigFd) && others == old(others)
      ensures old(looks) <= looks && old(marks) <= marks
      ensures |looks| >= |old(looks)| + if w.Timeout? then 1 else 0
    {
      hide Wired, Steady;
      match w
      case Interrupted(_) => WaitError(w);
      case Broken => WaitError(w);
      case Timeout(t) => Process(t);
      case Ready(events) => HandleEvents(events);
    }

    /** The end of pg_epoll_run. */
    method Finish()
      requires LoopHead()
      modifies fds, `epollFd
      ensures Tidy() && Steady() && epollFd < 0 && fds.watched == {}
    {
      hide Accounted, Display.Run, FirstsSeeded, Poll.InRange;
      CloseEpoll();
    }

    lemma HeadFine()
      requires LoopHead()
      ensures AtHead(HeadNow())
    {
      hide Accounted;
      OneTrigger();
    }

    /** The open PSI triggers are exactly the one in trgFd, if any, and it is registered. */
    lemma OneTrigger()
      requires Wired()
      ensures forall k :: k in fds.open && fds.open[k] == Trigger <==> k == trgFd && trgFd >= 0
      ensures trgFd >= 0 ==> trgFd in fds.watched && trgFd != sigFd && trgFd != epollFd
    {
      hide FdOf, Accounted;
      Numbers();
      TriggerKnown();
      if trgFd >= 0 {
        Apart(fds.owner, Held(), Trigger, Signal);
        Apart(fds.owner, Held(), Trigger, Epoll);
      }
    }

    lemma TriggerKnown()
      requires Tidy()
      ensures forall k :: k in fds.owner && fds.owner[k] == Trigger ==> k == trgFd && k >= 0
    {
      assert Known(fds.owner, Trigger, FdOf(Held(), Trigger));
    }

    /** While the standard error descriptor is inherited, the lock is held: its descriptor is the lock file. */
    lemma LockIsLock()
      requires Tidy() && STDERR in others && lockFd >= 0
      ensures lockFd in fds.open && fds.open[lockFd] == Lock
    {
      assert Known(fds.owner, Lock, FdOf(Held(), Lock));
    }

    /** A reactor that finds itself suspended has read nothing but "off" for more than ten seconds. */
    lemma SuspendedIsDark() returns (j: nat, m: nat)
      requires LoopHead() && dispState == Suspend
      requires forall k :: 0 <= k < |looks| ==> Normal(looks[k].now) && 0 <= looks[k].now.sec
      ensures j < m < |looks| && Nanos(looks[m].now) - Nanos(looks[j].now) > 10_000_000_000
      ensures forall k :: j <= k < |looks| ==> !Lit(looks[k].levels)
    {
      hide Accounted;
      j, m := SuspendedAfterTenSeconds(START, looks);
    }

    /** And a reactor that has read nothing but "off", with one tick a second or more after all before it and one
        eleven seconds or more after that, is suspended. */
    lemma DarkIsSuspended(j: nat, a: nat, b: nat)
      requires LoopHead() && j <= a < b < |looks|
      requires forall k :: 0 <= k < |looks| ==> Normal(looks[k].now) && 0 <= looks[k].now.sec
      requires forall k :: j <= k < |looks| ==> AllOff(looks[k].levels)
      requires forall k :: 0 <= k < a ==> Nanos(looks[a].now) - Nanos(looks[k].now) >= 1_000_000_000
      requires forall k :: 0 <= k <= a ==> Nanos(looks[b].now) - Nanos(looks[k].now) >= 11_000_000_000
      ensures dispState == Suspend
    {
      hide Accounted, AllOff, Display.Run;
      DarkSuspendsInTime(START, looks, j, a, b);
    }

    // ----- acquisition

    /** pg_lockfile_init: a lock held by someone else leaves nothing open. */
    method OpenLock(open: bool, held: bool)
      requires Tidy() && lockFd < 0
      modifies fds, `lockFd
      ensures Tidy() && fds.watched == old(fds.watched)
      ensures lockFd >= 0 <==> open && held
      ensures lockFd < 0 ==> fds.open == old(fds.open) && fds.owner == old(fds.owner)
      ensures lockFd >= 0 ==> Filled(old(fds.open).Keys, fds.open.Keys, 1)
      ensures lockFd >= 0 ==> fds.owner == old(fds.owner)[lockFd := Lock] && fds.open == old(fds.open)[lockFd := Lock]
    {
      hide FdOf, Accounted, Changed, Filled;
      ghost var h := Held();
      Located();
      var fd := fds.Open(Lock, open);
      if fd >= 0 {
        OpenFills(old(fds.open).Keys, fd);
        assert fds.open.Keys == old(fds.open).Keys + {fd};
      }
      if fd >= 0 && !held {
        fds.Close(fd);
        assert fds.owner == old(fds.owner) && fds.open == old(fds.open);
        fd := -11;
      }
      lockFd := fd;
      FieldSet(h, fd);
      Taken(old(fds.owner), fds.owner, h, Lock, fd, Held());
    }

    lemma Located()
      ensures FdOf(Held(), Lock) == lockFd && FdOf(Held(), CpuTemp) == cpuTempFd
      ensures FdOf(Held(), BatTemp) == batTempFd && FdOf(Held(), BatCap) == batCapFd
      ensures FdOf(Held(), Trigger) == trgFd && FdOf(Held(), Signal) == sigFd && FdOf(Held(), Pressure) == psi.fd
      ensures forall i :: 0 <= i < |nodes| ==> FdOf(Held(), Node(i)) == nodes[i]
      ensures FdOf(Held(), Backlight(|bl|)) == -1
    {
    }

    /** Only the lock and the nodes are open. */
    ghost predicate EarlyOnly()
      reads fds
    {
      EarlyOnlyIn(fds.owner)
    }

    /** Every descriptor the daemon holds refers to the file it was opened for. */
    ghost predicate Genuine()
      reads fds
    {
      forall k :: k in fds.owner && k in fds.open && fds.owner[k] != Other ==> fds.open[k] == fds.owner[k]
    }

    /** pg_sysfs_cache_init, as far as descriptors go: the first candidate that opens. */
    method OpenNode(i: nat, candidates: seq<bool>) returns (n: nat)
      requires Tidy() && i < NR_NODES && nodes[i] < 0 && EarlyOnly() && Genuine()
      modifies fds, `nodes
      ensures Tidy() && EarlyOnly() && Genuine() && fds.watched == old(fds.watched)
      ensures forall j :: 0 <= j < NR_NODES && j != i ==> nodes[j] == old(nodes[j])
      ensures n == if true in candidates then 1 else 0
      ensures Filled(old(fds.open).Keys, fds.open.Keys, n)
    {
      hide FdOf, Accounted, Changed;
      ghost var h := Held();
      for c := 0 to |candidates|
        invariant nodes == old(nodes) && fds.Valid()
        invariant fds.open == old(fds.open) && fds.owner == old(fds.owner) && fds.watched == old(fds.watched)
        invariant true !in candidates[..c]
      {
        var fd := fds.Open(Node(i), candidates[c]);
        if fd < 0 {
          continue;
        }
        OpenFills(old(fds.open).Keys, fd);
        assert fds.open.Keys == old(fds.open).Keys + {fd};
        Located();
        nodes := nodes[i := fd];
        NodeSet(h, i, fd);
        Taken(old(fds.owner), fds.owner, h, Node(i), fd, Held());
        return 1;
      }
      n := 0;
    }

    /** init_sysfs_caches */
    method OpenNodes(candidates: seq<seq<bool>>) returns (n: nat)
      requires Tidy() && EarlyOnly() && Genuine()
      requires |candidates| == NR_NODES && forall i :: 0 <= i < NR_NODES ==> nodes[i] < 0
      modifies fds, `nodes
      ensures Tidy() && EarlyOnly() && Genuine() && fds.watched == old(fds.watched)
      ensures n == Found(candidates) && Filled(old(fds.open).Keys, fds.open.Keys, n)
    {
      hide Tidy, EarlyOnly, Genuine, Filled;
      assert |nodes| == NR_NODES && Filled(old(fds.open).Keys, fds.open.Keys, 0) by { NothingFilled(); }
      n := 0;
      for i := 0 to NR_NODES
        invariant Tidy() && EarlyOnly() && Genuine() && fds.watched == old(fds.watched) && |nodes| == NR_NODES
        invariant forall j :: i <= j < NR_NODES ==> nodes[j] < 0
        invariant n == Found(candidates[..i]) && Filled(old(fds.open).Keys, fds.open.Keys, n)
      {
        ghost var keys := fds.open.Keys;
        var k := OpenNode(i, candidates[i]);
        FilledTwice(old(fds.open).Keys, keys, n, fds.open.Keys, k);
        assert candidates[..i + 1][..i] == candidates[..i];
        n := n + k;
        NothingFilled();
      }
      assert candidates[..NR_NODES] == candidates;
    }

    lemma NothingFilled()
      requires Tidy()
      ensures |nodes| == NR_NODES && Filled(fds.open.Keys, fds.open.Keys, 0)
    {
    }

    /** The part of init_os_environment that concerns descriptors: the log is opened, moved onto the standard
        error descriptor, and its own descriptor closed. If 2 was free and not the lowest, it stays open; if the
        lock or a node had it, that one is lost to the log. */
    method RedirectLog(ok: bool)
      requires Tidy() && EarlyOnly() && Genuine() && fds.watched == {}
      modifies fds, `others
      ensures Tidy() && fds.watched == {}
      ensures var keys := old(fds.open).Keys;
              var stays := ok && STDERR !in keys && LowFree(keys) > 0;
              others == old(others) + if stays then {STDERR} else {}
      ensures Genuine() <==> !(ok && STDERR in old(fds.owner) && old(fds.owner)[STDERR] != Other)
    {
      hide Accounted, FdOf;
      var log := fds.Open(Log, ok);
      if log < 0 {
        return;
      }
      ghost var adopt := STDERR !in old(fds.owner) && log != STDERR;
      MoveAndClose(log, old(fds.open), old(fds.owner));
      if adopt {
        others := others + {STDERR};
      }
      LogMoved(old(fds.owner), old(Held()), adopt, log);
    }

    /** dup2 and close of the log's first descriptor. */
    method MoveAndClose(log: int, ghost open: map<int, File>, ghost owner: map<int, File>)
      requires fds.Valid() && fds.watched == {} && EarlyOnlyIn(owner) && open.Keys == owner.Keys && log !in owner
      requires fds.open == open[log := Log] && fds.owner == owner[log := Log]
      modifies fds
      ensures fds.Valid() && fds.watched == {}
      ensures fds.open == if log == STDERR then open else open[STDERR := Log]
      ensures fds.owner == if STDERR !in owner && log != STDERR then owner[STDERR := Other] else owner
    {
      fds.MoveLog(log);
      fds.Close(log);
      AddedAndClosed(open, log);
      AddedAndClosed(owner, log);
      if log != STDERR {
        SetAndClosed(open, log, STDERR, Log);
        SetAndClosed(owner, log, STDERR, Other);
      }
    }

    static lemma AddedAndClosed(m: map<int, File>, fd: int)
      requires fd !in m
      ensures m[fd := Log] - {fd} == m
    {
    }

    static lemma SetAndClosed(m: map<int, File>, fd: int, k: int, f: File)
      requires fd !in m && k != fd
      ensures m[fd := Log][k := f] - {fd} == m[k := f]
    {
    }

    lemma LogMoved(owner: map<int, File>, h: Fields, adopt: bool, log: int)
      requires Accounted(owner, h) && log !in owner && adopt == (STDERR !in owner && log != STDERR)
      requires fds.owner == if adopt then owner[STDERR := Other] else owner
      requires Held() == h.(others := h.others + if adopt then {STDERR} else {})
      ensures Accounted(fds.owner, Held())
    {
      if adopt {
        Adopted(owner, h, STDERR);
      } else {
        assert h.others + {} == h.others;
      }
    }

    /** The temperature sensor of the processor, then those of the battery. */
    method OpenSensors(cpuTemp: bool, batTemp: bool, batCap: bool)
      requires Tidy() && cpuTempFd < 0 && batTempFd < 0 && batCapFd < 0
      modifies fds, `cpuTempFd, `batTempFd, `batCapFd
      ensures Tidy() && fds.watched == old(fds.watched)
      ensures (cpuTempFd >= 0 <==> cpuTemp) && (batTempFd >= 0 <==> batTemp) && (batCapFd >= 0 <==> batCap)
    {
      hide FdOf, Accounted, Changed;
      ghost var h := Held();
      Located();
      cpuTempFd := fds.Open(CpuTemp, cpuTemp);
      FieldSet(h, cpuTempFd);
      Taken(old(fds.owner), fds.owner, h, CpuTemp, cpuTempFd, Held());
      OpenBattery(batTemp, batCap);
    }

    method OpenBattery(batTemp: bool, batCap: bool)
      requires Tidy() && batTempFd < 0 && batCapFd < 0
      modifies fds, `batTempFd, `batCapFd
      ensures Tidy() && fds.watched == old(fds.watched)
      ensures (batTempFd >= 0 <==> batTemp) && (batCapFd >= 0 <==> batCap)
    {
      hide FdOf, Accounted, Changed;
      ghost var h, open := Held(), fds.owner;
      Located();
      batTempFd := fds.Open(BatTemp, batTemp);
      FieldSet(h, batTempFd);
      Taken(open, fds.owner, h, BatTemp, batTempFd, Held());
      h, open := Held(), fds.owner;
      Located();
      batCapFd := fds.Open(BatCap, batCap);
      FieldSet(h, batCapFd);
      Taken(open, fds.owner, h, BatCap, batCapFd, Held());
    }

    /** The backlights that could be opened, in order. */
    method OpenBacklights(opens: seq<bool>)
      requires Tidy() && |opens| <= BL_MAX
      modifies fds, `bl
      ensures Tidy() && fds.watched == old(fds.watched) && |bl| == |old(bl)| + Opening(opens)
    {
      hide FdOf, Accounted, Changed;
      assert opens[..|opens|] == opens;
      for i := 0 to |opens|
        invariant Tidy() && fds.watched == old(fds.watched) && |bl| == |old(bl)| + Opening(opens[..i])
      {
        assert opens[..i + 1][..i] == opens[..i];
        ghost var h, open := Held(), fds.owner;
        Located();
        var fd := fds.Open(Backlight(|bl|), opens[i]);
        if fd >= 0 {
          bl := bl + [fd];
          BacklightSet(h, fd);
          Taken(open, fds.owner, h, Backlight(|h.bl|), fd, Held());
        }
      }
    }

    /** init_sensors_and_triggers */
    method InitSensors(b: Boot) returns (ret: int)
      requires Tidy() && BootInput(b) && cpuTempFd < 0 && batTempFd < 0 && batCapFd < 0
      requires trgFd < 0 && psi.fd < 0 && sigFd < 0
      modifies fds, `cpuTempFd, `batTempFd, `batCapFd, `trgFd, `sigFd, `bl, psi`fd
      ensures Tidy() && fds.watched == old(fds.watched)
      ensures ret == 0 <==> (dormant || (b.trgOpen && b.trgWrite)) && b.sig
      ensures ret == 0 ==> sigFd >= 0 && (trgFd >= 0 <==> !dormant) && (psi.fd >= 0 <==> b.psi)
      ensures (cpuTempFd >= 0 <==> b.cpuTemp) && (batTempFd >= 0 <==> b.batTemp) && (batCapFd >= 0 <==> b.batCap)
      ensures ret == 0 ==> |bl| == |old(bl)| + Opening(b.backlights)
    {
      hide Accounted, Opening;
      OpenSensors(b.cpuTemp, b.batTemp, b.batCap);
      if !dormant {
        FirstTrigger(b.trgOpen, b.trgWrite);
        if trgFd < 0 {
          return trgFd;
        }
      }
      ret := InitMonitorAndSignal(b);
      if ret == 0 {
        OpenBacklights(b.backlights);
      }
    }

    method FirstTrigger(open: bool, write: bool)
      requires Tidy() && trgFd < 0
      modifies fds, `trgFd
      ensures Tidy() && fds.watched == old(fds.watched) && (trgFd >= 0 <==> open && write)
    {
      hide FdOf, Accounted, Changed;
      ghost var h, was := Held(), fds.owner;
      Located();
      trgFd := OpenTrg(open, write);
      FieldSet(h, trgFd);
      Taken(was, fds.owner, h, Trigger, trgFd, Held());
    }

    /** pg_psi_init and pg_signal_init: only the latter's failure counts. */
    method InitMonitorAndSignal(b: Boot) returns (ret: int)
      requires Tidy() && psi.fd < 0 && sigFd < 0
      modifies fds, `sigFd, psi`fd
      ensures Tidy() && fds.watched == old(fds.watched)
      ensures if b.sig then ret == 0 && sigFd >= 0 else ret < 0
      ensures psi.fd >= 0 <==> b.psi
    {
      hide FdOf, Accounted, Changed;
      ghost var h, open := Held(), fds.owner;
      Located();
      psi.fd := fds.Open(Pressure, b.psi);
      FieldSet(h, psi.fd);
      Taken(open, fds.owner, h, Pressure, psi.fd, Held());
      h, open := Held(), fds.owner;
      Located();
      sigFd := fds.Open(Signal, b.sig);
      FieldSet(h, sigFd);
      Taken(open, fds.owner, h, Signal, sigFd, Held());
      ret := if sigFd < 0 then sigFd else 0;
    }

    // ----- release

    /** Of the descriptors open in m, those of the files in gone are closed, and nobody else's is. */
    ghost predicate Freed(m: map<int, File>, gone: set<File>)
      reads fds
    {
      && fds.Valid()
      && (forall k :: k in fds.owner ==> k in m && fds.owner[k] == m[k] && m[k] !in gone)
      && (forall k :: k in m && m[k] == Other ==> k in fds.owner)
    }

    /** Every close of cleanup_context: only if the descriptor is not negative. */
    method Release(fd: int, ghost f: File, ghost m: map<int, File>, ghost h: Fields, ghost gone: set<File>)
      requires Accounted(m, h) && FdOf(h, f) == fd && f != Other && Freed(m, gone)
      modifies fds
      ensures Freed(m, gone + {f})
    {
      assert Known(m, f, fd);
      if fd >= 0 {
        fds.Close(fd);
      }
    }

    /** pg_sensor_bl_close */
    method ReleaseBacklights(ghost m: map<int, File>, ghost h: Fields, ghost gone: set<File>)
      requires Accounted(m, h) && h.bl == bl && Freed(m, gone)
      modifies fds, `bl
      ensures Freed(m, gone + set i | 0 <= i < |h.bl| :: Backlight(i)) && bl == []
    {
      hide Accounted, Freed;
      ghost var done: set<File> := {};
      assert gone + done == gone;
      for i := 0 to |bl|
        invariant h.bl == bl && Freed(m, gone + done)
        invariant done == set j | 0 <= j < i :: Backlight(j)
      {
        Release(bl[i], Backlight(i), m, h, gone + done);
        assert gone + done + {Backlight(i)} == gone + (done + {Backlight(i)});
        done := done + {Backlight(i)};
      }
      bl := [];
    }

    /** The six calls of pg_sysfs_cache_cleanup. */
    method ReleaseNodes(ghost m: map<int, File>, ghost h: Fields, ghost gone: set<File>)
      requires Accounted(m, h) && h.nodes == nodes && |nodes| == NR_NODES && Freed(m, gone)
      modifies fds, `nodes
      ensures Freed(m, gone + set i | 0 <= i < NR_NODES :: Node(i))
      ensures |nodes| == NR_NODES && forall i :: 0 <= i < NR_NODES ==> nodes[i] < 0
    {
      hide Accounted, Freed;
      ghost var done: set<File> := {};
      assert gone + done == gone;
      for i := 0 to NR_NODES
        invariant |nodes| == NR_NODES && (forall j :: i <= j < NR_NODES ==> nodes[j] == h.nodes[j])
        invariant Freed(m, gone + done) && forall j :: 0 <= j < i ==> nodes[j] < 0
        invariant done == set j | 0 <= j < i :: Node(j)
      {
        Release(nodes[i], Node(i), m, h, gone + done);
        assert gone + done + {Node(i)} == gone + (done + {Node(i)});
        done := done + {Node(i)};
        if nodes[i] >= 0 {
          nodes := nodes[i := -1];
        }
      }
    }

    /** The first four closes of cleanup_context. */
    method ReleaseCore(ghost m: map<int, File>, ghost h: Fields)
      requires Accounted(m, h) && h == Held() && Freed(m, {})
      modifies fds, psi`fd
      ensures Freed(m, {Trigger, Signal, Lock, Pressure}) && psi.fd == -1
    {
      Located();
      hide FdOf, Accounted, Freed;
      Release(trgFd, Trigger, m, h, {});
      Release(sigFd, Signal, m, h, {} + {Trigger});
      Release(lockFd, Lock, m, h, {} + {Trigger} + {Signal});
      Release(psi.fd, Pressure, m, h, {} + {Trigger} + {Signal} + {Lock});
      psi.fd := -1;
      assert {} + {Trigger} + {Signal} + {Lock} + {Pressure} == {Trigger, Signal, Lock, Pressure};
    }

    method ReleaseSensors(ghost m: map<int, File>, ghost h: Fields, ghost gone: set<File>)
      requires Accounted(m, h) && Freed(m, gone)
      requires h.cpuTemp == cpuTempFd && h.batTemp == batTempFd && h.batCap == batCapFd
      modifies fds, `cpuTempFd, `batTempFd, `batCapFd
      ensures Freed(m, gone + {CpuTemp, BatTemp, BatCap}) && cpuTempFd == batTempFd == batCapFd == -1
    {
      assert FdOf(h, CpuTemp) == h.cpuTemp && FdOf(h, BatTemp) == h.batTemp && FdOf(h, BatCap) == h.batCap;
      hide FdOf, Accounted, Freed;
      Release(cpuTempFd, CpuTemp, m, h, gone);
      cpuTempFd := -1;
      Release(batTempFd, BatTemp, m, h, gone + {CpuTemp});
      batTempFd := -1;
      Release(batCapFd, BatCap, m, h, gone + {CpuTemp} + {BatTemp});
      batCapFd := -1;
      assert gone + {CpuTemp} + {BatTemp} + {BatCap} == gone + {CpuTemp, BatTemp, BatCap};
    }

    /** cleanup_context, as far as descriptors go: whatever was acquired before, exactly the daemon's own
        descriptors are closed. */
    method Cleanup()
      requires Tidy() && epollFd < 0
      modifies fds, psi`fd, `cpuTempFd, `batTempFd, `batCapFd, `bl, `nodes
      ensures fds.open.Keys == others
      ensures psi.fd == cpuTempFd == batTempFd == batCapFd == -1 && bl == []
      ensures |nodes| == NR_NODES && forall i :: 0 <= i < NR_NODES ==> nodes[i] < 0
    {
      ghost var m, h := fds.owner, Held();
      hide FdOf, Accounted, Freed;
      ghost var gone: set<File>;
      NothingGone(m);
      ReleaseCore(m, h);
      gone := {Trigger, Signal, Lock, Pressure};
      ReleaseSensors(m, h, gone);
      gone := gone + {CpuTemp, BatTemp, BatCap};
      ReleaseBacklights(m, h, gone);
      gone := gone + set i | 0 <= i < |h.bl| :: Backlight(i);
      ReleaseNodes(m, h, gone);
      gone := gone + set i | 0 <= i < NR_NODES :: Node(i);
      AllFreed(m, h, gone);
    }

    lemma NothingGone(m: map<int, File>)
      requires Tidy() && m == fds.owner
      ensures Freed(m, {})
    {
    }

    /** Every file with a descriptor is among those cleanup_context releases. */
    lemma InGone(h: Fields, f: File, gone: set<File>)
      requires f != Other && FdOf(h, f) >= 0 && h.epoll < 0 && |h.nodes| == NR_NODES
      requires {Trigger, Signal, Lock, Pressure, CpuTemp, BatTemp, BatCap} <= gone
      requires (set i | 0 <= i < |h.bl| :: Backlight(i)) <= gone && (set i | 0 <= i < NR_NODES :: Node(i)) <= gone
      ensures f in gone
    {
      match f
      case Node(i) => assert Node(i) in (set i | 0 <= i < NR_NODES :: Node(i));
      case Backlight(i) => assert Backlight(i) in (set i | 0 <= i < |h.bl| :: Backlight(i));
      case _ =>
    }

    lemma AllFreed(m: map<int, File>, h: Fields, gone: set<File>)
      requires Accounted(m, h) && Freed(m, gone) && h.epoll < 0 && |h.nodes| == NR_NODES
      requires {Trigger, Signal, Lock, Pressure, CpuTemp, BatTemp, BatCap} <= gone
      requires (set i | 0 <= i < |h.bl| :: Backlight(i)) <= gone && (set i | 0 <= i < NR_NODES :: Node(i)) <= gone
      ensures fds.open.Keys == h.others
    {
      hide FdOf;
      forall k | k in m && m[k] != Other
        ensures m[k] in gone
      {
        assert Known(m, m[k], FdOf(h, m[k]));
        InGone(h, m[k], gone);
      }
      assert forall k :: k in fds.owner.Keys <==> k in h.others;
    }

    // ----- the whole life

    /** The boot sequence up to the log: the lock, the wait for Android, the nodes and the log. */
    method Acquire(b: Boot) returns (ret: int)
      requires Tidy() && BootInput(b) && fds.watched == {} && lockFd < 0
      requires (forall k :: k in fds.owner ==> fds.owner[k] == Other) && fds.open == fds.owner
      requires forall i :: 0 <= i < NR_NODES ==> nodes[i] < 0
      modifies fds, `lockFd, `nodes, `dormant, `others
      ensures Tidy() && fds.watched == {}
      ensures ret == 0 <==> b.privileged && b.lockOpen && b.lockHeld && b.booted
      ensures ret == 0 ==> dormant == (old(dormant) || Found(b.candidates) == 0)
      ensures others == old(others) + if LogStays(old(fds.open).Keys, b) then {STDERR} else {}
      ensures Genuine() <==> !FileLost(old(fds.open).Keys, b)
    {
      ghost var keys := fds.open.Keys;
      AllInherited();
      hide Tidy, Filled, Found;
      if !b.privileged {
        return -1;
      }
      OpenLock(b.lockOpen, b.lockHeld);
      if lockFd < 0 {
        return lockFd;
      }
      if !b.booted {
        return -110;
      }
      NodesAndLog(b, keys);
      ret := 0;
    }

    method NodesAndLog(b: Boot, ghost keys: set<int>)
      requires Tidy() && BootInput(b) && fds.watched == {} && EarlyOnly() && Genuine()
      requires Filled(keys, fds.open.Keys, 1) && others == keys
      requires forall i :: 0 <= i < NR_NODES ==> nodes[i] < 0
      modifies fds, `nodes, `dormant, `others
      ensures Tidy() && fds.watched == {} && dormant == (old(dormant) || Found(b.candidates) == 0)
      ensures var n := 1 + Found(b.candidates);
              && others == old(others) + (if b.logOpen && STDERR !in keys && LowFree(keys) > n then {STDERR} else {})
              && (Genuine() <==> !(b.logOpen && STDERR !in keys && n > LowFree(keys)))
    {
      hide Tidy, Filled, EarlyOnly, Genuine, Found;
      ghost var keys1 := fds.open.Keys;
      var n := OpenNodes(b.candidates);
      FilledTwice(keys, keys1, 1, fds.open.Keys, n);
      if n == 0 {
        dormant := true;
      }
      TwoIsEarly(keys, n + 1);
      RedirectLog(b.logOpen);
    }

    lemma AllInherited()
      requires Tidy() && forall k :: k in fds.owner ==> fds.owner[k] == Other
      ensures others == fds.open.Keys
    {
      assert forall k :: k in others <==> k in fds.owner;
    }

    /** Before the log: where descriptor 2 stands, from what was inherited and the number of descriptors opened. */
    lemma TwoIsEarly(keys: set<int>, n: nat)
      requires Tidy() && n > 0 && Filled(keys, fds.open.Keys, n) && (STDERR in keys ==> STDERR in others)
      requires STDERR !in keys ==> STDERR !in others
      ensures LowFree(fds.open.Keys) > 0 <==> LowFree(keys) > n
      ensures STDERR in fds.owner && fds.owner[STDERR] != Other <==> STDERR !in keys && n > LowFree(keys)
      ensures STDERR !in fds.open <==> STDERR !in keys && n <= LowFree(keys)
    {
    }

    /** pg_daemon_init, from its defaults to the reactor's end or the first failure. */
    method Start(b: Boot) returns (ret: int, ghost heads: seq<Head>)
      requires Tidy() && BootInput(b) && Steady() && fds.watched == {} && epollFd < 0
      requires lockFd < 0 && cpuTempFd < 0 && batTempFd < 0 && batCapFd < 0 && trgFd < 0 && psi.fd < 0 && sigFd < 0
      requires (forall k :: k in fds.owner ==> fds.owner[k] == Other) && fds.open == fds.owner
      requires !dormant && forall i :: 0 <= i < NR_NODES ==> nodes[i] < 0
      modifies this, fds, psi, psi.filter, load, poll
      ensures Tidy() && Steady() && epollFd < 0
      ensures others == old(others) + if LogStays(old(fds.open).Keys, b) then {STDERR} else {}
      ensures forall h :: h in heads ==> AtHead(h)
      ensures ret == 0 <==> Runs(b)
      ensures |heads| <= |b.waits| && (ret == 0 && |heads| < |b.waits| ==> shutdownReq)
      ensures |looks| >= |old(looks)| + Timeouts(b.waits[..|heads|])
    {
      hide Tidy, Steady, LogStays, FileLost, AtHead, Genuine, Found, Timeouts;
      assert Timeouts(b.waits[..0]) == 0 by { NoTimeouts(b.waits); }
      heads := [];
      ret := Acquire(b);
      if ret != 0 {
        return;
      }
      if !b.hasPsi {
        return -19, heads;
      }
      ret := InitSensors(b);
      if ret != 0 {
        return;
      }
      ret, heads := EpollRun(b.epoll, b.addSig, b.addTrg, b.waits);
    }
  }

  /** The daemon from start to exit, with any acquisition failing and any list of wake-ups. What is open at exit is
      exactly what was inherited, and the standard error descriptor if and only if the log was left on it. Every
      loop head of the run was fine, every first sample was seeded, and the display ran its machine. */
  method Daemon(open: map<int, File>, b: Boot, cfg: Tune.Cfg, now: Stamp, wall: Stamp, wide: bool)
    returns (c: Context, ret: int, ghost heads: seq<Head>)
    requires BootInput(b) && cfg.transPoll >= ONE && forall k :: k in open ==> k >= 0 && open[k] == Other
    ensures c.fds.open.Keys == open.Keys + if LogStays(open.Keys, b) then {STDERR} else {}
    ensures (forall h :: h in heads ==> AtHead(h)) && FirstsSeeded(c.marks)
    ensures ret == 0 <==> Runs(b)
    ensures |heads| <= |b.waits| && (ret == 0 && |heads| < |b.waits| ==> c.shutdownReq)
    ensures |c.looks| >= Timeouts(b.waits[..|heads|])
    ensures c.Disp() == Display.Run(START, c.looks)
  {
    c := new Context(open, cfg, now, wall, wide);
    ret, heads := c.Start(b);
    c.Cleanup();
  }

  /** A boot in which everything works, with the given nodes. */
  function SmoothBoot(candidates: seq<seq<bool>>): (b: Boot)
    requires |candidates| == NR_NODES
    ensures BootInput(b)
  {
    Boot(
      true, true, true, true, candidates, true, true, true, true, true,
      true, true, true, true, [], true, true, true, [])
  }

  lemma {:induction false} NoneFound(candidates: seq<seq<bool>>)
    requires forall c :: c in candidates ==> true !in c
    ensures Found(candidates) == 0
  {
    if candidates != [] {
      NoneFound(candidates[..|candidates| - 1]);
    }
  }

  /** With nothing inherited and no node, the lock takes 0 and the log 1: the copy at 2 is never closed. */
  lemma LogStaysWitness()
    ensures LogStays({}, SmoothBoot([[], [], [], [], [], []]))
  {
    var none: seq<seq<bool>> := [[], [], [], [], [], []];
    NoneFound(none);
  }

  /** With 0 and 1 inherited but not 2, the lock takes 2 and loses it to the log. */
  lemma FileLostWitness(candidates: seq<seq<bool>>)
    requires |candidates| == NR_NODES
    ensures FileLost({0, 1}, SmoothBoot(candidates)) && !LogStays({0, 1}, SmoothBoot(candidates))
  {
  }

  /** With the standard error descriptor inherited neither can happen. */
  lemma StandardErrorInherited(inherited: set<int>, b: Boot)
    requires STDERR in inherited
    ensures !LogStays(inherited, b) && !FileLost(inherited, b)
  {
  }
}
