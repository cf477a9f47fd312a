/** Bringing the six tunables back: restore_snapshot, crash_restore and restore_all of src/core/daemon.c. */
module Restore {
  import opened Machine
  import opened Sysfs

  const NR_SINKS := 6

  /** One row of the crash table. */
  datatype Row = Row(fd: int, base: u64)

  /** What restoring needs to know about a cache; updates never change it. */
  datatype Sink = Sink(active: bool, hasBase: bool, fd: int, base: u32, boot: int)

  ghost function View(c: Cache): Sink
    reads c
  {
    Sink(c.active, c.hasBase, c.fd, c.base, c.boot)
  }

  ghost function Views(s: seq<Cache>): (v: seq<Sink>)
    reads s
    ensures |v| == |s| && forall i :: 0 <= i < |s| ==> v[i] == View(s[i])
  {
    seq(|s|, i requires 0 <= i < |s| reads s => View(s[i]))
  }

  /** The rows of the sinks with a captured base, in order. */
  function Rows(sinks: seq<Sink>): (rows: seq<Row>)
    ensures |rows| <= |sinks|
  {
    if sinks == [] then []
    else
      var c := sinks[|sinks| - 1];
      Rows(sinks[..|sinks| - 1]) + if c.active && c.hasBase then [Row(c.fd, c.base)] else []
  }

  predicate Separate(s: seq<Sink>) {
    forall i, j :: 0 <= i < j < |s| && s[i].active && s[j].active ==> s[i].fd != s[j].fd
  }

  // ----- the table and the sinks

  lemma {:induction false} RowsFrom(s: seq<Sink>, k: nat) returns (i: nat)
    requires k < |Rows(s)|
    ensures i < |s| && s[i].active && s[i].hasBase && Rows(s)[k] == Row(s[i].fd, s[i].base)
  {
    var init := s[..|s| - 1];
    if k < |Rows(init)| {
      i := RowsFrom(init, k);
    } else {
      i := |s| - 1;
    }
  }

  lemma {:induction false} RowsTo(s: seq<Sink>, i: nat) returns (k: nat)
    requires i < |s| && s[i].active && s[i].hasBase
    ensures k < |Rows(s)| && Rows(s)[k] == Row(s[i].fd, s[i].base)
  {
    if i == |s| - 1 {
      k := |Rows(s)| - 1;
    } else {
      k := RowsTo(s[..|s| - 1], i);
    }
  }

  lemma RowsStep(s: seq<Sink>, i: nat)
    requires i < |s|
    ensures Rows(s[..0]) == []
    ensures Rows(s[..i + 1]) == Rows(s[..i]) + if s[i].active && s[i].hasBase then [Row(s[i].fd, s[i].base)] else []
  {
    assert s[..i + 1][..i] == s[..i];
  }

  /** No descriptor is listed twice. */
  lemma {:induction false} RowsDistinct(s: seq<Sink>)
    requires Separate(s)
    ensures forall j, k :: 0 <= j < k < |Rows(s)| ==> Rows(s)[j].fd != Rows(s)[k].fd
  {
    if s != [] {
      var init := s[..|s| - 1];
      RowsDistinct(init);
      forall j | 0 <= j < |Rows(init)|
        ensures s[|s| - 1].active ==> Rows(init)[j].fd != s[|s| - 1].fd
      {
        var i := RowsFrom(init, j);
      }
    }
  }

  // ----- the daemon's tables

  /** An active cache without a pending failure: its node holds `last`, from which the request does not
      differ enough to be written. */
  ghost predicate Settled(c: Cache, chk: Chk, value: u64)
    reads c, c.kernel
  {
    c.active && c.fails == 0 ==>
      c.fd in c.kernel.files && c.kernel.files[c.fd] == c.last && c.last != UNSET && !Exceeds(chk, c.last, value)
  }

  class Sinks {
    const kernel: Kernel
    /** lat, gran, wake, mig, walt, ucl */
    const caches: seq<Cache>
    const rsTbl: array<Row>
    var rsCnt: nat

    /** Six separate caches on separate descriptors of one kernel. */
    ghost predicate Valid()
      reads this, kernel, caches
    {
      && |caches| == NR_SINKS == rsTbl.Length && rsCnt <= NR_SINKS
      && (forall i :: 0 <= i < NR_SINKS ==> caches[i].kernel == kernel && caches[i].Valid())
      && (forall i, j :: 0 <= i < j < NR_SINKS ==> caches[i] != caches[j])
      && Separate(Views(caches))
    }

    /** The crash table lists exactly the sinks with a captured base. */
    ghost predicate Armed()
      reads this, kernel, caches, rsTbl
    {
      Valid() && rsTbl[..rsCnt] == Rows(Views(caches))
    }

    constructor (kernel: Kernel, caches: seq<Cache>)
      requires |caches| == NR_SINKS && Separate(Views(caches))
      requires forall i :: 0 <= i < NR_SINKS ==> caches[i].kernel == kernel && caches[i].Valid()
      requires forall i, j :: 0 <= i < j < NR_SINKS ==> caches[i] != caches[j]
      ensures Valid() && rsCnt == 0 && this.kernel == kernel && this.caches == caches && fresh(rsTbl)
    {
      this.kernel, this.caches := kernel, caches;
      rsTbl := new Row[NR_SINKS](_ => Row(-1, 0));
      rsCnt := 0;
    }

    /** restore_snapshot */
    method Snapshot()
      requires Valid()
      modifies `rsCnt, rsTbl
      ensures Armed()
    {
      hide Rows, Separate;
      ghost var v := Views(caches);
      rsCnt := 0;
      RowsStep(v, 0);
      for i := 0 to NR_SINKS
        invariant rsCnt <= i && rsTbl[..rsCnt] == Rows(v[..i])
      {
        RowsStep(v, i);
        assert v[i] == View(caches[i]);
        if !caches[i].active || !caches[i].hasBase {
          continue;
        }
        rsTbl[rsCnt] := Row(caches[i].fd, caches[i].base);
        rsCnt := rsCnt + 1;
      }
      assert v[..NR_SINKS] == v;
    }

    /** One debounced write of the governor while the crash hook is armed: it stays armed, no other node
        changes, and without a pending failure the node is close enough to the request. */
    method Update(i: nat, value: u64, force: bool, chk: Chk, tCheck: nat, tAfter: nat, ok: bool)
      requires Armed() && i < NR_SINKS
      modifies kernel, caches[i]
      ensures Armed() && Views(caches) == old(Views(caches))
      ensures forall fd :: fd in old(kernel.files) && !(caches[i].active && fd == caches[i].fd) ==>
                fd in kernel.files && kernel.files[fd] == old(kernel.files[fd])
      ensures forall j :: 0 <= j < NR_SINKS && j != i ==> unchanged(caches[j])
      ensures caches[i].last == value ||
              (caches[i].last == old(caches[i].last) && kernel.files == old(kernel.files))
      ensures value != UNSET ==> Settled(caches[i], chk, value)
      ensures var c, r := caches[i], Req(value, force, chk, tCheck, tAfter, ok);
              && c.Value() == (if c.active then After(old(c.Value()), r) else old(c.Value()))
              && kernel.files == (if c.active && Attempts(old(c.Value()), r) && ok
                                  then old(kernel.files)[c.fd := value] else old(kernel.files))
    {
      hide Rows, Exceeds;
      ghost var v := Views(caches);
      var attempted := caches[i].Update(value, force, chk, tCheck, tAfter, ok);
      assert Views(caches) == v;
      KeepValid(i);
    }

    /** Writing through one cache leaves the others valid. */
    lemma KeepValid(i: nat)
      requires i < |caches| == NR_SINKS && caches[i].Valid() && Separate(Views(caches))
      requires forall j :: 0 <= j < NR_SINKS ==> caches[j].kernel == kernel
      requires forall j :: 0 <= j < NR_SINKS && j != i ==> caches[j].Valid()
      ensures forall j :: 0 <= j < NR_SINKS ==> caches[j].Valid()
    {
    }

    /** crash_restore: writes every row, whatever happened since the snapshot. ok(fd) is what pwrite
        returns. Each node with a captured base whose write succeeds holds that base, which is its boot
        value if and only if that fits 32 bits. */
    method CrashRestore(ok: int -> bool)
      requires Armed()
      modifies kernel
      ensures forall i :: 0 <= i < NR_SINKS && caches[i].active && caches[i].hasBase && ok(caches[i].fd) ==>
                && caches[i].fd in kernel.files
                && kernel.files[caches[i].fd] == caches[i].base
                && (kernel.files[caches[i].fd] == caches[i].boot <==> caches[i].boot <= I32_MAX)
    {
      ghost var v, rows := Views(caches), Rows(Views(caches));
      RowsDistinct(v);
      hide Rows;
      for i := 0 to rsCnt
        invariant old(kernel.files.Keys) <= kernel.files.Keys
        invariant forall j :: 0 <= j < i && ok(rows[j].fd) && rows[j].fd in old(kernel.files) && rows[j].fd >= 0 ==>
                    kernel.files[rows[j].fd] == rows[j].base
      {
        var row := rsTbl[i];
        assert row == rsTbl[..rsCnt][i] == rows[i];
        var rc := kernel.Pwrite(row.fd, row.base, ok(row.fd));
      }
      forall i | 0 <= i < NR_SINKS && caches[i].active && caches[i].hasBase && ok(caches[i].fd)
        ensures caches[i].fd in kernel.files && kernel.files[caches[i].fd] == caches[i].base
      {
        assert v[i] == View(caches[i]) && old(caches[i].Valid());
        var k := RowsTo(v, i);
      }
    }

    /** restore_all: the sinks one by one, then the crash table is disarmed. */
    method RestoreAll(ok: int -> bool)
      requires Valid()
      modifies `rsCnt, kernel, caches
      ensures Valid() && rsCnt == 0
      ensures forall i :: 0 <= i < NR_SINKS ==> Restored(caches[i], ok(caches[i].fd))
      ensures Views(caches) == old(Views(caches))
      ensures forall i :: 0 <= i < NR_SINKS ==> (caches[i].last == UNSET <==> old(caches[i].last) == UNSET)
      ensures forall i :: 0 <= i < NR_SINKS && caches[i].active && caches[i].last == UNSET ==>
                kernel.files[caches[i].fd] == old(kernel.files[caches[i].fd])
    {
      ghost var v := Views(caches);
      assert forall j :: 0 <= j < NR_SINKS ==> v[j] == View(caches[j]);
      for i := 0 to NR_SINKS
        invariant Valid() && Views(caches) == v
        invariant forall j :: 0 <= j < i ==> Restored(caches[j], ok(caches[j].fd))
        invariant forall j :: 0 <= j < NR_SINKS ==> (caches[j].last == UNSET <==> old(caches[j].last) == UNSET)
        invariant forall j :: 0 <= j < NR_SINKS && caches[j].active && caches[j].last == UNSET ==>
                  kernel.files[caches[j].fd] == old(kernel.files[caches[j].fd])
      {
        RestoreOne(i, ok);
      }
      rsCnt := 0;
    }

    method RestoreOne(i: nat, ok: int -> bool)
      requires Valid() && i < NR_SINKS
      requires forall j :: 0 <= j < i ==> Restored(caches[j], ok(caches[j].fd))
      modifies kernel, caches[i]
      ensures Valid() && Views(caches) == old(Views(caches))
      ensures forall j :: 0 <= j <= i ==> Restored(caches[j], ok(caches[j].fd))
      ensures forall j :: 0 <= j < NR_SINKS ==> (caches[j].last == UNSET <==> old(caches[j].last) == UNSET)
      ensures forall j :: 0 <= j < NR_SINKS && caches[j].active && caches[j].last == UNSET ==>
                kernel.files[caches[j].fd] == old(kernel.files[caches[j].fd])
    {
      ghost var v := Views(caches);
      assert forall j :: 0 <= j < NR_SINKS ==> v[j] == View(caches[j]);
      caches[i].Restore(ok(caches[i].fd));
      assert Views(caches) == v;
      KeepValid(i);
    }
  }

  /** After restore_all: a sink with a captured base that was ever written holds that base, which is its
      boot value if and only if that fits 32 bits; one never written was left alone. */
  ghost predicate Restored(c: Cache, ok: bool)
    reads c, c.kernel
  {
    c.active && c.hasBase && ok && c.fd in c.kernel.files ==>
      if c.last == UNSET then c.kernel.files[c.fd] == c.boot || c.kernel.files[c.fd] == UNSET
      else c.kernel.files[c.fd] == c.base && (c.kernel.files[c.fd] == c.boot <==> c.boot <= I32_MAX)
  }
}
