/** System-property overrides: src/sys/prop.c and the undo stack of src/sys/opt.c. */
module Props {
  import opened Machine
  import opened Bytes
  import Conf

  type text = seq<byte>

  const MAX_PROPS := 64
  const NAME_MAX := 32      // PROP_NAME_MAX
  const VALUE_MAX := 92     // PROP_VALUE_MAX

  const PROP: text := [112, 114, 111, 112, 46]         // "prop."
  const SYSFS: text := [115, 121, 115, 102, 115, 46]   // "sysfs."

  /** One entry of the override table: a name, the value it had before, and whether it was overridden. */
  datatype PropState = PropState(name: text, val: text, modified: bool)

  /** What the property service answers for a name; an unset property reads as the empty text. */
  function Get(vals: map<text, text>, name: text): text { if name in vals then vals[name] else [] }

  /** The property service. Values fit its buffers. */
  class Service {
    var vals: map<text, text>

    ghost predicate Valid()
      reads this
    {
      forall n :: n in vals ==> |vals[n]| < VALUE_MAX
    }

    /** __system_property_set: `ok` is the service's decision; a value that does not fit is refused. */
    method Set(name: text, val: text, ok: bool) returns (ret: int)
      requires Valid()
      modifies this
      ensures Valid()
      ensures ret == if ok && |val| < VALUE_MAX then 0 else -1
      ensures vals == if ret == 0 then old(vals)[name := val] else old(vals)
    {
      if !ok || |val| >= VALUE_MAX {
        return -1;
      }
      vals := vals[name := val];
      ret := 0;
    }
  }

  /** strncpy into a buffer of the given size, with a terminator. */
  function Fit(s: text, size: nat): text
    requires size > 0
  {
    if |s| <= size - 1 then s else s[..size - 1]
  }

  function InitState(name: text): PropState { PropState(Fit(name, NAME_MAX), [], false) }

  /** pg_prop_set: remember the present value, then override it. A value already in force needs no
      override, and a refused one leaves no mark. */
  method PropSet(state: PropState, val: text, svc: Service, ok: bool) returns (next: PropState, ret: int)
    requires svc.Valid()
    modifies svc
    ensures svc.Valid() && next.name == state.name
    ensures var cur := Get(old(svc.vals), state.name);
            if val == cur then
              ret == 0 && next == state && svc.vals == old(svc.vals)
            else if ok && |val| < VALUE_MAX then
              && ret == 0 && svc.vals == old(svc.vals)[state.name := val]
              && next == (if state.modified then state else PropState(state.name, cur, true))
            else
              ret != 0 && next.modified == state.modified && svc.vals == old(svc.vals)
  {
    next := state;
    var osVal := Get(svc.vals, state.name);
    if osVal == val {
      return next, 0;
    }
    var wasMod := state.modified;
    if !state.modified {
      next := PropState(state.name, Fit(osVal, VALUE_MAX), true);
    }
    var rc := svc.Set(state.name, val, ok);
    if rc != 0 {
      next := next.(modified := wasMod);
      return next, -5;
    }
    ret := 0;
  }

  /** pg_prop_reset */
  method PropReset(state: PropState, svc: Service, ok: bool) returns (next: PropState, ret: int)
    requires svc.Valid()
    modifies svc
    ensures svc.Valid()
    ensures if !state.modified then ret == 0 && next == state && svc.vals == old(svc.vals)
            else if ok && |state.val| < VALUE_MAX then
              ret == 0 && next == state.(modified := false) && svc.vals == old(svc.vals)[state.name := state.val]
            else ret != 0 && next == state && svc.vals == old(svc.vals)
  {
    if !state.modified {
      return state, 0;
    }
    var rc := svc.Set(state.name, state.val, ok);
    if rc != 0 {
      return state, -5;
    }
    return state.(modified := false), 0;
  }

  /** pg_prop_cleanup: put the value back if it was overridden, and forget the entry either way. */
  method PropCleanup(state: PropState, svc: Service, ok: bool) returns (next: PropState)
    requires svc.Valid()
    modifies svc
    ensures svc.Valid() && next == PropState([], [], false)
    ensures svc.vals == if state.modified && ok && |state.val| < VALUE_MAX
                        then old(svc.vals)[state.name := state.val] else old(svc.vals)
  {
    next := state;
    if state.modified {
      var ret;
      next, ret := PropReset(state, svc, ok);
    }
    next := PropState([], [], false);
  }

  // ----- what the stack remembers

  /** The first overriding entry for a name, or the length. */
  function FirstFor(es: seq<PropState>, name: text): (f: nat)
    ensures f <= |es|
    ensures f < |es| ==> es[f].modified && es[f].name == name
    ensures forall i :: 0 <= i < f ==> !(es[i].modified && es[i].name == name)
  {
    if es == [] || (es[0].modified && es[0].name == name) then 0 else 1 + FirstFor(es[1..], name)
  }

  /** The value a name had before the first entry was pushed, as the stack knows it. */
  function Original(es: seq<PropState>, vals: map<text, text>, name: text): text {
    var f := FirstFor(es, name);
    if f < |es| then es[f].val else Get(vals, name)
  }

  lemma FirstUnique(es: seq<PropState>, name: text, f: nat)
    requires f <= |es| && (f < |es| ==> es[f].modified && es[f].name == name)
    requires forall i :: 0 <= i < f ==> !(es[i].modified && es[i].name == name)
    ensures FirstFor(es, name) == f
  {
  }

  /** Pushing an entry that recorded the present value keeps every original value. */
  lemma PushKeeps(es: seq<PropState>, e: PropState, vals: map<text, text>, v: text, vals': map<text, text>, name: text)
    requires e.modified ==> e.val == Get(vals, e.name)
    requires vals' == if e.modified then vals[e.name := v] else vals
    ensures Original(es + [e], vals', name) == Original(es, vals, name)
  {
    var f := FirstFor(es, name);
    if f < |es| {
      FirstUnique(es + [e], name, f);
    } else if e.modified && e.name == name {
      FirstUnique(es + [e], name, f);
    } else {
      FirstUnique(es + [e], name, f + 1);
    }
  }

  /** The override table and the service it acts on. */
  class Overrides {
    const props: array<PropState>
    const svc: Service
    var count: nat
    /** The service as it was when the table was empty. */
    ghost var boot: map<text, text>

    ghost predicate Valid()
      reads this, props, svc
    {
      && props.Length == MAX_PROPS && count <= MAX_PROPS && svc.Valid()
      && (forall i :: 0 <= i < count ==> |props[i].val| < VALUE_MAX)
      && forall name :: Original(props[..count], svc.vals, name) == Get(boot, name)
    }

    constructor (svc: Service)
      requires svc.Valid()
      ensures Valid() && this.svc == svc && count == 0 && boot == svc.vals && fresh(props)
    {
      props := new PropState[MAX_PROPS](_ => PropState([], [], false));
      this.svc := svc;
      count := 0;
      boot := svc.vals;
    }

    /** add_prop: the entry captures the value before its own set. */
    method AddProp(name: text, val: text, ok: bool) returns (ret: int)
      requires Valid()
      modifies `count, props, svc
      ensures Valid() && boot == old(boot)
      ensures props[..old(count)] == old(props[..count])
      ensures
        var n := Fit(name, NAME_MAX);
        var cur := Get(old(svc.vals), n);
        if old(count) >= MAX_PROPS then
          ret != 0 && count == old(count) && svc.vals == old(svc.vals)
        else if val == cur then
          ret == 0 && count == old(count) + 1 && svc.vals == old(svc.vals) && !props[old(count)].modified
        else if ok && |val| < VALUE_MAX then
          ret == 0 && count == old(count) + 1 && svc.vals == old(svc.vals)[n := val] &&
          props[old(count)] == PropState(n, cur, true)
        else
          ret != 0 && count == old(count) && svc.vals == old(svc.vals)
    {
      if count >= MAX_PROPS {
        return -28;
      }
      ghost var es, was := props[..count], svc.vals;
      props[count] := InitState(name);
      var e;
      e, ret := PropSet(props[count], val, svc, ok);
      props[count] := e;
      assert props[..count] == es;
      if ret != 0 {
        return;
      }
      assert props[..count + 1] == es + [e];
      forall n
        ensures Original(es + [e], svc.vals, n) == Original(es, was, n)
      {
        PushKeeps(es, e, was, val, svc.vals, n);
      }
      count := count + 1;
    }

    /** pg_opt_exit: undo in reverse. resetOk(i) is the service's answer for entry i. Whatever else
        fails, a name is back at its boot value if its first entry could be reset. */
    method Exit(resetOk: nat -> bool)
      requires Valid()
      modifies `count, props, svc
      ensures count == 0 && boot == old(boot) && svc.Valid()
      ensures forall name ::
        (var f := FirstFor(old(props[..count]), name); f < old(count) ==> resetOk(f))
        ==> Get(svc.vals, name) == Get(boot, name)
      ensures (forall i: nat :: resetOk(i)) ==> Valid()
    {
      ghost var es := props[..count];
      var i := count;
      while i > 0
        invariant 0 <= i <= count == |es| && svc.Valid()
        invariant props[..i] == es[..i]
        invariant forall name :: Undone(es, i, svc.vals, boot, resetOk, name)
      {
        i := i - 1;
        ghost var was := svc.vals;
        assert props[i] == props[..i + 1][i] == es[i];
        props[i] := PropCleanup(props[i], svc, resetOk(i));
        assert props[..i] == es[..i];
        forall name
          ensures Undone(es, i, svc.vals, boot, resetOk, name)
        {
          assert Undone(es, i + 1, was, boot, resetOk, name);
          UndoStep(es, i, was, svc.vals, boot, resetOk, name);
        }
      }
      forall name
        ensures (FirstFor(es, name) < |es| ==> resetOk(FirstFor(es, name))) ==> Get(svc.vals, name) == Get(boot, name)
      {
        assert Undone(es, 0, svc.vals, boot, resetOk, name);
      }
      count := 0;
      assert props[..0] == [];
    }
  }

  /** The state of one name while entries i and above have been undone: its first entry is still on the
      stack and holds the boot value, or it has been undone, or its reset failed. */
  ghost predicate Undone(es: seq<PropState>, i: nat, vals: map<text, text>, boot: map<text, text>,
                         resetOk: nat -> bool, name: text)
  {
    var f := FirstFor(es, name);
    if f < |es| && f < i then es[f].val == Get(boot, name)
    else (f < |es| && !resetOk(f)) || Get(vals, name) == Get(boot, name)
  }

  lemma UndoStep(es: seq<PropState>, i: nat, was: map<text, text>, vals: map<text, text>, boot: map<text, text>,
                 resetOk: nat -> bool, name: text)
    requires i < |es| && |es[i].val| < VALUE_MAX && Undone(es, i + 1, was, boot, resetOk, name)
    requires vals == if es[i].modified && resetOk(i) then was[es[i].name := es[i].val] else was
    ensures Undone(es, i, vals, boot, resetOk, name)
  {
  }

  /** Reference: the properties and the number of table entries after one directive. */
  datatype Table = Table(vals: map<text, text>, count: nat)

  function Directive(t: Table, key: text, val: text, ok: bool): Table {
    if StartsWith(key, SYSFS) || !StartsWith(key, PROP) || t.count >= MAX_PROPS then t
    else
      var n := Fit(key[5..], NAME_MAX);
      if val == Get(t.vals, n) then Table(t.vals, t.count + 1)
      else if ok && |val| < VALUE_MAX then Table(t.vals[n := val], t.count + 1)
      else t
  }

  /** "prop.x" with value v: unless the table is full or the service refuses, x reads v afterwards, no other name
      changes, and one entry is used. Names keep their first 31 bytes. */
  lemma PropDirective(t: Table, name: text, val: text, ok: bool)
    ensures var x := if |name| <= 31 then name else name[..31];
            var t' := Directive(t, [112, 114, 111, 112, 46] + name, val, ok);
            && (t.count < 64 && ok && |val| < 92 ==> Get(t'.vals, x) == val && t'.count == t.count + 1)
            && (t.count < 64 && Get(t.vals, x) == val ==> t' == Table(t.vals, t.count + 1))
            && (t.count >= 64 || (Get(t.vals, x) != val && (!ok || |val| >= 92)) ==> t' == t)
            && forall n :: n != x ==> Get(t'.vals, n) == Get(t.vals, n)
  {
    var key := [112, 114, 111, 112, 46] + name;
    assert key[..5] == PROP && key[5..] == name;
    assert key[0] != SYSFS[0];
    assert !StartsWith(key, SYSFS);
  }

  /** A key that does not start with "prop." changes nothing. */
  lemma OtherDirective(t: Table, key: text, val: text, ok: bool)
    requires |key| < 5 || key[..5] != [112, 114, 111, 112, 46]
    ensures Directive(t, key, val, ok) == t
  {
  }

  /** All directives in order; setOk(k) is the service's answer to the k-th. */
  function Directives(t: Table, calls: seq<Conf.Call>, setOk: nat -> bool): Table {
    if calls == [] then t
    else
      var k := |calls| - 1;
      var before := Directives(t, calls[..k], setOk);
      if calls[k].Call? then Directive(before, calls[k].key, calls[k].val, setOk(k)) else before
  }

  /** What parse_cb does with one directive; it never stops the parser. setOk is the service's answer. */
  method ParseCb(ov: Overrides, key: text, val: text, setOk: bool) returns (ret: int)
    requires ov.Valid()
    modifies ov`count, ov.props, ov.svc
    ensures ov.Valid() && ov.boot == old(ov.boot) && ret == 0
    ensures Table(ov.svc.vals, ov.count) == Directive(Table(old(ov.svc.vals), old(ov.count)), key, val, setOk)
  {
    if StartsWith(key, SYSFS) {
      return 0;
    }
    if StartsWith(key, PROP) {
      var added := ov.AddProp(key[5..], val, setOk);
      return 0;
    }
    return 0;
  }

  /** pg_opt_init on any configuration text, cut into any chunks. Since parse_cb always returns 0, the
      directives are handled in parse order, and none is lost. */
  method OptInit(ov: Overrides, chunks: seq<seq<byte>>, readErr: int, setOk: nat -> bool) returns (ret: int)
    requires ov.Valid() && readErr <= 0
    requires forall c :: c in chunks ==> 0 < |c| <= Conf.BUF_SZ
    modifies ov`count, ov.props, ov.svc
    ensures ov.Valid() && ov.boot == old(ov.boot)
    ensures
      var file := Conf.Concat(chunks);
      var calls := if readErr < 0 then Conf.Done(file) else Conf.CallsOf(Conf.Split(file));
      Table(ov.svc.vals, ov.count) == Directives(Table(old(ov.svc.vals), old(ov.count)), calls, setOk)
  {
    hide Conf.Done, Conf.CallsOf, Conf.Split, Conf.Concat, Directive;
    var calls;
    ret, calls := Conf.ConfParse(chunks, readErr, (k, key, val) => 0);
    assert calls[..|calls|] == calls;
    for k := 0 to |calls|
      invariant ov.Valid() && ov.boot == old(ov.boot)
      invariant Table(ov.svc.vals, ov.count) == Directives(Table(old(ov.svc.vals), old(ov.count)), calls[..k], setOk)
    {
      assert calls[..k + 1][..k] == calls[..k];
      if calls[k].Call? {
        var zero := ParseCb(ov, calls[k].key, calls[k].val, setOk(k));
      }
    }
  }

  /** For every configuration text and every pattern of failed sets, leaving with successful resets puts
      every property back to what it was, names set more than once included. */
  method ConfigUndone(svc: Service, chunks: seq<seq<byte>>, readErr: int, setOk: nat -> bool, resetOk: nat -> bool)
    requires svc.Valid() && readErr <= 0
    requires forall c :: c in chunks ==> 0 < |c| <= Conf.BUF_SZ
    requires forall i: nat :: resetOk(i)
    modifies svc
    ensures forall name :: Get(svc.vals, name) == Get(old(svc.vals), name)
  {
    var ov := new Overrides(svc);
    var ret := OptInit(ov, chunks, readErr, setOk);
    ov.Exit(resetOk);
  }
}
