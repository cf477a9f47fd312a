/** The accounting of descriptors: which field of the context holds which open descriptor. */
module Ledger {
  import opened Machine
  import opened Descriptors

  /** The descriptor fields of the context, and the descriptors it does not own. */
  datatype Fields = Fields(
    others: set<int>, lock: int, nodes: seq<int>, cpuTemp: int, batTemp: int, batCap: int, trg: int, psi: int, sig: int,
    bl: seq<int>, epoll: int)

  /** The field that holds the descriptor of a file. */
  function FdOf(h: Fields, f: File): int {
    match f
    case Other => -1
    case Lock => h.lock
    case Node(i) => if i < |h.nodes| then h.nodes[i] else -1
    case CpuTemp => h.cpuTemp
    case BatTemp => h.batTemp
    case BatCap => h.batCap
    case Trigger => h.trg
    case Pressure => h.psi
    case Signal => h.sig
    case Backlight(i) => if i < |h.bl| then h.bl[i] else -1
    case Epoll => h.epoll
    case Log => -1
  }

  /** fd is the one and only descriptor opened as f, or negative and there is none. */
  predicate Known(owner: map<int, File>, f: File, fd: int) {
    && (forall k :: k in owner && owner[k] == f ==> k == fd)
    && (fd >= 0 ==> fd in owner && owner[fd] == f)
  }

  /** No descriptor is lost and none is stale: those the daemon opened are exactly those in its fields. */
  ghost predicate Accounted(owner: map<int, File>, h: Fields) {
    && (forall k :: k in owner ==> k >= 0)
    && (forall k :: k in h.others <==> k in owner && owner[k] == Other)
    && (forall f: File :: f != Other ==> Known(owner, f, FdOf(h, f)))
  }

  /** h' is h but for the field of f, which becomes fd. */
  ghost predicate Changed(h: Fields, f: File, fd: int, h': Fields) {
    h'.others == h.others && forall g: File :: g != Other ==> FdOf(h', g) == if g == f then fd else FdOf(h, g)
  }

  /** Assigning one field changes the descriptor of one file. */
  lemma FieldSet(h: Fields, fd: int)
    ensures Changed(h, Lock, fd, h.(lock := fd)) && Changed(h, CpuTemp, fd, h.(cpuTemp := fd))
    ensures Changed(h, BatTemp, fd, h.(batTemp := fd)) && Changed(h, BatCap, fd, h.(batCap := fd))
    ensures Changed(h, Trigger, fd, h.(trg := fd)) && Changed(h, Pressure, fd, h.(psi := fd))
    ensures Changed(h, Signal, fd, h.(sig := fd)) && Changed(h, Epoll, fd, h.(epoll := fd))
  {
  }

  lemma NodeSet(h: Fields, i: nat, fd: int)
    requires i < |h.nodes|
    ensures Changed(h, Node(i), fd, h.(nodes := h.nodes[i := fd]))
  {
  }

  lemma BacklightSet(h: Fields, fd: int)
    ensures Changed(h, Backlight(|h.bl|), fd, h.(bl := h.bl + [fd]))
  {
  }

  lemma Acquired(owner: map<int, File>, h: Fields, f: File, fd: int, h': Fields)
    requires Accounted(owner, h) && f != Other && FdOf(h, f) < 0 <= fd && fd !in owner && Changed(h, f, fd, h')
    ensures Accounted(owner[fd := f], h')
  {
    hide FdOf;
    forall g: File | g != Other
      ensures Known(owner[fd := f], g, FdOf(h', g))
    {
      assert Known(owner, g, FdOf(h, g));
    }
  }

  /** A descriptor opened for a file that had none, or a failure to owner one. */
  lemma Taken(owner: map<int, File>, owner': map<int, File>, h: Fields, f: File, fd: int, h': Fields)
    requires Accounted(owner, h) && f != Other && FdOf(h, f) < 0 && Changed(h, f, fd, h')
    requires if fd < 0 then owner' == owner else fd !in owner && owner' == owner[fd := f]
    ensures Accounted(owner', h')
  {
    if fd >= 0 {
      Acquired(owner, h, f, fd, h');
    } else {
      hide FdOf;
      forall g: File | g != Other
        ensures Known(owner, g, FdOf(h', g))
      {
        assert Known(owner, g, FdOf(h, g));
      }
    }
  }

  lemma Released(owner: map<int, File>, h: Fields, f: File, h': Fields)
    requires Accounted(owner, h) && f != Other && Changed(h, f, -1, h')
    ensures Accounted(owner - {FdOf(h, f)}, h')
    ensures FdOf(h, f) < 0 ==> Accounted(owner, h')
  {
    hide FdOf;
    assert Known(owner, f, FdOf(h, f));
    forall g: File | g != Other
      ensures Known(owner - {FdOf(h, f)}, g, FdOf(h', g))
    {
      assert Known(owner, g, FdOf(h, g));
    }
    if FdOf(h, f) < 0 {
      assert owner - {FdOf(h, f)} == owner;
    }
  }

  /** Fields of different files hold different descriptors. */
  lemma Apart(owner: map<int, File>, h: Fields, f: File, g: File)
    requires Accounted(owner, h) && f != Other && g != Other && f != g && FdOf(h, f) >= 0
    ensures FdOf(h, f) in owner && owner[FdOf(h, f)] == f && FdOf(h, f) != FdOf(h, g)
  {
    hide FdOf;
    assert Known(owner, f, FdOf(h, f)) && Known(owner, g, FdOf(h, g));
  }

  /** A descriptor that no field holds, and that nobody will close. */
  lemma Adopted(owner: map<int, File>, h: Fields, fd: int)
    requires Accounted(owner, h) && fd >= 0 && fd !in owner
    ensures Accounted(owner[fd := Other], h.(others := h.others + {fd}))
  {
    var h' := h.(others := h.others + {fd});
    forall g: File | g != Other
      ensures Known(owner[fd := Other], g, FdOf(h', g))
    {
      assert Known(owner, g, FdOf(h, g));
    }
  }

  // ----- descriptors 0, 1 and 2 under the lowest-free rule

  /** How many of the descriptors 0 and 1 are free. */
  function LowFree(s: set<int>): nat { (if 0 in s then 0 else 1) + (if 1 in s then 0 else 1) }

  /** b is a after n descriptors were opened, as far as 0, 1 and 2 go. */
  predicate Filled(a: set<int>, b: set<int>, n: nat) {
    LowFree(b) == Max(LowFree(a) - n, 0) && (2 in b <==> 2 in a || n > LowFree(a))
  }

  lemma OpenFills(a: set<int>, fd: int)
    requires fd >= 0 && fd !in a && forall k :: 0 <= k < fd ==> k in a
    ensures Filled(a, a + {fd}, 1)
  {
  }

  lemma FilledTwice(a: set<int>, b: set<int>, m: nat, c: set<int>, n: nat)
    requires Filled(a, b, m) && Filled(b, c, n)
    ensures Filled(a, c, m + n)
  {
  }
}
