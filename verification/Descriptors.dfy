/** The process's open descriptors and the epoll interest list, as the kernel keeps them. */
module Descriptors {
  /** What an open descriptor refers to: one of the daemon's own files, its log, or anything else. */
  datatype File =
    | Other | Log | Lock | Node(i: nat) | CpuTemp | BatTemp | BatCap
    | Trigger | Pressure | Signal | Backlight(i: nat) | Epoll

  const STDERR := 2

  class Table {
    /** What each open descriptor refers to. */
    var open: map<int, File>
    /** What it was opened as, by whoever is going to close it. */
    ghost var owner: map<int, File>
    /** Registered with the epoll instance. */
    var watched: set<int>

    /** A descriptor refers to what it was opened as, unless the log was moved over it. */
    ghost predicate Valid()
      reads this
    {
      && owner.Keys == open.Keys && watched <= open.Keys
      && (forall k :: k in open ==> k >= 0)
      && (forall k :: k in open ==> open[k] == owner[k] || Moved(k))
    }

    ghost predicate Moved(fd: int)
      reads this
    {
      && fd == STDERR && fd in open && fd in owner
      && open[fd] == Log && (owner[fd] == Other || owner[fd] == Lock || owner[fd].Node?)
    }

    constructor (open: map<int, File>)
      requires forall k :: k in open ==> k >= 0
      ensures Valid() && this.open == owner == open && watched == {}
    {
      this.open, owner, watched := open, open, {};
    }

    /** open and its kin: the lowest free descriptor, or -1 if the call fails. */
    method Open(file: File, ok: bool) returns (fd: int)
      requires Valid()
      modifies `open, `owner
      ensures Valid()
      ensures !ok ==> fd == -1 && open == old(open) && owner == old(owner)
      ensures ok ==> fd >= 0 && fd !in old(open) && fd !in old(owner)
      ensures ok ==> open == old(open)[fd := file] && owner == old(owner)[fd := file]
      ensures ok ==> forall k :: 0 <= k < fd ==> k in old(open)
    {
      if !ok {
        return -1;
      }
      fd := 0;
      ghost var free := open.Keys;
      while fd in open
        invariant fd >= 0 && forall k :: 0 <= k < fd ==> k in open
        invariant forall k :: k in free <==> k in open && !(0 <= k < fd)
        decreases free
      {
        free := free - {fd};
        fd := fd + 1;
      }
      open, owner := open[fd := file], owner[fd := file];
    }

    /** close: the descriptor also leaves the interest list, which dies with the epoll instance. */
    method Close(fd: int)
      requires Valid()
      modifies this
      ensures Valid()
      ensures open == old(open) - {fd} && owner == old(owner) - {fd}
      ensures watched == if fd in old(open) && old(open)[fd] == Epoll then {} else old(watched) - {fd}
    {
      watched := if fd in open && open[fd] == Epoll then {} else watched - {fd};
      open, owner := open - {fd}, owner - {fd};
    }

    /** dup2 of the log onto the standard error descriptor: whatever was there is closed silently, and whoever
        held it now holds the log. */
    method MoveLog(from: int)
      requires Valid() && from in open && open[from] == Log == owner[from]
      requires STDERR in owner && STDERR != from ==>
                 owner[STDERR] == Other || owner[STDERR] == Lock || owner[STDERR].Node?
      modifies this
      ensures Valid()
      ensures from == STDERR ==> open == old(open) && owner == old(owner) && watched == old(watched)
      ensures from != STDERR ==>
        && open == old(open)[STDERR := Log] && watched == old(watched) - {STDERR}
        && owner == if STDERR in old(open) then old(owner) else old(owner)[STDERR := Other]
    {
      if from == STDERR {
        return;
      }
      if STDERR !in open {
        owner := owner[STDERR := Other];
      }
      open, watched := open[STDERR := Log], watched - {STDERR};
    }

    /** epoll_ctl ADD: refused for a descriptor that is not open or already registered. */
    method Add(fd: int, ok: bool) returns (ret: int)
      requires Valid()
      modifies `watched
      ensures Valid()
      ensures ret == (if fd in open && fd !in old(watched) && ok then 0 else -1)
      ensures watched == if ret == 0 then old(watched) + {fd} else old(watched)
    {
      if fd !in open || fd in watched || !ok {
        return -1;
      }
      watched := watched + {fd};
      ret := 0;
    }

    /** epoll_ctl DEL */
    method Remove(fd: int)
      requires Valid()
      modifies `watched
      ensures Valid() && watched == old(watched) - {fd}
    {
      watched := watched - {fd};
    }
  }
}
