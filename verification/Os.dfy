/** One process's descriptor table, as far as libptytty uses it. */
module Os {

  /** What an open descriptor refers to. */
  datatype File =
    | Device(path: string)   // a device node opened by name
    | Master(slave: string)  // the master of a pty from the multiplexer, with the name of its slave
    | Socket(which: nat)
    | Sent(serial: nat)      // some file of another process

  class Process {
    var fds: map<int, File>

    constructor (fds: map<int, File>)
      requires forall fd :: fd in fds ==> fd >= 0
      ensures Valid() && this.fds == fds
    {
      this.fds := fds;
    }

    predicate Valid()
      reads this
    {
      forall fd :: fd in fds ==> fd >= 0
    }

    /** A system call that makes a descriptor: it fails, or returns some number that was not in use. */
    method Open(file: File, ok: bool) returns (fd: int)
      requires Valid()
      modifies this
      ensures Valid()
      ensures !ok ==> fd == -1 && fds == old(fds)
      ensures ok ==> fd >= 0 && fd !in old(fds) && fds == old(fds)[fd := file]
    {
      if !ok {
        return -1;
      }
      Unused(fds.Keys);
      fd :| fd >= 0 && fd !in fds;
      fds := fds[fd := file];
    }

    /** close. A descriptor is closed while it is open, hence once; closing -1 has no effect. */
    method Close(fd: int)
      requires Valid() && (fd in fds || fd < 0)
      modifies this
      ensures Valid() && fds == old(fds) - {fd}
    {
      fds := fds - {fd};
    }
  }

  /** Some number is not in use. */
  lemma {:induction false} Unused(used: set<int>)
    ensures exists fd :: fd >= 0 && fd !in used
  {
    var bound := Bound(used);
    assert bound >= 0 && bound !in used;
  }

  lemma {:induction false} Bound(used: set<int>) returns (bound: nat)
    ensures forall fd :: fd in used ==> fd < bound
  {
    if x :| x in used {
      var rest := used - {x};
      bound := Bound(rest);
      assert forall fd :: fd in used ==> fd == x || fd in rest;
      if bound <= x {
        bound := x + 1;
      }
    } else {
      bound := 0;
    }
  }
}
