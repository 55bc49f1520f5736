/** One pty of src/ptytty.C: finding master and slave, and giving them back. */
module Ptytty {
  import opened Os
  import opened Session
  import opened Wrappers

  /** The ways a build finds a pty. */
  datatype Backend = Unix98 | OpenPty | Scan

  /** What the system would answer during one get. */
  datatype World = World(
    multiplexer: bool, granted: bool, unlocked: bool, slave: string, openpty: bool,
    openable: string -> bool, accessible: string -> bool)

  const MAJORS := "pqrstuvwxyzabcde"
  const MINORS := "0123456789abcdef"

  function Decimal(n: nat): string {
    if n < 10 then ["0123456789"[n]] else Decimal(n / 10) + ["0123456789"[n % 10]]
  }

  function Suffix(i: nat): string
    requires i < 256
  {
    [MAJORS[i / 16], MINORS[i % 16]]
  }

  /** The names of the scan are all different; they run from p0 to ef, the minor letter changing first. */
  lemma SuffixesDiffer(i: nat, j: nat)
    requires i < 256 && j < 256
    ensures |Suffix(i)| == 2 && (Suffix(i) == Suffix(j) <==> i == j)
    ensures Suffix(0) == "p0" && Suffix(1) == "p1" && Suffix(16) == "q0" && Suffix(255) == "ef"
    ensures Suffix(i)[0] in "pqrstuvwxyzabcde" && Suffix(i)[1] in "0123456789abcdef"
    ensures i / 16 == j / 16 <==> Suffix(i)[0] == Suffix(j)[0]
  {
    LettersDiffer(i / 16, j / 16);
    LettersDiffer(i % 16, j % 16);
    assert i == 16 * (i / 16) + i % 16 && j == 16 * (j / 16) + j % 16;
  }

  lemma LettersDiffer(k: nat, m: nat)
    requires k < 16 && m < 16
    ensures (MAJORS[k] == MAJORS[m] <==> k == m) && (MINORS[k] == MINORS[m] <==> k == m)
  {
  }

  /** The number that a decimal text denotes. */
  function Denotes(s: string): int {
    if s == [] then 0 else 10 * Denotes(s[..|s| - 1]) + (s[|s| - 1] as int - '0' as int)
  }

  /** The second name of a pair ends in the number of the round, without leading zeros. */
  lemma {:induction false} DecimalDenotes(n: nat)
    ensures Denotes(Decimal(n)) == n && Decimal(n) != []
    ensures forall i :: 0 <= i < |Decimal(n)| ==> '0' <= Decimal(n)[i] <= '9'
    ensures n > 0 ==> Decimal(n)[0] != '0'
  {
    if n < 10 {
      assert Decimal(n)[..0] == [];
    } else {
      DecimalDenotes(n / 10);
      assert Decimal(n)[..|Decimal(n)| - 1] == Decimal(n / 10);
    }
  }

  /** The i-th candidate of the scan: the master that opens, if its slave is accessible. When the first name of the pair
      opens, the second is not considered, even if the slave is not accessible. */
  function Candidate(w: World, i: nat): Option<string>
    requires i < 256
  {
    if w.openable("/dev/pty" + Suffix(i)) then
      if w.accessible("/dev/tty" + Suffix(i)) then Some(Suffix(i)) else None
    else if w.openable("/dev/ptyp" + Decimal(i)) then
      if w.accessible("/dev/ttyp" + Decimal(i)) then Some("p" + Decimal(i)) else None
    else None
  }

  /** The name belongs to the slave of the opened master. */
  predicate Paired(master: File, name: string) {
    match master
    case Master(slave) => slave == name
    case Device(path) => "/dev/pty" <= path && "/dev/tty" <= name && path[8..] == name[8..]
    case _ => false
  }

  /** What makes a candidate: its master opens and its slave is accessible, under the one name or the other; the second
      name is tried exactly if the first does not open. */
  lemma CandidateExactly(w: World, i: nat, s: string)
    requires i < 256
    ensures Candidate(w, i) == Some(s) ==>
              w.openable("/dev/pty" + s) && w.accessible("/dev/tty" + s) && (s == Suffix(i) || s == "p" + Decimal(i))
    ensures w.openable("/dev/pty" + Suffix(i)) ==>
              (Candidate(w, i) == Some(s) <==> s == Suffix(i) && w.accessible("/dev/tty" + s))
    ensures !w.openable("/dev/pty" + Suffix(i)) ==>
              (Candidate(w, i) == Some(s) <==>
               s == "p" + Decimal(i) && w.openable("/dev/pty" + s) && w.accessible("/dev/tty" + s))
  {
    hide Suffix, Decimal;
    assert "/dev/pty" + ("p" + Decimal(i)) == "/dev/ptyp" + Decimal(i);
    assert "/dev/tty" + ("p" + Decimal(i)) == "/dev/ttyp" + Decimal(i);
  }

  /** One round of the scan: opened and accessible, or closed again. */
  method TryCandidate(p: Process, w: World, i: nat) returns (fd: int, suffix: string)
    requires p.Valid() && i < 256
    modifies p
    ensures p.Valid() && fd >= -1
    ensures fd >= 0 <==> Candidate(w, i) == Some(suffix)
    ensures fd < 0 ==> Candidate(w, i).None? && p.fds == old(p.fds)
    ensures fd >= 0 ==> fd !in old(p.fds) && p.fds == old(p.fds)[fd := Device("/dev/pty" + suffix)]
  {
    suffix := Suffix(i);
    hide Suffix, Decimal;
    fd := p.Open(Device("/dev/pty" + suffix), w.openable("/dev/pty" + suffix));
    if fd == -1 {
      suffix := "p" + Decimal(i);
      assert "/dev/pty" + suffix == "/dev/ptyp" + Decimal(i) && "/dev/tty" + suffix == "/dev/ttyp" + Decimal(i);
      fd := p.Open(Device("/dev/pty" + suffix), w.openable("/dev/pty" + suffix));
      if fd == -1 {
        return;
      }
    }
    if !w.accessible("/dev/tty" + suffix) {
      p.Close(fd);
      assert p.fds == old(p.fds);
      fd := -1;
    }
  }

  /** get_pty, the scanning version: the first candidate that works, or nothing opened. */
  method GetPtyScan(p: Process, w: World) returns (fd: int, name: Option<string>, ghost found: nat)
    requires p.Valid()
    modifies p
    ensures p.Valid() && found <= 256
    ensures forall j :: 0 <= j < found ==> Candidate(w, j).None?
    ensures found == 256 <==> fd < 0
    ensures found == 256 ==> fd == -1 && name == None && p.fds == old(p.fds)
    ensures found < 256 ==>
              && Candidate(w, found).Some? && name == Some("/dev/tty" + Candidate(w, found).value)
              && fd !in old(p.fds) && p.fds == old(p.fds)[fd := Device("/dev/pty" + Candidate(w, found).value)]
  {
    hide Candidate;
    var i := 0;
    while i < 256
      invariant 0 <= i <= 256 && p.Valid() && p.fds == old(p.fds)
      invariant forall j :: 0 <= j < i ==> Candidate(w, j).None?
    {
      var pfd, suffix := TryCandidate(p, w, i);
      if pfd >= 0 {
        return pfd, Some("/dev/tty" + suffix), i;
      }
      i := i + 1;
    }
    return -1, None, 256;
  }

  /** The first candidate from i on that works. */
  function FirstCandidate(w: World, i: nat): Option<string>
    requires i <= 256
    decreases 256 - i
  {
    if i == 256 then None
    else if Candidate(w, i).Some? then Some("/dev/tty" + Candidate(w, i).value)
    else FirstCandidate(w, i + 1)
  }

  lemma {:induction false} FirstIs(w: World, i: nat, found: nat)
    requires i <= found < 256 && Candidate(w, found).Some? && forall j :: i <= j < found ==> Candidate(w, j).None?
    ensures FirstCandidate(w, i) == Some("/dev/tty" + Candidate(w, found).value)
    decreases found - i
  {
    hide Candidate;
    if i == found {
    } else {
      FirstIs(w, i + 1, found);
    }
  }

  lemma {:induction false} FirstNone(w: World, i: nat)
    requires i <= 256 && forall j :: i <= j < 256 ==> Candidate(w, j).None?
    ensures FirstCandidate(w, i).None?
    decreases 256 - i
  {
    hide Candidate;
    if i == 256 {
    } else {
      FirstNone(w, i + 1);
    }
  }

  /** The name of the slave of the pty that the system has for us, if it has one. */
  function Slave(b: Backend, w: World): Option<string> {
    match b
    case Unix98 => if w.multiplexer && w.granted && w.unlocked then Some(w.slave) else None
    case OpenPty => if w.openpty then Some(w.slave) else None
    case Scan => FirstCandidate(w, 0)
  }

  /** Whether a get works, on an object that holds a slave descriptor or holds none. */
  predicate Works(b: Backend, w: World, holdsTty: bool) {
    Slave(b, w).Some? && (b.OpenPty? || holdsTty || w.openable(Slave(b, w).value))
  }

  /** get_pty: a master and the name of its slave, exactly if the system has one. Only openpty sets the slave descriptor;
      the others leave it as it is. */
  method GetPty(b: Backend, p: Process, w: World, tty0: int, name0: Option<string>)
    returns (fd: int, tty: int, name: Option<string>)
    requires p.Valid()
    modifies p
    ensures p.Valid() && fd >= -1 && (fd >= 0 <==> Slave(b, w).Some?)
    ensures b.Unix98? ==> (fd >= 0 <==> w.multiplexer && w.granted && w.unlocked)
    ensures b.OpenPty? ==> (fd >= 0 <==> w.openpty)
    ensures b.Scan? ==> (fd >= 0 <==> exists i :: 0 <= i < 256 && Candidate(w, i).Some?)
    ensures fd >= 0 && !b.Scan? ==> name == Some(w.slave)
    ensures fd < 0 ==> tty == tty0 && name == name0 && p.fds == old(p.fds)
    ensures fd >= 0 ==>
              && fd !in old(p.fds) && name == Slave(b, w) && fd in p.fds && Paired(p.fds[fd], name.value)
              && if b.OpenPty? then
                   tty >= 0 && tty != fd && tty !in old(p.fds)
                   && p.fds == old(p.fds)[fd := p.fds[fd]][tty := Device(name.value)]
                 else tty == tty0 && p.fds == old(p.fds)[fd := p.fds[fd]]
  {
    fd, tty, name := -1, tty0, name0;
    match b
    case Unix98 =>
      var pfd := p.Open(Master(w.slave), w.multiplexer);
      if pfd >= 0 {
        if w.granted && w.unlocked {
          return pfd, tty0, Some(w.slave);
        }
        p.Close(pfd);
        assert p.fds == old(p.fds);
      }
    case OpenPty =>
      if w.openpty {
        fd := p.Open(Master(w.slave), true);
        tty := p.Open(Device(w.slave), true);
        name := Some(w.slave);
      }
    case Scan =>
      ghost var at;
      var found;
      fd, found, at := GetPtyScan(p, w);
      if fd >= 0 {
        name := found;
        FirstIs(w, 0, at);
        PairedScan(Candidate(w, at).value);
      } else {
        FirstNone(w, 0);
      }
  }

  /** A master is paired with one name only. */
  lemma PairedOnce(master: File, a: string, b: string)
    requires Paired(master, a) && Paired(master, b)
    ensures a == b
  {
    if master.Device? {
      assert a == a[..8] + a[8..] && b == b[..8] + b[8..];
    }
  }

  lemma PairedScan(suffix: string)
    ensures Paired(Device("/dev/pty" + suffix), "/dev/tty" + suffix)
  {
  }

  /** The slave of the new pty gets opened, because openpty does so or because the object holds none yet. */
  predicate OpensTty(b: Backend, tty: int) {
    b.OpenPty? || tty < 0
  }

  /** A descriptor that an object had is closed, or the object still has it. */
  predicate Kept(fds: map<int, File>, fd: int, pty: int, tty: int) {
    fd < 0 || fd !in fds || fd == pty || fd == tty
  }

  class PtyttyUnix {
    var pty: int
    var tty: int
    var name: Option<string>
    var cmdPid: int
    var loginShell: bool
    ghost const serial: nat // of the objects of a process

    constructor (ghost serial: nat)
      ensures pty == -1 && tty == -1 && name == None && cmdPid == 0 && this.serial == serial
    {
      pty, tty, name, cmdPid, loginShell := -1, -1, None, 0, false;
      this.serial := serial;
    }

    /** A login is remembered, but not for which device: the destructor cannot log it out. */
    predicate Nameless()
      reads this
    {
      cmdPid != 0 && name == None
    }

    /** The descriptors of this object are open in p, or -1. */
    predicate Owned(p: Process)
      reads this, p
    {
      && p.Valid()
      && pty >= -1 && tty >= -1 && (pty >= 0 ==> pty in p.fds && pty != tty) && (tty >= 0 ==> tty in p.fds)
    }

    method CloseTty(p: Process)
      requires Owned(p)
      modifies this`tty, p
      ensures Owned(p) && tty == -1 && p.fds == old(p.fds) - {old(tty)}
    {
      if tty < 0 {
        return;
      }
      p.Close(tty);
      tty := -1;
    }

    /** put: gives back what the object holds, each descriptor once; a second put finds nothing to give back. */
    method Put(p: Process)
      requires Owned(p)
      modifies this`pty, this`tty, this`name, p
      ensures Owned(p) && pty == -1 && tty == -1 && name == None
      ensures p.fds == old(p.fds) - {old(pty), old(tty)}
      ensures old(pty) == old(tty) == -1 ==> p.fds == old(p.fds)
    {
      CloseTty(p);
      if pty >= 0 {
        p.Close(pty);
      }
      pty, tty := -1, -1;
      name := None;
    }

    /** get, on any object, whatever it holds. What it held is overwritten, not given back. */
    method Get(b: Backend, p: Process, w: World) returns (ok: bool)
      requires Owned(p)
      modifies this`pty, this`tty, this`name, p
      ensures Owned(p) && (ok <==> Works(b, w, old(tty) >= 0))
      ensures ok ==>
                && pty >= 0 && tty >= 0 && pty !in old(p.fds) && name == Slave(b, w) && name.Some?
                && Paired(p.fds[pty], name.value)
                && if OpensTty(b, old(tty)) then
                     tty !in old(p.fds) && p.fds == old(p.fds)[pty := p.fds[pty]][tty := Device(name.value)]
                   else tty == old(tty) && p.fds == old(p.fds)[pty := p.fds[pty]]
      ensures !ok ==>
                && pty == -1 && p.fds == old(p.fds)
                && if Slave(b, w).Some? then tty == -1 && name == None else tty == old(tty) && name == old(name)
      // the slave belongs to the master exactly if it was opened for it, or the old one happens to be of that name
      ensures ok ==> (p.fds[tty] == Device(name.value) <==>
                        OpensTty(b, old(tty)) || old(p.fds)[old(tty)] == Device(Slave(b, w).value))
      // no descriptor is lost exactly if there was no master to overwrite, and no slave that openpty overwrote
      ensures Kept(p.fds, old(pty), pty, tty) && Kept(p.fds, old(tty), pty, tty) <==>
                old(pty) < 0 && (old(tty) < 0 || !b.OpenPty? || !w.openpty)
      // afterwards a login is remembered without a name exactly if the slave of a new pty did not open, or if there was
      // no new pty and it was so before
      ensures Nameless() <==>
                && cmdPid != 0
                && if Slave(b, w).Some? then !Works(b, w, old(tty) >= 0) else old(name) == None
    {
      pty, tty, name := GetPty(b, p, w, tty, name);
      if pty < 0 {
        return false;
      }
      if tty < 0 {
        tty := p.Open(Device(name.value), w.openable(name.value));
        if tty < 0 {
          Put(p);
          assert p.fds == old(p.fds);
          return false;
        }
      }
      return true;
    }

    /** login: ignored without a device name; otherwise the session replaces the one recorded here before. */
    method Login(db: Db, pid: int, shell: bool, host: string, w: Wtmp) returns (ghost es: seq<Entry>)
      requires db.torn == 0
      modifies this`cmdPid, this`loginShell, db
      ensures db.torn == 0 && db.trace == old(db.trace) + es
      ensures name == None || name.value == "" ==>
                es == [] && cmdPid == old(cmdPid) && loginShell == old(loginShell)
                && db.utmp == old(db.utmp) && db.wtmp == old(db.wtmp)
      ensures name.Some? && name.value != "" ==>
                && cmdPid == pid && loginShell == shell && |es| == 1
                && es[0] == Entry(serial, Fill(db.site, true, pid, SkipDev(name.value), host), shell, es[0].written)
                && NamesDevice(es[0].record, name.value, db.site.sizes)
                && (es[0].written <==> shell && db.site.wtmpSupport && Takes(w, db.site))
                && db.utmp == Apply(old(db.utmp), es[0].record)
                && db.wtmp == old(db.wtmp) + if shell && es[0].written then [es[0].record] else []
    {
      if name == None || name.value == "" {
        return [];
      }
      cmdPid := pid;
      loginShell := shell;
      ghost var e := db.LogSession(true, name.value, pid, shell, host, w, serial);
      es := [e];
    }

    /** The destructor: a session that was logged in is logged out, then everything is given back. Without a name for
        the session it reads through a null pointer, and all bets are off. */
    method Destroy(p: Process, db: Db, w: Wtmp) returns (crashed: bool, ghost es: seq<Entry>)
      requires Owned(p) && db.torn == 0
      modifies this, p, db
      ensures crashed <==> old(Nameless())
      ensures !crashed ==> p.Valid() && p.fds == old(p.fds) - {old(pty), old(tty)}
      ensures !crashed ==> db.torn == 0 && db.trace == old(db.trace) + es
      ensures old(cmdPid) == 0 ==> es == [] && db.utmp == old(db.utmp) && db.wtmp == old(db.wtmp)
      ensures old(cmdPid) != 0 && !crashed ==>
                && |es| == 1 && old(name).Some?
                && es[0] == Entry(serial, Fill(db.site, false, old(cmdPid), SkipDev(old(name).value), ""),
                                  old(loginShell), es[0].written)
                && NamesDevice(es[0].record, old(name).value, db.site.sizes)
                && (es[0].written <==> old(loginShell) && db.site.wtmpSupport && Takes(w, db.site))
                && db.utmp == Apply(old(db.utmp), es[0].record)
                && db.wtmp == old(db.wtmp) + if old(loginShell) && es[0].written then [es[0].record] else []
    {
      crashed, es := false, [];
      if cmdPid != 0 {
        if name == None {
          return true, [];
        }
        ghost var e := db.LogSession(false, name.value, cmdPid, loginShell, "", w, serial);
        es := [e];
      }
      Put(p);
    }
  }

  /** A second get, with the multiplexer: the master of the first stays open and nobody has it, and the object is left with
      the master of the second pty and the slave of the first. */
  method SecondGet(p: Process, w: World, w': World) returns (o: PtyttyUnix, ghost lost: int)
    requires p.Valid() && Works(Unix98, w, false) && Works(Unix98, w', true) && w.slave != w'.slave
    modifies p
    ensures o.Owned(p) && o.pty >= 0 && o.tty >= 0
    ensures Paired(p.fds[o.pty], w'.slave) && o.name == Some(w'.slave) && p.fds[o.tty] == Device(w.slave)
    ensures lost in p.fds && Paired(p.fds[lost], w.slave) && lost !in old(p.fds) && lost != o.pty && lost != o.tty
  {
    o := new PtyttyUnix(0);
    var first := o.Get(Unix98, p, w);
    lost := o.pty;
    var second := o.Get(Unix98, p, w');
  }

  /** How the destructor comes to crash: a get, a login, the slave closed, and a second get whose slave does not open. */
  method NamelessInstance(p: Process, db: Db, w: World, w': World, pid: int, t: Wtmp) returns (crashed: bool)
    requires p.Valid() && db.torn == 0 && pid != 0 && w.slave != ""
    requires Works(Unix98, w, false) && Slave(Unix98, w').Some? && !Works(Unix98, w', false)
    modifies p, db
    ensures crashed
  {
    var o := new PtyttyUnix(0);
    var ok := o.Get(Unix98, p, w);
    ghost var es := o.Login(db, pid, true, "", t);
    o.CloseTty(p);
    ok := o.Get(Unix98, p, w');
    crashed, es := o.Destroy(p, db, t);
  }
}
