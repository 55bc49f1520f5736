/** The session database as src/logging.C changes it: the utmp table, keyed by ut_id, and the wtmp file. */
module Session {

  datatype Kind = UserProcess | DeadProcess

  datatype Record = Record(line: string, id: string, pid: int, kind: Kind, user: string, host: string)

  /** The field widths of struct utmp or utmpx. */
  datatype Sizes = Sizes(line: nat, id: nat, user: nat, host: nat, record: nat)

  /** What the session functions find on a system: field widths, whether records are utmpx (wide), whether there is a
      wtmp, and the name getpwuid gives, or "?". */
  datatype Site = Site(sizes: Sizes, wide: bool, wtmpSupport: bool, user: string)

  function Min(a: nat, b: nat): nat {
    if a <= b then a else b
  }

  /** strncpy into a zeroed field of the given size. */
  function StrNCpy(s: string, size: nat): (r: string)
    ensures r <= s && |r| == Min(|s|, size)
  {
    if |s| <= size then s else s[..size]
  }

  /** fill_id: the last size characters of the line. */
  function FillId(line: string, size: nat): (r: string)
    ensures |r| == Min(|line|, size)
    ensures r == line[|line| - |r|..]
  {
    if |line| > size then StrNCpy(line[|line| - size..], size) else StrNCpy(line, size)
  }

  /** Two lines share an id exactly if they are equal, or both are at least as long as the field and end alike. */
  lemma FillIdCollides(a: string, b: string, size: nat)
    ensures FillId(a, size) == FillId(b, size) <==>
              a == b || (|a| >= size && |b| >= size && a[|a| - size..] == b[|b| - size..])
  {
  }

  /** Two ptys with one id: logging the second in takes the entry of the first away, and then the logout of the first
      changes nothing. */
  lemma CollisionInstance(site: Site, utmp: map<string, Record>, pid: int, pid': int)
    requires pid != pid' && site.sizes.id == 4 && site.sizes.line == 32
    ensures var a, b := Fill(site, true, pid, "pts/12345", ""), Fill(site, true, pid', "pts/22345", "");
            var out := Fill(site, false, pid, "pts/12345", "");
            var t := Apply(Apply(utmp, a), b);
            && a.line != b.line && a.id == b.id == "2345" && t[a.id] == b && Apply(t, out) == t
  {
    assert FillId("pts/12345", 4) == "2345" == FillId("pts/22345", 4);
  }

  function SkipDev(name: string): string {
    if "/dev/" <= name then name[5..] else name
  }

  /** The record names this line: its beginning in the line field, its end in the id field. */
  predicate NamesLine(r: Record, line: string, z: Sizes) {
    && r.line <= line && |r.line| == Min(|line|, z.line)
    && |r.id| == Min(|line|, z.id) && r.id == line[|line| - |r.id|..]
  }

  /** The record names this device: by what follows "/dev/", or by its whole name if that does not begin so. */
  ghost predicate NamesDevice(r: Record, name: string, z: Sizes) {
    && (forall t: string :: name == "/dev/" + t ==> NamesLine(r, t, z))
    && (!("/dev/" <= name) ==> NamesLine(r, name, z))
  }

  lemma FillNamesDevice(site: Site, login: bool, pid: int, name: string, host: string)
    ensures NamesDevice(Fill(site, login, pid, SkipDev(name), host), name, site.sizes)
  {
    hide Fill;
    forall t: string | name == "/dev/" + t ensures SkipDev(name) == t {
      assert name[5..] == t;
    }
  }

  /** fill_utmp, or on a wide site fill_utmpx: only the latter names the user in a logout record. */
  function Fill(site: Site, login: bool, pid: int, line: string, host: string): (r: Record)
    ensures r.pid == pid && (r.kind.UserProcess? <==> login)
    ensures r.line <= line && |r.line| == Min(|line|, site.sizes.line)
    ensures |r.id| == Min(|line|, site.sizes.id) && r.id == line[|line| - |r.id|..]
    ensures if login || site.wide then r.user <= site.user && |r.user| == Min(|site.user|, site.sizes.user)
            else r.user == ""
    ensures if login then r.host <= host && |r.host| == Min(|host|, site.sizes.host) else r.host == ""
  {
    Record(StrNCpy(line, site.sizes.line), FillId(line, site.sizes.id), pid, if login then UserProcess else DeadProcess,
           if login || site.wide then StrNCpy(site.user, site.sizes.user) else "",
           if login then StrNCpy(host, site.sizes.host) else "")
  }

  /** One call of log_session: the object it was for, the record, the login_shell flag, and whether wtmp took it. */
  datatype Entry = Entry(serial: nat, record: Record, shell: bool, written: bool)

  /** What one record does to the table: a login replaces the entry of its id; a logout does so only if that entry still
      carries the pid. */
  function Apply(utmp: map<string, Record>, r: Record): map<string, Record> {
    if r.kind.UserProcess? || (r.id in utmp && utmp[r.id].pid == r.pid) then utmp[r.id := r] else utmp
  }

  /** One record changes the entry of its own id and no other. */
  lemma ApplyOwnOnly(utmp: map<string, Record>, r: Record)
    ensures var t := Apply(utmp, r);
            && (forall id :: id != r.id ==> (id in t <==> id in utmp) && (id in t ==> t[id] == utmp[id]))
            && (r.kind.UserProcess? ==> r.id in t && t[r.id] == r)
            && (r.kind.DeadProcess? ==>
                  if r.id in utmp && utmp[r.id].pid == r.pid then r.id in t && t[r.id] == r else t == utmp)
  {
  }

  /** An id that no record of a trace has keeps the entry it had, or none. */
  lemma {:induction false} ApplyAllOwnOnly(utmp: map<string, Record>, trace: seq<Entry>, id: string)
    requires forall i :: 0 <= i < |trace| ==> trace[i].record.id != id
    ensures var t := ApplyAll(utmp, trace); (id in t <==> id in utmp) && (id in t ==> t[id] == utmp[id])
  {
    if trace == [] {
    } else {
      var n := |trace| - 1;
      ApplyAllOwnOnly(utmp, trace[..n], id);
      ApplyOwnOnly(ApplyAll(utmp, trace[..n]), trace[n].record);
    }
  }

  function ApplyAll(utmp: map<string, Record>, trace: seq<Entry>): map<string, Record> {
    if trace == [] then utmp
    else Apply(ApplyAll(utmp, trace[..|trace| - 1]), trace[|trace| - 1].record)
  }

  lemma ApplyStep(utmp: map<string, Record>, trace: seq<Entry>, e: Entry)
    ensures ApplyAll(utmp, trace + [e]) == Apply(ApplyAll(utmp, trace), e.record)
  {
    assert (trace + [e])[..|trace|] == trace;
  }

  /** A login whose id no later login takes over stays in the table through any number of logouts of other sessions,
      even of ones that share its id. */
  lemma {:induction false} LoginSurvives(utmp: map<string, Record>, before: seq<Entry>, e: Entry, after: seq<Entry>)
    requires e.record.kind.UserProcess?
    requires forall i :: 0 <= i < |after| && after[i].record.id == e.record.id ==>
               after[i].record.kind.DeadProcess? && after[i].record.pid != e.record.pid
    ensures var t := ApplyAll(utmp, before + [e] + after);
            e.record.id in t && t[e.record.id] == e.record
  {
    if after == [] {
      assert before + [e] + after == before + [e];
      ApplyStep(utmp, before, e);
    } else {
      var n := |after| - 1;
      LoginSurvives(utmp, before, e, after[..n]);
      assert before + [e] + after == before + [e] + after[..n] + [after[n]];
      ApplyStep(utmp, before + [e] + after[..n], after[n]);
    }
  }

  /** The table after a login e and the first n entries that follow it. */
  function After(utmp: map<string, Record>, e: Entry, later: seq<Entry>, n: nat): map<string, Record>
    requires n <= |later|
  {
    if n == 0 then Apply(utmp, e.record) else Apply(After(utmp, e, later, n - 1), later[n - 1].record)
  }

  lemma {:induction false} AfterIs(utmp: map<string, Record>, before: seq<Entry>, e: Entry, later: seq<Entry>, n: nat)
    requires n <= |later|
    ensures After(ApplyAll(utmp, before), e, later, n) == ApplyAll(utmp, before + [e] + later[..n])
  {
    if n == 0 {
      assert before + [e] + later[..0] == before + [e];
      ApplyStep(utmp, before, e);
    } else {
      AfterIs(utmp, before, e, later, n - 1);
      assert before + [e] + later[..n] == before + [e] + later[..n - 1] + [later[n - 1]];
      ApplyStep(utmp, before + [e] + later[..n - 1], later[n - 1]);
    }
  }

  predicate Stands(utmp: map<string, Record>, r: Record) {
    r.id in utmp && utmp[r.id] == r
  }

  predicate Spares(r: Record, later: Record) {
    later.id == r.id ==> later == r || (later.kind.DeadProcess? && later.pid != r.pid)
  }

  /** The entry of the login stands after each of the first n later entries. */
  predicate StandsThroughout(utmp: map<string, Record>, e: Entry, later: seq<Entry>, n: nat)
    requires n <= |later|
  {
    Stands(After(utmp, e, later, n), e.record) && (n > 0 ==> StandsThroughout(utmp, e, later, n - 1))
  }

  /** It does so exactly if each of them that has its id repeats it or is a logout of another pid. */
  lemma {:induction false} SurvivesExactly(utmp: map<string, Record>, e: Entry, later: seq<Entry>, n: nat)
    requires e.record.kind.UserProcess? && n <= |later|
    ensures StandsThroughout(utmp, e, later, n) <==> forall i :: 0 <= i < n ==> Spares(e.record, later[i].record)
  {
    if n == 0 {
      assert Stands(After(utmp, e, later, 0), e.record);
    } else {
      SurvivesExactly(utmp, e, later, n - 1);
      assert Stands(After(utmp, e, later, n - 1), e.record) ==>
          (Stands(After(utmp, e, later, n), e.record) <==> Spares(e.record, later[n - 1].record));
    }
  }

  /** Logging a session in and out again leaves its own DEAD record, if nobody took the id over in between. */
  lemma LogoutCloses(utmp: map<string, Record>, before: seq<Entry>, e: Entry, after: seq<Entry>, x: Entry)
    requires e.record.kind.UserProcess? && x.record.kind.DeadProcess?
    requires x.record.id == e.record.id && x.record.pid == e.record.pid
    requires forall i :: 0 <= i < |after| && after[i].record.id == e.record.id ==>
               after[i].record.kind.DeadProcess? && after[i].record.pid != e.record.pid
    ensures var t := ApplyAll(utmp, before + [e] + after + [x]);
            x.record.id in t && t[x.record.id] == x.record
  {
    LoginSurvives(utmp, before, e, after);
    ApplyStep(utmp, before + [e] + after, x);
  }

  /** The wtmp records a trace leaves behind. */
  function Appended(trace: seq<Entry>): seq<Record> {
    if trace == [] then []
    else
      var e := trace[|trace| - 1];
      Appended(trace[..|trace| - 1]) + if e.shell && e.written then [e.record] else []
  }

  /** What one fcntl for the lock answers: EAGAIN and EACCES are worth another attempt. */
  datatype Attempt = Locked | Busy | Refused

  /** What the system would answer while wtmp is updated: open, each attempt at the lock, fstat, and write. */
  datatype Wtmp = Wtmp(opens: bool, attempts: nat -> Attempt, statOk: bool, wrote: int)

  /** The lock is had within ten attempts, every one before the last being worth another. */
  ghost predicate LockedInTime(w: Wtmp) {
    exists i: nat :: i < 10 && w.attempts(i).Locked? && forall j :: 0 <= j < i ==> w.attempts(j).Busy?
  }

  /** After a row of attempts worth another, a lock is had in time if it comes at the tenth at the latest; ten in vain or
      a hopeless error leave none. */
  lemma TenAttempts(w: Wtmp, k: nat)
    requires forall j: nat :: j < k ==> w.attempts(j).Busy?
    ensures w.attempts(k).Locked? ==> (LockedInTime(w) <==> k < 10)
    ensures w.attempts(k).Refused? ==> !LockedInTime(w)
    ensures k >= 10 ==> !LockedInTime(w)
  {
    if i: nat :| i < 10 && w.attempts(i).Locked? && forall j :: 0 <= j < i ==> w.attempts(j).Busy? {
      assert i >= k;
      assert k < i ==> w.attempts(k).Busy?;
    }
  }

  /** The system takes the record. */
  ghost predicate Takes(w: Wtmp, site: Site) {
    w.opens && LockedInTime(w) && w.statOk && w.wrote == site.sizes.record
  }

  lemma LockDecided(w: Wtmp, attempts: nat, gotlock: bool, hopeless: bool)
    requires attempts <= 10 && (gotlock || hopeless || attempts == 10) && !(gotlock && hopeless) && attempts > 0
    requires forall j :: 0 <= j < attempts - 1 ==> w.attempts(j).Busy?
    requires w.attempts(attempts - 1) == if gotlock then Locked else if hopeless then Refused else Busy
    ensures gotlock <==> LockedInTime(w)
  {
    if gotlock {
      assert w.attempts(attempts - 1).Locked?;
    }
  }

  class Db {
    const site: Site
    var utmp: map<string, Record>
    var wtmp: seq<Record>
    var torn: nat           // bytes of an incomplete record at the end of wtmp
    ghost var trace: seq<Entry>

    constructor (site: Site, utmp: map<string, Record>, wtmp: seq<Record>)
      ensures this.site == site
      ensures this.utmp == utmp && this.wtmp == wtmp && torn == 0 && trace == []
    {
      this.site := site;
      this.utmp := utmp;
      this.wtmp := wtmp;
      torn := 0;
      trace := [];
    }

    /** updwtmp: at most ten attempts at the lock; then the whole record is appended, or a bad write is cut off again. */
    method UpdWtmp(r: Record, w: Wtmp) returns (written: bool, ghost attempts: nat)
      modifies this`wtmp, this`torn
      ensures torn == old(torn) && attempts <= 10
      ensures written <==> Takes(w, site)
      ensures wtmp == old(wtmp) + if written then [r] else []
    {
      written, attempts := false, 0;
      if !w.opens {
        return;
      }
      var retry := 10;
      var gotlock, hopeless := false, false;
      while retry > 0 && !gotlock && !hopeless
        invariant 0 <= retry <= 10 && attempts == 10 - retry && !(gotlock && hopeless)
        invariant gotlock || hopeless ==> attempts > 0
        invariant forall j :: 0 <= j < attempts - 1 ==> w.attempts(j).Busy?
        invariant attempts > 0 ==>
                    w.attempts(attempts - 1) == if gotlock then Locked else if hopeless then Refused else Busy
      {
        var answer := w.attempts(10 - retry);
        retry := retry - 1;
        attempts := attempts + 1;
        if answer.Locked? {
          gotlock := true;
        } else if !answer.Busy? {
          hopeless := true;
        }
      }
      assert gotlock <==> LockedInTime(w) by {
        LockDecided(w, attempts, gotlock, hopeless);
      }
      if gotlock {
        var size, tail := |wtmp|, torn; // fstat
        if w.statOk {
          if w.wrote == site.sizes.record {
            wtmp := wtmp + [r];
            written := true;
          } else {
            torn := torn + if w.wrote > 0 then w.wrote else 0;
            wtmp, torn := wtmp[..size], tail; // ftruncate to the size before
          }
        }
      }
    }

    /** ptytty_unix::log_session for the object with this serial. */
    method LogSession(login: bool, name: string, pid: int, shell: bool, host: string, w: Wtmp, ghost serial: nat)
      returns (ghost e: Entry)
      requires torn == 0
      modifies this
      ensures torn == 0 && trace == old(trace) + [e]
      ensures e == Entry(serial, Fill(site, login, pid, SkipDev(name), host), shell, e.written)
      ensures e.written <==> shell && site.wtmpSupport && Takes(w, site)
      ensures NamesDevice(e.record, name, site.sizes)
      ensures utmp == Apply(old(utmp), e.record)
      ensures wtmp == old(wtmp) + if shell && e.written then [e.record] else []
    {
      FillNamesDevice(site, login, pid, name, host);
      var r := Fill(site, login, pid, SkipDev(name), host);
      if login || (r.id in utmp && utmp[r.id].pid == pid) {
        utmp := utmp[r.id := r];
      }
      var written := false;
      if shell && site.wtmpSupport {
        ghost var attempts;
        written, attempts := UpdWtmp(r, w);
      }
      e := Entry(serial, r, shell, written);
      trace := trace + [e];
    }
  }
}
