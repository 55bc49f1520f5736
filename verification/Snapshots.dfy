/** The helper and its part of the system as one value, what each command does to it, and what every command keeps. */
module Snapshots {
  import opened Accounts
  import opened Descriptors
  import opened Ledgers
  import opened Os
  import opened Ptytty
  import opened Registry
  import opened Session
  import opened Wrappers

  /** What the helper found when it started. */
  datatype Start = Start(sockets: map<int, File>, utmp: map<string, Record>, wtmp: seq<Record>, site: Site)

  datatype Snapshot = Snapshot(objects: Objects, fds: map<int, File>, trace: seq<Entry>, utmp: map<string, Record>,
                               wtmp: seq<Record>, born: nat, deleted: seq<nat>, ledger: Ledger)

  /** The objects, the descriptors, the session files and the ledger fit together. */
  ghost predicate Consistent(s: Snapshot, t: Start) {
    && DescriptorsOk(s.objects, s.fds, t.sockets)
    && SessionsOk(s.objects, s.trace, t.site.sizes, s.born, s.deleted)
    && s.utmp == ApplyAll(t.utmp, s.trace)
    && s.wtmp == t.wtmp + Appended(s.trace)
    && SameAccounts(s.ledger.accounts, s.objects)
    && Written(s.trace, s.ledger.calls, t.site)
  }

  // ----- one command -----

  /** The state after log_session has been called for the entries es, at most once. */
  function Logged(s: Snapshot, es: seq<Entry>): Snapshot
    requires |es| <= 1
  {
    if es == [] then s
    else
      s.(trace := s.trace + es, utmp := Apply(s.utmp, es[0].record),
         wtmp := s.wtmp + if es[0].shell && es[0].written then [es[0].record] else [])
  }

  lemma AppendedMore(trace: seq<Entry>, e: Entry)
    ensures Appended(trace + [e]) == Appended(trace) + if e.shell && e.written then [e.record] else []
  {
    assert (trace + [e])[..|trace|] == trace;
  }

  lemma LoggedFiles(s: Snapshot, es: seq<Entry>, t: Start)
    requires |es| <= 1 && s.utmp == ApplyAll(t.utmp, s.trace) && s.wtmp == t.wtmp + Appended(s.trace)
    ensures Logged(s, es).utmp == ApplyAll(t.utmp, s.trace + es)
    ensures Logged(s, es).wtmp == t.wtmp + Appended(s.trace + es)
    ensures Logged(s, es).trace == s.trace + es
  {
    hide Apply, ApplyAll, Appended;
    if es == [] {
      assert s.trace + es == s.trace;
    } else {
      assert es == [es[0]];
      ApplyStep(t.utmp, s.trace, es[0]);
      AppendedMore(s.trace, es[0]);
    }
  }

  /** A get that worked: one more object, with one more descriptor. */
  function AfterGet(s: Snapshot, id: Address, o: Fields, file: File): Snapshot
    requires o.name.Some?
  {
    s.(objects := s.objects[id := o], fds := s.fds[o.pty := file], born := s.born + 1,
       ledger := Opened(s.ledger, id, o.serial, o.name.value))
  }

  function AfterFailedGet(s: Snapshot): Snapshot {
    s.(born := s.born + 1, deleted := s.deleted + [s.born])
  }

  function AfterLogin(s: Snapshot, id: Address, pid: int, shell: bool, host: string, taken: bool, e: Entry): Snapshot
    requires id in s.objects
  {
    Logged(s, [e]).(objects := s.objects[id := s.objects[id].(cmdPid := pid, loginShell := shell)],
                    ledger := LoggedIn(s.ledger, id, pid, shell, host, taken))
  }

  function AfterDelete(s: Snapshot, id: Address, taken: bool, es: seq<Entry>): Snapshot
    requires id in s.objects && |es| <= 1
  {
    Logged(s, es).(objects := s.objects - {id}, fds := s.fds - {s.objects[id].pty, -1},
                   deleted := s.deleted + [s.objects[id].serial], ledger := Closed(s.ledger, id, taken))
  }

  /** The one entry that a login of the object writes. */
  predicate LoginEntry(e: Entry, o: Fields, pid: int, shell: bool, host: string, taken: bool, site: Site) {
    o.name.Some? && Records(e, Call(o.serial, true, o.name.value, pid, shell, StrNCpy(host, HOST_MAX), taken), site)
  }

  /** The host of a login is as much of the name as fits the command, 511 characters, and the record. */
  lemma LoginHost(e: Entry, o: Fields, pid: int, shell: bool, host: string, taken: bool, site: Site)
    requires LoginEntry(e, o, pid, shell, host, taken, site)
    ensures e.record.host <= host && |e.record.host| == Min(Min(|host|, 511), site.sizes.host)
  {
    hide SkipDev, FillId;
  }

  /** The entries that deleting the object writes: a logout, or none. */
  predicate LogoutEntries(es: seq<Entry>, o: Fields, taken: bool, site: Site) {
    if o.cmdPid == 0 then es == []
    else
      && |es| == 1 && o.name.Some?
      && Records(es[0], Call(o.serial, false, o.name.value, o.cmdPid, o.loginShell, "", taken), site)
  }

  /** One more object, for a descriptor that was opened just before. */
  lemma GetKeeps(s: Snapshot, t: Start, id: Address, o: Fields, file: File)
    requires Consistent(s, t) && id !in s.objects
    requires o.serial == s.born && o.cmdPid == 0
    requires o.pty >= 0 && o.pty !in s.fds && o.tty == -1 && o.name.Some? && Paired(file, o.name.value)
    ensures Consistent(AfterGet(s, id, o, file), t)
  {
    hide DescriptorsOk, SessionsOk, Paired, ApplyAll, Appended, Written;
    DescriptorsOpened(s.objects, s.fds, t.sockets, id, o, file);
    SessionsBorn(s.objects, s.trace, t.site.sizes, s.born, s.deleted, id, o);
  }

  lemma FailedGetKeeps(s: Snapshot, t: Start)
    requires Consistent(s, t)
    ensures Consistent(AfterFailedGet(s), t)
  {
    hide DescriptorsOk, SessionsOk, ApplyAll, Appended, Written, SameAccounts;
    SessionsStillborn(s.objects, s.trace, t.site.sizes, s.born, s.deleted);
  }

  lemma LoginKeeps(s: Snapshot, t: Start, id: Address, pid: int, shell: bool, host: string, taken: bool, e: Entry)
    requires Consistent(s, t) && id in s.objects && s.objects[id].name != Some("")
    requires LoginEntry(e, s.objects[id], pid, shell, host, taken, t.site)
    ensures Consistent(AfterLogin(s, id, pid, shell, host, taken, e), t)
  {
    var o := s.objects[id].(cmdPid := pid, loginShell := shell);
    LoginTracks(e, s.objects[id], pid, shell, host, taken, t.site);
    LedgerLogin(s.ledger, s.objects, s.trace, t.site, id, pid, shell, host, taken, e);
    hide DescriptorsOk, SessionsOk, Tracks, Apply, ApplyAll, Appended, Written, SameAccounts, LoginEntry, LoggedIn;
    DescriptorsSame(s.objects, s.fds, t.sockets, id, o);
    SessionsLogin(s.objects, s.trace, t.site.sizes, s.born, s.deleted, id, o, e);
    LoggedFiles(s, [e], t);
  }

  lemma LoginTracks(e: Entry, o: Fields, pid: int, shell: bool, host: string, taken: bool, site: Site)
    requires LoginEntry(e, o, pid, shell, host, taken, site)
    ensures e.serial == o.serial && Tracks([e], site.sizes, o.(cmdPid := pid, loginShell := shell))
  {
    hide StrNCpy, FillId, SkipDev;
  }

  lemma LedgerLogin(l: Ledger, v: Objects, trace: seq<Entry>, site: Site, id: Address, pid: int, shell: bool,
                    host: string, taken: bool, e: Entry)
    requires SameAccounts(l.accounts, v) && Written(trace, l.calls, site) && id in v && v[id].name != Some("")
    requires LoginEntry(e, v[id], pid, shell, host, taken, site)
    ensures var m := LoggedIn(l, id, pid, shell, host, taken);
            && SameAccounts(m.accounts, v[id := v[id].(cmdPid := pid, loginShell := shell)])
            && Written(trace + [e], m.calls, site)
  {
    hide Records, StrNCpy;
    var a := l.accounts[id];
    assert Matches(a, v[id]);
    var c := Call(a.serial, true, a.name, pid, shell, StrNCpy(host, HOST_MAX), taken);
    WrittenMore(trace, l.calls, [e], [c], site);
  }

  lemma DeleteKeeps(s: Snapshot, t: Start, id: Address, taken: bool, es: seq<Entry>)
    requires Consistent(s, t) && id in s.objects && LogoutEntries(es, s.objects[id], taken, t.site)
    ensures Consistent(AfterDelete(s, id, taken, es), t)
  {
    LogsOutIt(es, s.objects[id], taken, t.site);
    LedgerDelete(s.ledger, s.objects, s.trace, t.site, id, taken, es);
    hide DescriptorsOk, SessionsOk, LogsOut, Apply, ApplyAll, Appended, Written, SameAccounts, LogoutEntries, Closed;
    DescriptorsClosed(s.objects, s.fds, t.sockets, id);
    SessionsDeleted(s.objects, s.trace, t.site.sizes, s.born, s.deleted, id, es);
    LoggedFiles(s, es, t);
  }

  lemma LogsOutIt(es: seq<Entry>, o: Fields, taken: bool, site: Site)
    requires LogoutEntries(es, o, taken, site)
    ensures if o.cmdPid == 0 then es == [] else |es| == 1 && LogsOut(es[0], site.sizes, o)
  {
    hide StrNCpy, FillId, SkipDev;
  }

  lemma LedgerDelete(l: Ledger, v: Objects, trace: seq<Entry>, site: Site, id: Address, taken: bool,
                     es: seq<Entry>)
    requires SameAccounts(l.accounts, v) && Written(trace, l.calls, site) && id in v
    requires LogoutEntries(es, v[id], taken, site)
    ensures var m := Closed(l, id, taken);
            SameAccounts(m.accounts, v - {id}) && Written(trace + es, m.calls, site)
  {
    hide Records;
    assert Matches(l.accounts[id], v[id]);
    WrittenMore(trace, l.calls, es, Farewell(l.accounts[id], taken), site);
  }

  // ----- at the end -----

  /** When no object is left: only the sockets are open, and every object ever made was deleted once, with its sessions
      closed. */
  lemma AtEnd(s: Snapshot, t: Start)
    requires Consistent(s, t) && s.objects == map[]
    ensures forall fd :: fd in s.fds <==> fd in t.sockets
    ensures forall fd :: fd in t.sockets ==> s.fds[fd] == t.sockets[fd]
    ensures NoDuplicates(s.deleted)
    ensures forall k :: k in s.deleted <==> 0 <= k < s.born
    ensures forall k :: 0 <= k < s.born ==> Balanced(Of(s.trace, k))
    ensures s.utmp == ApplyAll(t.utmp, s.trace) && s.wtmp == t.wtmp + Appended(s.trace)
    ensures Written(s.trace, s.ledger.calls, t.site)
    ensures DeadRecords(Appended(s.trace)) == ShellsLoggedOut(s.trace, s.born)
    ensures t.site.wtmpSupport && AllTaken(s.ledger.calls) ==>
              DeadRecords(Appended(s.trace)) == ShellLogouts(s.trace, s.born)
  {
    hide Of, Balanced, ApplyAll, Appended, Written, AllTaken, DeadRecords;
    assert forall k :: 0 <= k < s.born ==> k in s.deleted;
    DeadInAll(s.trace, s.born);
    if t.site.wtmpSupport && AllTaken(s.ledger.calls) {
      DeadWhenTaken(s.trace, s.ledger.calls, t.site, s.born);
    }
  }

  // ----- what a command may do -----

  /** Executing a login command. */
  ghost predicate LoginEffect(ptys: seq<Address>, s: Snapshot, s': Snapshot, r: Request, taken: bool, t: Start)
    requires r.Login?
  {
    if r.id in ptys && r.id in s.objects && s.objects[r.id].name != Some("") then
      exists e :: && LoginEntry(e, s.objects[r.id], r.pid, r.shell, r.host, taken, t.site)
                  && s' == AfterLogin(s, r.id, r.pid, r.shell, r.host, taken, e)
    else s' == s
  }

  /** Deleting the object at an address. */
  ghost predicate DeleteEffect(s: Snapshot, s': Snapshot, id: Address, taken: bool, t: Start) {
    && id in s.objects
    && exists es :: |es| <= 1 && LogoutEntries(es, s.objects[id], taken, t.site) && s' == AfterDelete(s, id, taken, es)
  }

  /** An object with a master of its own, just made by get. */
  predicate NewObject(s: Snapshot, o: Fields, file: File) {
    && o.serial == s.born && o.cmdPid == 0 && o.tty == -1
    && o.pty >= 0 && o.pty !in s.fds && o.name.Some? && Paired(file, o.name.value)
  }

  ghost predicate GetEffect(s: Snapshot, s': Snapshot, id: Address, r: seq<Reply>) {
    exists o, file :: NewObject(s, o, file) && s' == AfterGet(s, id, o, file) && r == Handover(id, o, file)
  }

  /** The answer to a get: the address, the master and the slave. */
  function Handover(id: Address, o: Fields, file: File): seq<Reply> {
    [Reply.Id(id), Descriptor(file), Descriptor(Device(if o.name.Some? then o.name.value else ""))]
  }

  /** What one executed command does, and what the client is answered. */
  ghost predicate CommandEffect(ptys: seq<Address>, s: Snapshot, s': Snapshot, q: Request, o: Outcome, r: seq<Reply>,
                                taken: bool, t: Start)
  {
    match (q, o)
    case (Get, Created(id, k)) => k == s.born && GetEffect(s, s', id, r)
    case (Get, _) => s' == AfterFailedGet(s) && r == [Reply.Id(0)]
    case (Login(_, _, _, _), _) => LoginEffect(ptys, s, s', q, taken, t) && r == []
    case (Destroy(id), _) => (if id in ptys then DeleteEffect(s, s', id, taken, t) else s' == s) && r == []
  }

  /** Deleting an object that is there, with whatever its state demands, keeps everything consistent. */
  lemma DeleteEffectKeeps(s: Snapshot, s': Snapshot, id: Address, taken: bool, t: Start)
    requires Consistent(s, t) && DeleteEffect(s, s', id, taken, t)
    ensures Consistent(s', t)
  {
    hide Consistent, LogoutEntries;
    var es :| |es| <= 1 && LogoutEntries(es, s.objects[id], taken, t.site) && s' == AfterDelete(s, id, taken, es);
    DeleteKeeps(s, t, id, taken, es);
  }

  lemma DeleteEffectBooks(s: Snapshot, s': Snapshot, id: Address, taken: bool, t: Start)
    requires DeleteEffect(s, s', id, taken, t)
    ensures s'.ledger == Closed(s.ledger, id, taken)
  {
    hide LogoutEntries, Apply, Closed;
  }

  /** Every command keeps descriptors, sessions and session files consistent. */
  lemma CommandKeeps(ptys: seq<Address>, s: Snapshot, s': Snapshot, q: Request, o: Outcome, r: seq<Reply>, taken: bool,
                     t: Start)
    requires Consistent(s, t) && CommandEffect(ptys, s, s', q, o, r, taken, t)
    requires q.Get? && o.Created? ==> o.id !in s.objects
    ensures Consistent(s', t)
  {
    hide Consistent, LoginEntry, DeleteEffect, Paired;
    match (q, o)
    case (Get, Created(id, k)) =>
      var x, file :| NewObject(s, x, file) && s' == AfterGet(s, id, x, file) && r == Handover(id, x, file);
      GetKeeps(s, t, id, x, file);
    case (Get, _) => FailedGetKeeps(s, t);
    case (Login(id, pid, shell, host), _) =>
      if id in ptys && id in s.objects && s.objects[id].name != Some("") {
        var e :| LoginEntry(e, s.objects[id], pid, shell, host, taken, t.site)
                 && s' == AfterLogin(s, id, pid, shell, host, taken, e);
        LoginKeeps(s, t, id, pid, shell, host, taken, e);
      }
    case (Destroy(id), _) =>
      if id in ptys {
        DeleteEffectKeeps(s, s', id, taken, t);
      }
  }

  /** Where the ledger has nothing to book for a login or a destroy, the helper has nothing to do. */
  lemma NothingToBook(s: Snapshot, t: Start, id: Address, pid: int, shell: bool, host: string, taken: bool)
    requires Consistent(s, t)
    ensures id !in s.objects || s.objects[id].name == Some("") ==>
              LoggedIn(s.ledger, id, pid, shell, host, taken) == s.ledger
    ensures id !in s.objects ==> Closed(s.ledger, id, taken) == s.ledger
  {
    hide DescriptorsOk, SessionsOk, Written, ApplyAll, Appended;
    if id in s.objects {
      assert Matches(s.ledger.accounts[id], s.objects[id]);
    }
  }

  /** Every command books what the ledger asks for. */
  lemma CommandBooks(ptys: seq<Address>, s: Snapshot, s': Snapshot, e: Event, r: seq<Reply>, taken: bool, t: Start)
    requires Consistent(s, t) && CommandEffect(ptys, s, s', e.request, e.outcome, r, taken, t)
    requires forall id :: !e.request.Get? ==> (id in ptys <==> id in s.objects)
    ensures s'.ledger == Book(s.ledger, e, r, taken)
  {
    hide Consistent, LoginEntry, DeleteEffect, Paired, LoggedIn, Closed;
    match (e.request, e.outcome)
    case (Get, Created(id, k)) =>
    case (Get, _) =>
    case (Login(id, pid, shell, host), _) => NothingToBook(s, t, id, pid, shell, host, taken);
    case (Destroy(id), _) =>
      NothingToBook(s, t, id, 0, false, "", taken);
      if id in ptys {
        DeleteEffectBooks(s, s', id, taken, t);
      }
  }

  /** What a command adds to the objects deleted. */
  lemma CommandDeletes(ptys: seq<Address>, s: Snapshot, s': Snapshot, q: Request, o: Outcome, r: seq<Reply>, taken: bool,
                       t: Start)
    requires CommandEffect(ptys, s, s', q, o, r, taken, t)
    ensures match q
            case Get => if o.Created? then s'.deleted == s.deleted else s'.deleted == s.deleted + [s.born]
            case Login(_, _, _, _) => s'.deleted == s.deleted
            case Destroy(id) =>
              if id in ptys then id in s.objects && s'.deleted == s.deleted + [s.objects[id].serial]
              else s'.deleted == s.deleted
  {
    hide Apply, LoginEntry, LogoutEntries, LoggedIn, Closed, Paired;
  }

  // ----- the registry -----

  /** The registry is duplicate-free, holds exactly the live objects, and is what the commands so far amount to. */
  ghost predicate RegistryOk(ptys: seq<Address>, live: set<Address>, history: seq<Event>) {
    NoDuplicates(ptys) && Elements(ptys) == live && ptys == Replay(history)
  }

  lemma RegistryCreated(ptys: seq<Address>, live: set<Address>, history: seq<Event>, client: ProxyId, id: Address,
                        serial: nat)
    requires RegistryOk(ptys, live, history) && id !in live
    ensures RegistryOk(ptys + [id], live + {id}, history + [Event(client, Get, Created(id, serial))])
  {
    PushKeeps(ptys, id);
    ReplayStep(history, Event(client, Get, Created(id, serial)));
  }

  /** A failed get, a login and a command naming an unknown id leave the registry alone. */
  lemma RegistrySame(ptys: seq<Address>, live: set<Address>, history: seq<Event>, e: Event)
    requires RegistryOk(ptys, live, history)
    requires (e.request.Get? && e.outcome.Failed?) || e.request.Login? || (e.request.Destroy? && e.request.id !in live)
    ensures RegistryOk(ptys, live, history + [e])
  {
    ReplayStep(history, e);
  }

  lemma RegistryErased(ptys: seq<Address>, live: set<Address>, history: seq<Event>, client: ProxyId, id: Address)
    requires RegistryOk(ptys, live, history)
    ensures RegistryOk(Remove(ptys, id), live - {id}, history + [Event(client, Destroy(id), Done)])
  {
    RemoveKeeps(ptys, id);
    ReplayStep(history, Event(client, Destroy(id), Done));
  }

  /** What a client reads back: for a get the address and then a master and the slave that belongs to it, or the null
      address; for the other commands nothing. */
  predicate ReplyOk(e: Event, r: seq<Reply>) {
    match (e.request, e.outcome)
    case (Get, Created(id, _)) =>
      && |r| == 3 && id != 0 && r[0] == Reply.Id(id) && r[1].Descriptor?
      && r[2].Descriptor? && r[2].file.Device? && Paired(r[1].file, r[2].file.path)
    case (Get, Failed) => r == [Reply.Id(0)]
    case (Get, Done) => false
    case (_, Done) => r == []
    case _ => false
  }

  lemma LastElement(ptys: seq<Address>, i: nat)
    requires NoDuplicates(ptys) && i < |ptys|
    ensures ptys[i] in Elements(ptys[..i + 1])
    ensures Elements(ptys[..i + 1]) - {ptys[i]} == Elements(ptys[..i])
  {
    assert ptys[..i + 1] == ptys[..i] + [ptys[i]];
  }

  lemma NoElements(ptys: seq<Address>)
    requires ptys == []
    ensures Elements(ptys) == {}
  {
  }
}
