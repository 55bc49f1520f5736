/** The helper process of src/proxy.C: the loop of serve over its registry, its descriptors and the session database. */
module Helper {
  import opened Accounts
  import opened Descriptors
  import opened Ledgers
  import opened Os
  import opened Ptytty
  import opened Registry
  import opened Session
  import opened Snapshots
  import opened Wrappers

  /** What the helper reads from the command socket, with what the system would answer meanwhile: to a get, and while wtmp
      is updated. */
  datatype Input = Command(client: ProxyId, request: Request, world: World, wtmp: Wtmp) | Unknown

  /** For each command, whether wtmp would take a record. */
  ghost function TakenIn(inputs: seq<Input>, site: Site): nat -> bool {
    (i: nat) => i < |inputs| && inputs[i].Command? && Takes(inputs[i].wtmp, site)
  }

  /** The same for the deletions of the sweep. */
  ghost function TakenAt(exit: nat -> Wtmp, site: Site): nat -> bool {
    (i: nat) => Takes(exit(i), site)
  }

  ghost function ValueOf(p: PtyttyUnix): Fields
    reads p
  {
    Fields(p.serial, p.pty, p.tty, p.name, p.cmdPid, p.loginShell)
  }

  ghost function ViewOf(heap: map<Address, PtyttyUnix>): Objects
    reads heap.Values
  {
    map a | a in heap :: ValueOf(heap[a])
  }

  /** The serials of the objects: their order of creation. */
  ghost function Ages(heap: map<Address, PtyttyUnix>): map<Address, nat> {
    map a | a in heap :: heap[a].serial
  }

  class Helper {
    const os: Process
    const db: Db
    const backend: Backend
    ghost const start: Start
    var ptys: seq<Address>
    var heap: map<Address, PtyttyUnix>
    ghost var born: nat
    ghost var deleted: seq<nat>
    ghost var history: seq<Event>
    ghost var ledger: Ledger

    constructor (os: Process, db: Db, backend: Backend)
      requires os.Valid() && db.torn == 0 && db.trace == []
      ensures Valid() && this.os == os && this.db == db && this.backend == backend
      ensures start == Start(os.fds, db.utmp, db.wtmp, db.site)
      ensures ptys == [] && heap == map[] && born == 0 && deleted == [] && history == [] && ledger == EMPTY
    {
      this.os := os;
      this.db := db;
      this.backend := backend;
      start := Start(os.fds, db.utmp, db.wtmp, db.site);
      ptys := [];
      heap := map[];
      born := 0;
      deleted := [];
      history := [];
      ledger := EMPTY;
    }

    /** The values of the objects on the heap. */
    ghost function View(): Objects
      reads this, heap.Values
    {
      ViewOf(heap)
    }

    ghost function Now(): Snapshot
      reads this, os, db, heap.Values
    {
      Snapshot(View(), os.fds, db.trace, db.utmp, db.wtmp, born, deleted, ledger)
    }

    ghost predicate HeapOk()
      reads this, os, db, heap.Values
    {
      && os.Valid() && db.torn == 0 && db.site == start.site && 0 !in heap
      && Consistent(Now(), start)
    }

    /** What holds at the head of the loop. */
    ghost predicate Valid()
      reads this, os, db, heap.Values
    {
      HeapOk() && RegistryOk(ptys, heap.Keys, history) && InOrder(ptys, Ages(heap))
    }

    /** delete of one object: its session is closed and its master, and nothing else, is given back. */
    method Discard(id: Address, w: Wtmp) returns (ghost es: seq<Entry>)
      requires os.Valid() && db.torn == 0 && id in heap && heap[id].Owned(os) && heap[id].tty == -1 && heap[id].name.Some?
      requires forall b :: b in heap && b != id ==> heap[b] != heap[id]
      modifies this`heap, this`deleted, this`ledger, os, db, heap[id]
      ensures os.Valid() && db.torn == 0 && heap == old(heap) - {id}
      ensures |es| <= 1 && LogoutEntries(es, old(View())[id], Takes(w, db.site), db.site)
      ensures Now() == AfterDelete(old(Now()), id, Takes(w, db.site), es)
    {
      hide Fill, Apply, Closed, Takes;
      ghost var v := View();
      var o := heap[id];
      assert v[id] == ValueOf(o);
      var crashed;
      crashed, es := o.Destroy(os, db, w);
      deleted := deleted + [o.serial];
      ledger := Closed(ledger, id, Takes(w, db.site));
      heap := heap - {id};
      assert View() == v - {id};
    }

    /** What HeapOk says of one object. */
    lemma Held(id: Address)
      requires HeapOk() && id in heap
      ensures heap[id].Owned(os) && heap[id].pty >= 0 && heap[id].tty == -1 && heap[id].name.Some?
      ensures forall b :: b in heap && b != id ==> heap[b] != heap[id]
    {
      hide TraceOk, ApplyAll, Appended, Paired, Written, SameAccounts;
      var v := View();
      assert HoldsMaster(v[id], os.fds, start.sockets);
      forall b | b in heap && b != id ensures heap[b] != heap[id] {
        assert v[b].serial != v[id].serial;
      }
    }

    /** delete: the object is gone from the heap, its master is closed, and its last login, if that had a pid, is logged
        out by one more entry. */
    method Delete(id: Address, w: Wtmp) returns (ghost es: seq<Entry>)
      requires HeapOk() && id in heap
      modifies this`heap, this`deleted, this`ledger, os, db, heap[id]
      ensures HeapOk() && heap == old(heap) - {id}
      ensures ledger == Closed(old(ledger), id, Takes(w, db.site)) && db.trace == old(db.trace) + es
      ensures deleted == old(deleted) + [old(heap)[id].serial]
      ensures |es| <= 1 && LogoutEntries(es, old(View())[id], Takes(w, db.site), db.site)
      ensures Now() == AfterDelete(old(Now()), id, Takes(w, db.site), es)
      ensures DeleteEffect(old(Now()), Now(), id, Takes(w, db.site), start)
    {
      hide Consistent, LogoutEntries, Closed, Takes, DeleteEffect;
      Held(id);
      ghost var was := Now();
      es := Discard(id, w);
      DeleteKeeps(was, start, id, Takes(w, db.site), es);
      DeleteHasEffect(was, Now(), id, es, Takes(w, db.site), start);
    }

    /** The get command up to its reply: a new object that holds a new master, or one that is deleted again. */
    method NewPty(world: World, w: Wtmp) returns (ok: bool, o: PtyttyUnix, replies: seq<Reply>, ghost master: File)
      requires os.Valid() && db.torn == 0
      modifies os, db
      ensures os.Valid() && db.torn == 0 && fresh(o) && o.serial == born && (ok <==> Works(backend, world, false))
      ensures db.trace == old(db.trace) && db.utmp == old(db.utmp) && db.wtmp == old(db.wtmp)
      ensures !ok ==> os.fds == old(os.fds) && replies == []
      ensures ok ==>
                && o.tty == -1 && o.cmdPid == 0 && o.pty >= 0 && o.pty !in old(os.fds)
                && os.fds == old(os.fds)[o.pty := master]
                && o.name.Some? && o.name == Slave(backend, world) && Paired(master, o.name.value)
                && replies == [Descriptor(master), Descriptor(Device(o.name.value))]
    {
      hide Paired, Slave, Works, Takes;
      o := new PtyttyUnix(born);
      ok := o.Get(backend, os, world);
      if ok {
        master := os.fds[o.pty];
        replies := [Descriptor(os.fds[o.pty]), Descriptor(os.fds[o.tty])];
        o.CloseTty(os);
        assert os.fds == old(os.fds)[o.pty := master];
      } else {
        replies := [];
        master := Device("");
        var crashed;
        ghost var es;
        crashed, es := o.Destroy(os, db, w);
        assert os.fds == old(os.fds);
      }
    }

    method Register(client: ProxyId, id: Address, p: PtyttyUnix)
      requires id !in heap && p.name.Some?
      modifies this`ptys, this`heap, this`history, this`born, this`ledger
      ensures heap == old(heap)[id := p] && heap.Keys == old(heap.Keys) + {id}
      ensures ptys == old(ptys) + [id] && history == old(history) + [Event(client, Get, Created(id, old(born)))]
      ensures Now() == old(Now()).(objects := old(View())[id := ValueOf(p)], born := old(born) + 1,
                                   ledger := Opened(old(ledger), id, p.serial, p.name.value))
    {
      ghost var v := View();
      heap := heap[id := p];
      assert ViewOf(heap) == v[id := ValueOf(p)];
      hide ViewOf, ValueOf, Opened;
      ptys := ptys + [id];
      history := history + [Event(client, Get, Created(id, born))];
      ledger := Opened(ledger, id, p.serial, p.name.value);
      born := born + 1;
    }

    /** push_back of a new object, whose master has just been opened. */
    method Enlist(client: ProxyId, p: PtyttyUnix, ghost master: File, ghost before: Snapshot) returns (id: Address)
      requires os.Valid() && db.torn == 0 && db.site == start.site && 0 !in heap
      requires RegistryOk(ptys, heap.Keys, history) && InOrder(ptys, Ages(heap))
      requires forall a :: a in heap ==> heap[a] != p
      requires p.serial == born && p.tty == -1 && p.cmdPid == 0 && p.pty >= 0
      requires p.name.Some? && Paired(master, p.name.value)
      requires Consistent(before, start) && p.pty !in before.fds && Now() == before.(fds := before.fds[p.pty := master])
      modifies this`ptys, this`heap, this`history, this`born, this`ledger
      ensures Valid() && id != 0 && id !in old(heap) && heap == old(heap)[id := p]
      ensures history == old(history) + [Event(client, Get, Created(id, old(born)))]
      ensures Now() == AfterGet(before, id, ValueOf(p), master)
    {
      hide Paired, Consistent, RegistryOk, Opened;
      Unused(heap.Keys + {0});
      id :| id !in heap.Keys + {0};
      GetKeeps(before, start, id, ValueOf(p), master);
      RegistryCreated(ptys, heap.Keys, history, client, id, born);
      assert InOrder(ptys + [id], Ages(heap[id := p])) by {
        YoungestLast(ptys, before, heap, id, p, start);
      }
      hide ViewOf, ValueOf, InOrder, Ages;
      Register(client, id, p);
    }

    ghost method Miss(client: ProxyId)
      requires Valid()
      modifies this`history, this`deleted, this`born
      ensures Valid() && history == old(history) + [Event(client, Get, Failed)] && Now() == AfterFailedGet(old(Now()))
    {
      hide Consistent, RegistryOk;
      RegistrySame(ptys, heap.Keys, history, Event(client, Get, Failed));
      FailedGetKeeps(Now(), start);
      hide ViewOf;
      history := history + [Event(client, Get, Failed)];
      deleted := deleted + [born];
      born := born + 1;
      assert Now() == AfterFailedGet(old(Now()));
    }

    /** get: exactly if the system has a pty for us, a new object, announced and handed over to the client; otherwise one
        that is deleted again. */
    method HandleGet(client: ProxyId, world: World, w: Wtmp) returns (replies: seq<Reply>, ghost e: Event)
      requires Valid()
      modifies this, os, db
      ensures Valid() && history == old(history) + [e] && e.proxy == client && e.request == Get && ReplyOk(e, replies)
      ensures forall a :: a in heap ==> (a in old(heap) && heap[a] == old(heap)[a]) || fresh(heap[a])
      ensures if Works(backend, world, false) then e.outcome.Created? else e.outcome.Failed?
      ensures e.outcome.Failed? ==> Now() == AfterFailedGet(old(Now()))
      ensures e.outcome.Created? ==>
                && e.outcome.serial == old(born) && e.outcome.id !in old(heap) && e.outcome.id in heap
                && var o := View()[e.outcome.id];
                && o.serial == old(born) && o.cmdPid == 0 && o.pty >= 0 && o.pty !in old(os.fds)
                && o.name.Some? && o.name == Slave(backend, world) && |replies| == 3
                && replies == [Id(e.outcome.id), replies[1], Descriptor(Device(o.name.value))] && replies[1].Descriptor?
                && Now() == AfterGet(old(Now()), e.outcome.id, o, replies[1].file)
      ensures CommandEffect(old(ptys), old(Now()), Now(), Get, e.outcome, replies, Takes(w, db.site), start)
    {
      hide Paired, Consistent, RegistryOk, Works, Slave, Opened, CommandEffect, GetEffect, Takes;
      ghost var was := Now();
      ghost var registered := ptys;
      var made, p, files, master := NewPty(world, w);
      if made {
        var id := Enlist(client, p, master, was);
        replies := [Id(id)] + files;
        e := Event(client, Get, Created(id, was.born));
        GetHasEffect(registered, was, Now(), id, ValueOf(p), master, replies, Takes(w, db.site), start);
      } else {
        replies := [Id(0)];
        e := Event(client, Get, Failed);
        Miss(client);
        FailHasEffect(registered, was, Now(), replies, Takes(w, db.site), start);
      }
    }

    /** The call of login on the object, as far as the heap and the session files show it. */
    method CallLogin(id: Address, pid: int, shell: bool, host: string, w: Wtmp) returns (ghost es: seq<Entry>)
      requires db.torn == 0 && id in heap && heap[id].name.Some?
      requires forall b :: b in heap && b != id ==> heap[b] != heap[id]
      modifies heap[id], db
      ensures db.torn == 0 && heap[id].name == old(heap[id].name) && |es| <= 1
      ensures es == [] <==> heap[id].name == Some("")
      ensures es != [] ==> LoginEntry(es[0], old(View())[id], pid, shell, host, Takes(w, db.site), db.site)
      ensures es != [] ==> View() == old(View())[id := old(View())[id].(cmdPid := pid, loginShell := shell)]
      ensures es == [] ==> View() == old(View())
      ensures db.trace == old(db.trace) + es
      ensures es == [] ==> db.utmp == old(db.utmp) && db.wtmp == old(db.wtmp)
      ensures es != [] ==>
                && db.utmp == Apply(old(db.utmp), es[0].record)
                && db.wtmp == old(db.wtmp) + if es[0].shell && es[0].written then [es[0].record] else []
    {
      hide StrNCpy, Fill, Apply, Takes;
      ghost var v := View();
      var o := heap[id];
      es := o.Login(db, pid, shell, StrNCpy(host, HOST_MAX), w);
      assert View() == v[id := ValueOf(o)];
      if es == [] {
        assert View() == v;
      }
    }

    method Enter(id: Address, pid: int, shell: bool, host: string, w: Wtmp) returns (ghost es: seq<Entry>)
      requires db.torn == 0 && id in heap && heap[id].name.Some?
      requires forall b :: b in heap && b != id ==> heap[b] != heap[id]
      modifies this`ledger, heap[id], db
      ensures db.torn == 0 && heap[id].name == old(heap[id].name) && |es| <= 1
      ensures heap[id].name == Some("") ==> es == [] && Now() == old(Now())
      ensures heap[id].name != Some("") ==>
                && |es| == 1 && LoginEntry(es[0], old(View())[id], pid, shell, host, Takes(w, db.site), db.site)
                && Now() == AfterLogin(old(Now()), id, pid, shell, host, Takes(w, db.site), es[0])
    {
      hide LoginEntry, Apply, LoggedIn, Takes;
      es := CallLogin(id, pid, shell, host, w);
      if es != [] {
        hide ValueOf;
        ledger := LoggedIn(ledger, id, pid, shell, host, Takes(w, db.site));
        assert [es[0]] == es;
      }
    }

    /** login of one object. */
    method LoginTo(id: Address, pid: int, shell: bool, host: string, w: Wtmp) returns (ghost es: seq<Entry>)
      requires HeapOk() && id in heap
      modifies this`ledger, heap[id], db
      ensures HeapOk() && heap[id].name == old(heap[id].name)
      ensures ledger == LoggedIn(old(ledger), id, pid, shell, host, Takes(w, db.site))
      ensures db.trace == old(db.trace) + es && |es| <= 1
      ensures old(heap[id].name) == Some("") ==> es == [] && Now() == old(Now())
      ensures old(heap[id].name) != Some("") ==>
                && |es| == 1 && LoginEntry(es[0], old(View())[id], pid, shell, host, Takes(w, db.site), db.site)
                && Now() == AfterLogin(old(Now()), id, pid, shell, host, Takes(w, db.site), es[0])
    {
      hide Consistent, LoginEntry, LoggedIn, Takes;
      NoLogin(id, pid, shell, host, Takes(w, db.site));
      Held(id);
      ghost var was := Now();
      es := Enter(id, pid, shell, host, w);
      if es != [] {
        LoginKeeps(was, start, id, pid, shell, host, Takes(w, db.site), es[0]);
      }
    }

    /** login: recorded for a registered object with a device name, ignored for any other address. */
    method HandleLogin(client: ProxyId, id: Address, pid: int, shell: bool, host: string, w: Wtmp)
      returns (ghost es: seq<Entry>)
      requires Valid()
      modifies this`history, this`ledger, heap.Values, db
      ensures Valid() && history == old(history) + [Event(client, Login(id, pid, shell, host), Done)]
      ensures ledger == LoggedIn(old(ledger), id, pid, shell, host, Takes(w, db.site)) && (id in ptys <==> id in heap)
      ensures ptys == old(ptys) && db.trace == old(db.trace) + es && |es| <= 1
      ensures id !in ptys || old(View())[id].name == Some("") ==> es == [] && Now() == old(Now())
      ensures id in ptys && old(View())[id].name != Some("") ==>
                && |es| == 1 && LoginEntry(es[0], old(View())[id], pid, shell, host, Takes(w, db.site), db.site)
                && Now() == AfterLogin(old(Now()), id, pid, shell, host, Takes(w, db.site), es[0])
    {
      hide Consistent, RegistryOk, LoginEntry, LoggedIn, Takes, InOrder, Ages;
      NoLogin(id, pid, shell, host, Takes(w, db.site));
      RegistrySame(ptys, heap.Keys, history, Event(client, Login(id, pid, shell, host), Done));
      Registered(id);
      InView(id);
      hide ViewOf, AfterLogin;
      es := [];
      if IndexOf(ptys, id) < |ptys| {
        es := LoginTo(id, pid, shell, host, w);
      }
      history := history + [Event(client, Login(id, pid, shell, host), Done)];
    }

    /** The ledger knows the same objects as the heap. */
    lemma NoLogin(id: Address, pid: int, shell: bool, host: string, taken: bool)
      requires HeapOk()
      ensures id !in heap || View()[id].name == Some("") ==> LoggedIn(ledger, id, pid, shell, host, taken) == ledger
      ensures id !in heap ==> Closed(ledger, id, taken) == ledger
    {
      hide Consistent, LoggedIn, Closed;
      NothingToBook(Now(), start, id, pid, shell, host, taken);
    }

    lemma Registered(id: Address)
      requires RegistryOk(ptys, heap.Keys, history)
      ensures id in ptys <==> id in heap
    {
      assert id in ptys <==> id in Elements(ptys);
    }

    /** destroy: deletes and erases a registered object, ignored for any other address. */
    method HandleDestroy(client: ProxyId, id: Address, w: Wtmp) returns (ghost es: seq<Entry>)
      requires Valid()
      modifies this`ptys, this`heap, this`deleted, this`history, this`ledger, heap.Values, os, db
      ensures Valid() && history == old(history) + [Event(client, Destroy(id), Done)] && heap == old(heap) - {id}
      ensures ledger == Closed(old(ledger), id, Takes(w, db.site)) && db.trace == old(db.trace) + es && |es| <= 1
      ensures id !in old(ptys) ==> es == [] && ptys == old(ptys) && Now() == old(Now())
      ensures id in old(ptys) ==>
                && id in old(View()) && LogoutEntries(es, old(View())[id], Takes(w, db.site), db.site)
                && Now() == AfterDelete(old(Now()), id, Takes(w, db.site), es)
    {
      hide Consistent, RegistryOk, LogoutEntries, Closed, Takes, Remove, InOrder, Ages;
      NoLogin(id, 0, false, "", Takes(w, db.site));
      RegistryErased(ptys, heap.Keys, history, client, id);
      Registered(id);
      InView(id);
      hide ViewOf, AfterDelete;
      es := [];
      if IndexOf(ptys, id) < |ptys| {
        es := DeleteAndErase(id, w);
      }
      assert heap.Keys == old(heap).Keys - {id};
      history := history + [Event(client, Destroy(id), Done)];
    }

    lemma InView(id: Address)
      ensures id in View() <==> id in heap
    {
    }

    /** delete *pty; ptys.erase (pty) */
    method DeleteAndErase(id: Address, w: Wtmp) returns (ghost es: seq<Entry>)
      requires HeapOk() && id in heap && id in ptys && InOrder(ptys, Ages(heap))
      modifies this`ptys, this`heap, this`deleted, this`ledger, heap[id], os, db
      ensures HeapOk() && heap == old(heap) - {id} && ptys == Remove(old(ptys), id) && InOrder(ptys, Ages(heap))
      ensures ledger == Closed(old(ledger), id, Takes(w, db.site)) && db.trace == old(db.trace) + es
      ensures |es| <= 1 && LogoutEntries(es, old(View())[id], Takes(w, db.site), db.site)
      ensures Now() == AfterDelete(old(Now()), id, Takes(w, db.site), es)
    {
      hide Consistent, LogoutEntries, Closed, Takes, AfterDelete;
      var i := IndexOf(ptys, id);
      ErasedInOrder(ptys, heap, id);
      hide InOrder, Ages;
      es := Delete(id, w);
      hide ViewOf;
      ptys := ptys[..i] + ptys[i + 1..];
    }

    /** One round of the loop: one more event, its answer, the effect the command is to have, and at most one more entry,
        the one the ledger asks for. */
    method Handle(client: ProxyId, request: Request, world: World, w: Wtmp)
      returns (replies: seq<Reply>, ghost e: Event, ghost es: seq<Entry>)
      requires Valid()
      modifies this, os, db, heap.Values
      ensures Valid() && forall a :: a in heap ==> (a in old(heap) && heap[a] == old(heap)[a]) || fresh(heap[a])
      ensures history == old(history) + [e] && e.proxy == client && e.request == request && ReplyOk(e, replies)
      ensures request.Get? ==> (e.outcome.Created? <==> Works(backend, world, false))
      ensures CommandEffect(old(ptys), old(Now()), Now(), request, e.outcome, replies, Takes(w, db.site), start)
      ensures ledger == Book(old(ledger), e, replies, Takes(w, db.site))
      ensures db.trace == old(db.trace) + es && |es| <= 1
    {
      hide Consistent, RegistryOk, Works, LoginEntry, LogoutEntries, LoggedIn, Closed, Takes, CommandEffect, AfterLogin,
           AfterDelete;
      ghost var was, registered := Now(), ptys;
      replies, es := [], [];
      match request
      case Get =>
        replies, e := HandleGet(client, world, w);
      case Login(id, pid, shell, host) =>
        e := Event(client, request, Done);
        Registered(id);
        es := HandleLogin(client, id, pid, shell, host, w);
        LoginHasEffect(registered, was, Now(), request, es, Takes(w, db.site), start);
      case Destroy(id) =>
        e := Event(client, request, Done);
        es := HandleDestroy(client, id, w);
        DestroyHasEffect(registered, was, Now(), id, es, Takes(w, db.site), start);
    }

    /** The reverse sweep on exit deletes every remaining object, from the last registered to the first, and closes its
        session. */
    method Sweep(exit: nat -> Wtmp)
      requires Valid()
      modifies this`heap, this`deleted, this`ledger, os, db, heap.Values
      ensures HeapOk() && heap == map[] && ptys == Replay(history)
      ensures old(db.trace) <= db.trace && ledger == CloseAll(old(ledger), ptys, TakenAt(exit, db.site))
      ensures deleted == old(deleted) + FromLast(ptys, Ages(old(heap)))
    {
      hide Consistent, NoDuplicates, Elements, Replay, LogoutEntries, Closed, AfterDelete, CloseAll, Takes,
           DeleteEffect, InOrder, Ages, FromLast;
      ghost var taken, was, gone, serials := TakenAt(exit, db.site), deleted, [], FromLast(ptys, Ages(heap));
      var i := |ptys|;
      assert ptys[..i] == ptys;
      while i > 0
        invariant 0 <= i <= |ptys| && HeapOk() && old(db.trace) <= db.trace
        invariant forall a :: a in heap ==> a in old(heap) && heap[a] == old(heap)[a]
        invariant heap.Keys == Elements(ptys[..i])
        invariant CloseAll(ledger, ptys[..i], taken) == CloseAll(old(ledger), ptys, taken)
        invariant deleted == was + gone && serials == gone + FromLast(ptys[..i], Ages(heap))
      {
        i := i - 1;
        LastElement(ptys, i);
        CloseLast(ledger, ptys, taken, i);
        gone := AgesStep(ptys, i, heap, gone, serials);
        ghost var es := Delete(ptys[i], exit(i));
        assert heap.Keys == Elements(ptys[..i]);
      }
      assert heap.Keys == {} by {
        NoElements(ptys[..0]);
      }
      CloseNone(ledger, ptys[..0], taken);
      AgesNone(ptys[..0], heap);
    }

    /** serve: every command is answered in the order it was read, a get successfully exactly if the system has a pty, and
        the registry follows the commands one by one. On exit only the sockets are open, and every object was deleted
        once. The calls of log_session are exactly those the commands and the sweep ask for, and the session files are
        what the calls amount to. */
    method Serve(inputs: seq<Input>, exit: nat -> Wtmp) returns (replies: seq<seq<Reply>>)
      requires Valid() && heap == map[] && history == [] && ledger == EMPTY
      modifies this, os, db
      ensures heap == map[] && ptys == Replay(history)
      ensures forall fd :: fd in os.fds <==> fd in start.sockets
      ensures forall fd :: fd in start.sockets ==> os.fds[fd] == start.sockets[fd]
      ensures NoDuplicates(deleted) && forall k :: k in deleted <==> 0 <= k < born
      ensures |ptys| <= |deleted| && forall i, j :: |deleted| - |ptys| <= i < j < |deleted| ==> deleted[i] > deleted[j]
      ensures |replies| == |history| <= |inputs|
      ensures |history| < |inputs| ==> inputs[|history|].Unknown?
      ensures forall i :: 0 <= i < |history| ==> Served(inputs[i], history[i], replies[i])
      ensures ledger == CloseAll(BookAll(history, replies, TakenIn(inputs, db.site)), ptys, TakenAt(exit, db.site))
      ensures Written(db.trace, ledger.calls, db.site)
      ensures forall k :: 0 <= k < born ==> Balanced(Of(db.trace, k))
      ensures db.utmp == ApplyAll(start.utmp, db.trace) && db.wtmp == start.wtmp + Appended(db.trace)
      ensures DeadRecords(Appended(db.trace)) == ShellsLoggedOut(db.trace, born)
      ensures db.site.wtmpSupport && AllTaken(ledger.calls) ==>
                DeadRecords(Appended(db.trace)) == ShellLogouts(db.trace, born)
    {
      hide Consistent, ReplyOk, RegistryOk, Of, Balanced, Replay, ApplyAll, Appended, Works, Book, BookAll, Written,
           Takes, CommandEffect, AllTaken;
      replies := [];
      ghost var taken := TakenIn(inputs, db.site);
      assert BookAll([], [], taken) == EMPTY by {
        BookNone(taken);
      }
      while |replies| < |inputs|
        invariant Valid() && forall a :: a in heap ==> fresh(heap[a])
        invariant |replies| == |history| <= |inputs|
        invariant ledger == BookAll(history, replies, taken)
        invariant forall i :: 0 <= i < |history| ==> Served(inputs[i], history[i], replies[i])
      {
        var m := inputs[|replies|];
        if m.Unknown? {
          break;
        }
        ghost var before := history;
        var r;
        ghost var e, es;
        r, e, es := Handle(m.client, m.request, m.world, m.wtmp);
        assert taken(|before|) == Takes(m.wtmp, db.site);
        BookStep(before, replies, taken, e, r);
        replies := replies + [r];
      }
      ghost var left := |deleted|;
      FromLastFalls(ptys, Ages(heap));
      Sweep(exit);
      AtEnd(Now(), start);
    }

    /** The event and the answer belong to this input, and a get succeeded exactly if the system had a pty. */
    predicate Served(input: Input, e: Event, r: seq<Reply>) {
      && input.Command? && e.proxy == input.client && e.request == input.request && ReplyOk(e, r)
      && (e.request.Get? ==> (e.outcome.Created? <==> Works(backend, input.world, false)))
    }
  }

  // ----- the order of the registry -----

  lemma YoungestLast(ptys: seq<Address>, s: Snapshot, heap: map<Address, PtyttyUnix>, id: Address, p: PtyttyUnix, t: Start)
    requires InOrder(ptys, Ages(heap)) && Consistent(s, t) && id !in heap && p.serial == s.born
    requires forall a :: a in heap ==> a in s.objects && s.objects[a].serial == heap[a].serial
    ensures InOrder(ptys + [id], Ages(heap[id := p]))
  {
    hide InOrder, DescriptorsOk, TraceOk, Written, SameAccounts, ApplyAll, Appended;
    OrderPush(ptys, Ages(heap), id, p.serial);
    OrderSame(ptys + [id], Ages(heap)[id := p.serial], Ages(heap[id := p]));
  }

  lemma AgesStep(ptys: seq<Address>, i: nat, heap: map<Address, PtyttyUnix>, gone: seq<nat>, serials: seq<nat>)
    returns (more: seq<nat>)
    requires i < |ptys| && NoDuplicates(ptys) && ptys[i] in heap
    requires serials == gone + FromLast(ptys[..i + 1], Ages(heap))
    ensures more == gone + [heap[ptys[i]].serial]
    ensures serials == more + FromLast(ptys[..i], Ages(heap - {ptys[i]}))
  {
    FromLastStep(ptys, i + 1, Ages(heap));
    hide FromLast;
    FromLastSame(ptys[..i], Ages(heap) - {ptys[i]}, Ages(heap - {ptys[i]}));
    more := gone + [heap[ptys[i]].serial];
  }

  lemma AgesNone(ptys: seq<Address>, heap: map<Address, PtyttyUnix>)
    requires ptys == []
    ensures FromLast(ptys, Ages(heap)) == []
  {
  }

  lemma ErasedInOrder(ptys: seq<Address>, heap: map<Address, PtyttyUnix>, id: Address)
    requires InOrder(ptys, Ages(heap))
    ensures InOrder(Remove(ptys, id), Ages(heap - {id}))
  {
    hide InOrder, Remove;
    OrderRemove(ptys, Ages(heap), id);
    OrderSame(Remove(ptys, id), Ages(heap) - {id}, Ages(heap - {id}));
  }

  // ----- the effects of the handlers -----

  lemma GetHasEffect(ptys: seq<Address>, s: Snapshot, s': Snapshot, id: Address, o: Fields, file: File, r: seq<Reply>,
                     taken: bool, t: Start)
    requires NewObject(s, o, file) && o.name.Some? && s' == AfterGet(s, id, o, file)
    requires r == [Id(id), Descriptor(file), Descriptor(Device(o.name.value))]
    ensures CommandEffect(ptys, s, s', Get, Created(id, s.born), r, taken, t)
  {
    assert r == Handover(id, o, file);
    hide NewObject, AfterGet, Handover;
  }

  lemma FailHasEffect(ptys: seq<Address>, s: Snapshot, s': Snapshot, r: seq<Reply>, taken: bool, t: Start)
    requires s' == AfterFailedGet(s) && r == [Id(0)]
    ensures CommandEffect(ptys, s, s', Get, Failed, r, taken, t)
  {
  }

  lemma LoginHasEffect(ptys: seq<Address>, s: Snapshot, s': Snapshot, q: Request, es: seq<Entry>, taken: bool, t: Start)
    requires q.Login? && (q.id in ptys <==> q.id in s.objects)
    requires if q.id !in ptys || s.objects[q.id].name == Some("") then s' == s
             else
               && |es| == 1 && LoginEntry(es[0], s.objects[q.id], q.pid, q.shell, q.host, taken, t.site)
               && s' == AfterLogin(s, q.id, q.pid, q.shell, q.host, taken, es[0])
    ensures CommandEffect(ptys, s, s', q, Done, [], taken, t)
  {
    hide LoginEntry, AfterLogin;
  }

  lemma DeleteHasEffect(s: Snapshot, s': Snapshot, id: Address, es: seq<Entry>, taken: bool, t: Start)
    requires id in s.objects && |es| <= 1 && LogoutEntries(es, s.objects[id], taken, t.site)
    requires s' == AfterDelete(s, id, taken, es)
    ensures DeleteEffect(s, s', id, taken, t)
  {
    hide LogoutEntries, AfterDelete;
  }

  lemma DestroyHasEffect(ptys: seq<Address>, s: Snapshot, s': Snapshot, id: Address, es: seq<Entry>, taken: bool,
                         t: Start)
    requires if id !in ptys then s' == s
             else
               && id in s.objects && |es| <= 1 && LogoutEntries(es, s.objects[id], taken, t.site)
               && s' == AfterDelete(s, id, taken, es)
    ensures CommandEffect(ptys, s, s', Destroy(id), Done, [], taken, t)
  {
    hide LogoutEntries, AfterDelete;
    if id in ptys {
      DeleteHasEffect(s, s', id, es, taken, t);
    }
  }
}
