/** The protocol and the helper's own effects together: what one command does to descriptors, sessions and files happens in
    the protocol step that executes it, so everything that holds after every sequence of commands holds in every run. */
module Composition {
  import opened Accounts
  import opened Descriptors
  import opened Ledgers
  import opened Os
  import opened Ptytty
  import opened Registry
  import opened Session
  import opened Snapshots
  import opened Wrappers
  import Completion
  import Ownership
  import P = Protocol

  /** A state of the protocol, the helper as the last executed command left it, and what it answered to each command. */
  datatype System = System(protocol: P.State, helper: Snapshot, answers: seq<seq<Reply>>)

  /** Whether wtmp takes a record while the i-th command is executed, or while the sweep deletes the i-th object. */
  datatype Oracle = Oracle(command: nat -> bool, exit: nat -> bool)

  /** The command the helper is finishing, and how it ends. */
  function CommandOf(helper: P.HelperPc): (Request, Outcome)
    requires P.Executes(helper)
  {
    if helper.HGot? then (helper.request, Done)
    else if helper.HWroteId? then (Get, Created(helper.id, helper.serial))
    else (Get, Failed)
  }

  /** Finishing a command does to the helper and to its client what the command is to do. */
  ghost predicate ActEffect(s: P.State, h: Snapshot, h': Snapshot, r: seq<Reply>, o: Oracle, t: Start)
    requires P.Executes(s.helper)
  {
    var (q, out) := CommandOf(s.helper);
    CommandEffect(s.ptys, h, h', q, out, r, o.command(|s.executed|), t)
  }

  /** What a step of the protocol does to the rest of the system. */
  ghost predicate Effect(s: P.State, a: P.Action, h: Snapshot, rs: seq<seq<Reply>>, h': Snapshot, rs': seq<seq<Reply>>,
                         o: Oracle, t: Start)
  {
    if a.HelperAct? && P.Executes(s.helper) then
      |rs'| == |rs| + 1 && rs' == rs + [rs'[|rs|]] && ActEffect(s, h, h', rs'[|rs|], o, t)
    else if a.HelperSweep? && s.helper.HSweep? && 0 < s.helper.left <= |s.ptys| then
      rs' == rs && DeleteEffect(h, h', s.ptys[s.helper.left - 1], o.exit(s.helper.left - 1), t)
    else
      rs' == rs && h' == h
  }

  ghost predicate Follows(x: System, y: System, o: Oracle, t: Start) {
    exists a :: && P.Enabled(x.protocol, a) && P.Step(x.protocol, a) == y.protocol
                && Effect(x.protocol, a, x.helper, x.answers, y.helper, y.answers, o, t)
  }

  function Initial(t: Start): System {
    System(P.INITIAL, Snapshot(map[], t.sockets, [], t.utmp, t.wtmp, 0, [], EMPTY), [])
  }

  ghost predicate Run(run: seq<System>, o: Oracle, t: Start) {
    && run != [] && run[0] == Initial(t)
    && forall i :: 0 <= i < |run| - 1 ==> Follows(run[i], run[i + 1], o, t)
  }

  /** The helper's objects are those of the registry, or of what the sweep has left of it, under the same serials. */
  ghost predicate Linked(helper: P.HelperPc, live: map<Address, nat>, born: nat, h: Snapshot) {
    && (forall a :: a in h.objects <==> a in live && a !in P.Unregistered(helper))
    && (forall a :: a in h.objects ==> h.objects[a].serial == live[a])
    && h.born + P.InHand(helper) == born
    && (helper.HCreated? || helper.HWroteId? ==> helper.serial == h.born)
  }

  ghost predicate LinkedTo(s: P.State, h: Snapshot) {
    Linked(s.helper, s.live, s.born, h)
  }

  /** The ledger is the one that the executed commands and their answers ask for, up to what the sweep has still to do. */
  ghost predicate Booked(helper: P.HelperPc, ptys: seq<Address>, executed: seq<Event>, l: Ledger, rs: seq<seq<Reply>>,
                         o: Oracle)
  {
    && |rs| == |executed|
    && match helper
       case HSweep(n) =>
         n <= |ptys| && CloseAll(l, ptys[..n], o.exit) == CloseAll(BookAll(executed, rs, o.command), ptys, o.exit)
       case HExited => l == CloseAll(BookAll(executed, rs, o.command), ptys, o.exit)
       case _ => l == BookAll(executed, rs, o.command)
  }

  /** A get handed over the files of the object it made: while the helper has that object, they are the master it keeps
      and the slave it names. */
  ghost predicate Handed(e: Event, r: seq<Reply>, h: Snapshot) {
    e.outcome.Created? ==>
      var id, k := e.outcome.id, e.outcome.serial;
      && k < h.born
      && (id in h.objects && h.objects[id].serial == k ==>
            h.objects[id].pty in h.fds && h.objects[id].name.Some?
            && r == Handover(id, h.objects[id], h.fds[h.objects[id].pty]))
  }

  /** Every answer has the form its command asks for, and what was handed over is the helper's own. */
  ghost predicate Answered(executed: seq<Event>, rs: seq<seq<Reply>>, h: Snapshot) {
    && |rs| == |executed|
    && forall i :: 0 <= i < |executed| ==> ReplyOk(executed[i], rs[i]) && Handed(executed[i], rs[i], h)
  }

  /** The helper has deleted what the protocol says, up to the object of a failed get it has not finished with. */
  ghost predicate SameDeleted(s: P.State, h: Snapshot) {
    s.deleted == h.deleted + if s.helper.HFailed? then [h.born] else []
  }

  ghost predicate Inv(x: System, o: Oracle, t: Start) {
    && P.Inv(x.protocol) && LinkedTo(x.protocol, x.helper) && Consistent(x.helper, t)
    && SameDeleted(x.protocol, x.helper)
    && Booked(x.protocol.helper, x.protocol.ptys, x.protocol.executed, x.helper.ledger, x.answers, o)
    && Answered(x.protocol.executed, x.answers, x.helper)
  }

  // ----- every step keeps it -----

  /** Descriptors, sessions and files stay consistent. */
  lemma KeepConsistent(s: P.State, a: P.Action, h: Snapshot, rs: seq<seq<Reply>>, h': Snapshot, rs': seq<seq<Reply>>,
                       o: Oracle, t: Start)
    requires Consistent(h, t) && Effect(s, a, h, rs, h', rs', o, t)
    requires s.helper.HWroteId? && a.HelperAct? ==> s.helper.id !in h.objects
    ensures Consistent(h', t)
  {
    hide Consistent, DeleteEffect, CommandEffect;
    if a.HelperAct? && P.Executes(s.helper) {
      var (q, out) := CommandOf(s.helper);
      CommandKeeps(s.ptys, h, h', q, out, rs'[|rs|], o.command(|s.executed|), t);
    } else if a.HelperSweep? && s.helper.HSweep? && 0 < s.helper.left <= |s.ptys| {
      DeleteEffectKeeps(h, h', s.ptys[s.helper.left - 1], o.exit(s.helper.left - 1), t);
    }
  }

  lemma LinkedElsewhere(s: P.State, a: P.Action, h: Snapshot)
    requires P.Enabled(s, a) && LinkedTo(s, h) && !a.HelperAct? && !a.HelperSweep? && !a.HelperNew? && !a.HelperGetFails?
    ensures LinkedTo(P.Step(s, a), h)
  {
  }

  lemma LinkedNew(s: P.State, id: Address, h: Snapshot)
    requires P.Enabled(s, P.HelperNew(id)) && LinkedTo(s, h)
    ensures LinkedTo(P.Step(s, P.HelperNew(id)), h)
  {
  }

  lemma LinkedGetFails(s: P.State, h: Snapshot)
    requires P.Enabled(s, P.HelperGetFails) && LinkedTo(s, h)
    ensures LinkedTo(P.Step(s, P.HelperGetFails), h)
  {
  }

  lemma LinkedDelete(helper: P.HelperPc, live: map<Address, nat>, born: nat, h: Snapshot, h': Snapshot, id: Address,
                     taken: bool, t: Start)
    requires Linked(helper, live, born, h) && DeleteEffect(h, h', id, taken, t) && P.InHand(helper) == 0
    ensures Linked(helper, live - {id}, born, h')
  {
    hide LogoutEntries, Apply, Closed;
  }

  /** What is in the registry is on the helper's heap. */
  lemma RegisteredIsHeld(s: P.State, h: Snapshot, id: Address)
    requires P.Inv(s) && LinkedTo(s, h) && s.helper.HGot?
    ensures id in s.ptys <==> id in h.objects
    ensures id in s.ptys <==> id in s.live
  {
    hide P.TokenInv, P.ExchangeInv, P.LifeInv, Replay;
    assert id in s.ptys <==> id in Elements(s.ptys);
  }

  lemma LinkedLogin(s: P.State, h: Snapshot, h': Snapshot, r: seq<Reply>, o: Oracle, t: Start)
    requires P.Inv(s) && P.Enabled(s, P.HelperAct) && LinkedTo(s, h) && P.Executes(s.helper)
    requires ActEffect(s, h, h', r, o, t)
    requires s.helper.HGot? && s.helper.request.Login?
    ensures LinkedTo(P.Step(s, P.HelperAct), h')
  {
    hide P.Inv, LoginEntry, Apply, LoggedIn;
  }

  lemma LinkedDestroy(s: P.State, h: Snapshot, h': Snapshot, r: seq<Reply>, o: Oracle, t: Start)
    requires P.Inv(s) && P.Enabled(s, P.HelperAct) && LinkedTo(s, h) && P.Executes(s.helper)
    requires ActEffect(s, h, h', r, o, t)
    requires s.helper.HGot? && s.helper.request.Destroy?
    ensures LinkedTo(P.Step(s, P.HelperAct), h')
  {
    var id := s.helper.request.id;
    RegisteredIsHeld(s, h, id);
    P.DestroyStep(s);
    hide P.Inv, P.Enabled, P.Step, DeleteEffect;
    if id in s.ptys {
      LinkedDelete(s.helper, s.live, s.born, h, h', id, o.command(|s.executed|), t);
    }
    LinkedQuiet(s.helper, P.HNeed, P.Step(s, P.HelperAct).live, s.born, h');
  }

  /** Where the helper is does not matter while it makes no object. */
  lemma LinkedQuiet(helper: P.HelperPc, helper': P.HelperPc, live: map<Address, nat>, born: nat, h: Snapshot)
    requires Linked(helper, live, born, h) && P.InHand(helper) == 0 == P.InHand(helper')
    ensures Linked(helper', live, born, h)
  {
    assert P.Unregistered(helper) == map[] == P.Unregistered(helper');
  }

  lemma LinkedPush(s: P.State, h: Snapshot, h': Snapshot, r: seq<Reply>, o: Oracle, t: Start)
    requires P.Inv(s) && P.Enabled(s, P.HelperAct) && LinkedTo(s, h) && P.Executes(s.helper) && s.helper.HWroteId?
    requires ActEffect(s, h, h', r, o, t)
    ensures LinkedTo(P.Step(s, P.HelperAct), h')
    ensures s.helper.id !in h.objects
  {
    P.PushTarget(s);
    P.PushStep(s);
    hide P.Inv, P.Step, P.Enabled, Linked, Paired, AfterGet, Handover;
    var id, k := s.helper.id, s.helper.serial;
    var x, file :| NewObject(h, x, file) && h' == AfterGet(h, id, x, file) && r == Handover(id, x, file);
    LinkedWith(id, k, s.live, s.born, h, x, file);
  }

  lemma LinkedWith(id: Address, k: nat, live: map<Address, nat>, born: nat, h: Snapshot, x: Fields, file: File)
    requires Linked(P.HWroteId(id, k), live, born, h) && id in live && live[id] == k
    requires x.serial == h.born && x.name.Some?
    ensures id !in h.objects && Linked(P.HPushed(id, k), live, born, AfterGet(h, id, x, file))
  {
    assert id in P.Unregistered(P.HWroteId(id, k));
    assert P.Unregistered(P.HPushed(id, k)) == map[];
  }

  lemma LinkedOn(s: P.State, h: Snapshot, h': Snapshot)
    requires P.Enabled(s, P.HelperAct) && LinkedTo(s, h) && !s.helper.HGot? && !s.helper.HWroteId?
    requires h' == if s.helper.HFailed? then AfterFailedGet(h) else h
    ensures LinkedTo(P.Step(s, P.HelperAct), h')
  {
    P.OnStep(s);
    hide P.Enabled, P.Step;
  }

  lemma LinkedAct(s: P.State, h: Snapshot, h': Snapshot, r: seq<Reply>, o: Oracle, t: Start)
    requires P.Inv(s) && P.Enabled(s, P.HelperAct) && LinkedTo(s, h) && P.Executes(s.helper)
    requires ActEffect(s, h, h', r, o, t)
    ensures LinkedTo(P.Step(s, P.HelperAct), h')
    ensures s.helper.HWroteId? ==> s.helper.id !in h.objects
  {
    hide P.Inv, LinkedTo, P.Step, DeleteEffect, LoginEffect, GetEffect;
    if s.helper.HGot? {
      if s.helper.request.Login? {
        LinkedLogin(s, h, h', r, o, t);
      } else {
        LinkedDestroy(s, h, h', r, o, t);
      }
    } else if s.helper.HWroteId? {
      LinkedPush(s, h, h', r, o, t);
    } else {
      LinkedOn(s, h, h');
    }
  }

  lemma LinkedSweep(s: P.State, h: Snapshot, h': Snapshot, o: Oracle, t: Start)
    requires P.Inv(s) && P.Enabled(s, P.HelperSweep) && LinkedTo(s, h) && s.helper.left <= |s.ptys|
    requires if s.helper.left > 0 then DeleteEffect(h, h', s.ptys[s.helper.left - 1], o.exit(s.helper.left - 1), t)
             else h' == h
    ensures LinkedTo(P.Step(s, P.HelperSweep), h')
  {
    hide P.Inv, P.Step, DeleteEffect, Linked;
    var n := s.helper.left;
    SweepTarget(s);
    SweepStep(s);
    if n > 0 {
      LinkedDelete(s.helper, s.live, s.born, h, h', s.ptys[n - 1], o.exit(n - 1), t);
    }
    LinkedQuiet(s.helper, P.Step(s, P.HelperSweep).helper, P.Step(s, P.HelperSweep).live, s.born, h');
  }

  lemma SweepTarget(s: P.State)
    requires P.Inv(s) && P.Enabled(s, P.HelperSweep)
    ensures s.helper.HSweep? && s.helper.left <= |s.ptys| && (s.helper.left > 0 ==> s.ptys[s.helper.left - 1] in s.live)
  {
    hide P.TokenInv, P.ExchangeInv, P.LifeInv, P.RegistryInv;
    P.SweepBound(s);
    if s.helper.left > 0 {
      P.RegistrySweep(s.helper.left, s.ptys, s.live, s.executed);
    }
  }

  lemma SweepStep(s: P.State)
    requires P.Enabled(s, P.HelperSweep) && s.helper.left <= |s.ptys|
    requires s.helper.left > 0 ==> s.ptys[s.helper.left - 1] in s.live
    ensures var u, n := P.Step(s, P.HelperSweep), s.helper.left;
            && u.born == s.born && (u.helper.HSweep? || u.helper.HExited?)
            && u.live == if n > 0 then s.live - {s.ptys[n - 1]} else s.live
  {
  }

  lemma KeepLinked(s: P.State, a: P.Action, h: Snapshot, rs: seq<seq<Reply>>, h': Snapshot, rs': seq<seq<Reply>>,
                   o: Oracle, t: Start)
    requires P.Inv(s) && LinkedTo(s, h) && P.Enabled(s, a) && Effect(s, a, h, rs, h', rs', o, t)
    ensures LinkedTo(P.Step(s, a), h')
    ensures s.helper.HWroteId? && a.HelperAct? ==> s.helper.id !in h.objects
  {
    hide P.Inv, LinkedTo, P.Step, P.Enabled, ActEffect, DeleteEffect;
    match a
    case HelperAct =>
      if P.Executes(s.helper) {
        LinkedAct(s, h, h', rs'[|rs|], o, t);
      } else {
        P.NotExecuting(s);
        LinkedOn(s, h, h');
      }
    case HelperSweep =>
      SweepTarget(s);
      LinkedSweep(s, h, h', o, t);
    case HelperNew(id) => LinkedNew(s, id, h);
    case HelperGetFails => LinkedGetFails(s, h);
    case _ => LinkedElsewhere(s, a, h);
  }

  // ----- the ledger follows the commands -----

  lemma KeepBookedAct(x: System, y: System, o: Oracle, t: Start)
    requires Inv(x, o, t) && P.Enabled(x.protocol, P.HelperAct) && y.protocol == P.Step(x.protocol, P.HelperAct)
    requires P.Executes(x.protocol.helper)
    requires Effect(x.protocol, P.HelperAct, x.helper, x.answers, y.helper, y.answers, o, t)
    ensures Booked(y.protocol.helper, y.protocol.ptys, y.protocol.executed, y.helper.ledger, y.answers, o)
  {
    var s, h, n := x.protocol, x.helper, |x.answers|;
    if s.helper.HGot? {
      forall id ensures id in s.ptys <==> id in h.objects {
        RegisteredIsHeld(s, h, id);
      }
    }
    var e := P.ExecutedStep(s);
    hide P.Inv, P.Step, P.Enabled, Consistent, Answered, CommandEffect, Book, BookAll;
    CommandBooks(s.ptys, h, y.helper, e, y.answers[n], o.command(n), t);
    BookStep(s.executed, x.answers, o.command, e, y.answers[n]);
  }

  lemma KeepBookedSweep(x: System, y: System, o: Oracle, t: Start)
    requires Inv(x, o, t) && P.Enabled(x.protocol, P.HelperSweep) && y.protocol == P.Step(x.protocol, P.HelperSweep)
    requires Effect(x.protocol, P.HelperSweep, x.helper, x.answers, y.helper, y.answers, o, t)
    ensures Booked(y.protocol.helper, y.protocol.ptys, y.protocol.executed, y.helper.ledger, y.answers, o)
  {
    hide P.Inv, P.Step, P.Enabled, Consistent, LinkedTo, DeleteEffect, Closed, Booked, Answered, SameDeleted;
    var s := x.protocol;
    SweepTarget(s);
    SweepMoves(s);
    var n := s.helper.left;
    if n > 0 {
      DeleteEffectBooks(x.helper, y.helper, s.ptys[n - 1], o.exit(n - 1), t);
    }
    assert s.helper == P.HSweep(n);
    BookedSweep(n, s.ptys, s.executed, x.helper.ledger, y.helper.ledger, x.answers, o);
  }

  lemma BookedSweep(n: nat, ptys: seq<Address>, executed: seq<Event>, l: Ledger, l': Ledger, rs: seq<seq<Reply>>,
                    o: Oracle)
    requires n <= |ptys| && Booked(P.HSweep(n), ptys, executed, l, rs, o)
    requires l' == if n > 0 then Closed(l, ptys[n - 1], o.exit(n - 1)) else l
    ensures Booked(if n > 0 then P.HSweep(n - 1) else P.HExited, ptys, executed, l', rs, o)
  {
    hide Closed, BookAll, CloseAll;
    if n > 0 {
      CloseLast(l, ptys, o.exit, n - 1);
    } else {
      CloseNone(l, ptys[..0], o.exit);
    }
  }

  lemma SweepMoves(s: P.State)
    requires P.Enabled(s, P.HelperSweep)
    ensures var u, n := P.Step(s, P.HelperSweep), s.helper.left;
            u.helper == (if n > 0 then P.HSweep(n - 1) else P.HExited) && u.ptys == s.ptys && u.executed == s.executed
  {
  }

  lemma KeepBookedElsewhere(x: System, a: P.Action, y: System, o: Oracle, t: Start)
    requires Inv(x, o, t) && P.Enabled(x.protocol, a) && y.protocol == P.Step(x.protocol, a)
    requires !a.HelperSweep? && !(a.HelperAct? && P.Executes(x.protocol.helper))
    requires y.helper == x.helper && y.answers == x.answers
    ensures Booked(y.protocol.helper, y.protocol.ptys, y.protocol.executed, y.helper.ledger, y.answers, o)
  {
    Elsewhere(x.protocol, a);
    hide P.Inv, P.Step, P.Enabled, Consistent, BookAll, CloseAll;
    var ptys := x.protocol.ptys;
    assert ptys[..|ptys|] == ptys;
  }

  lemma Elsewhere(s: P.State, a: P.Action)
    requires P.Enabled(s, a) && !a.HelperSweep? && !(a.HelperAct? && P.Executes(s.helper))
    ensures var u := P.Step(s, a);
            && u.ptys == s.ptys && u.executed == s.executed
            && (u.helper == s.helper || (u.helper.HSweep? && u.helper.left == |s.ptys| && s.helper.HRead?)
                || (P.Serving(s) && P.Serving(u)))
  {
  }

  // ----- what is deleted, in which order -----

  lemma KeepDeleted(s: P.State, a: P.Action, h: Snapshot, rs: seq<seq<Reply>>, h': Snapshot, rs': seq<seq<Reply>>,
                    o: Oracle, t: Start)
    requires P.Inv(s) && LinkedTo(s, h) && SameDeleted(s, h) && P.Enabled(s, a) && Effect(s, a, h, rs, h', rs', o, t)
    ensures SameDeleted(P.Step(s, a), h')
  {
    hide P.Inv, P.Enabled, P.Step, LinkedTo, ActEffect, DeleteEffect;
    if a.HelperAct? && P.Executes(s.helper) {
      DeletedAct(s, h, h', rs'[|rs|], o, t);
    } else if a.HelperSweep? {
      SweepTarget(s);
      DeletedSweep(s, h, h', o, t);
    } else if a.HelperGetFails? {
      DeletedGetFails(s, h);
    } else {
      DeletedElsewhere(s, a);
    }
  }

  lemma DeletedElsewhere(s: P.State, a: P.Action)
    requires P.Enabled(s, a) && !(a.HelperAct? && P.Executes(s.helper)) && !a.HelperSweep? && !a.HelperGetFails?
    ensures var u := P.Step(s, a);
            u.deleted == s.deleted && (u.helper == s.helper || (!u.helper.HFailed? && !s.helper.HFailed?))
  {
  }

  lemma DeletedAct(s: P.State, h: Snapshot, h': Snapshot, r: seq<Reply>, o: Oracle, t: Start)
    requires P.Inv(s) && LinkedTo(s, h) && SameDeleted(s, h) && P.Enabled(s, P.HelperAct) && P.Executes(s.helper)
    requires ActEffect(s, h, h', r, o, t)
    ensures SameDeleted(P.Step(s, P.HelperAct), h')
  {
    hide P.Inv, P.Step, P.Enabled, CommandEffect, LinkedTo;
    var (q, out) := CommandOf(s.helper);
    CommandDeletes(s.ptys, h, h', q, out, r, o.command(|s.executed|), t);
    P.ActDeletes(s);
    if s.helper.HGot? && s.helper.request.Destroy? {
      HeldSerial(s, h, s.helper.request.id);
    }
  }

  lemma HeldSerial(s: P.State, h: Snapshot, id: Address)
    requires P.Inv(s) && LinkedTo(s, h) && s.helper.HGot?
    ensures id in s.ptys ==> id in s.live && id in h.objects && h.objects[id].serial == s.live[id]
  {
    RegisteredIsHeld(s, h, id);
    hide P.Inv;
  }

  lemma DeletedGetFails(s: P.State, h: Snapshot)
    requires P.Inv(s) && LinkedTo(s, h) && SameDeleted(s, h) && P.Enabled(s, P.HelperGetFails)
    ensures SameDeleted(P.Step(s, P.HelperGetFails), h)
  {
    P.GetFailsDeletes(s);
    hide P.Inv, P.Enabled, P.Step;
  }

  lemma DeletedSweep(s: P.State, h: Snapshot, h': Snapshot, o: Oracle, t: Start)
    requires LinkedTo(s, h) && SameDeleted(s, h) && P.Enabled(s, P.HelperSweep) && s.helper.left <= |s.ptys|
    requires if s.helper.left > 0 then DeleteEffect(h, h', s.ptys[s.helper.left - 1], o.exit(s.helper.left - 1), t)
             else h' == h
    ensures SameDeleted(P.Step(s, P.HelperSweep), h')
  {
    hide LogoutEntries, Apply, Closed;
  }

  // ----- the answers -----

  /** What the helper handed over stays its own through every later command. */
  lemma HandedKept(ptys: seq<Address>, h: Snapshot, h': Snapshot, q: Request, out: Outcome, r: seq<Reply>, taken: bool,
                   t: Start, e: Event, r': seq<Reply>)
    requires Consistent(h, t) && CommandEffect(ptys, h, h', q, out, r, taken, t) && Handed(e, r', h)
    ensures Handed(e, r', h')
  {
    hide SessionsOk, Written, SameAccounts, ApplyAll, Appended, Apply, LoginEntry, LogoutEntries, Paired, LoggedIn,
         Closed;
    if q.Destroy? && q.id in ptys {
      HandedDelete(h, h', q.id, taken, t, e, r');
    }
  }

  lemma HandedDelete(h: Snapshot, h': Snapshot, id: Address, taken: bool, t: Start, e: Event, r: seq<Reply>)
    requires Consistent(h, t) && DeleteEffect(h, h', id, taken, t) && Handed(e, r, h)
    ensures Handed(e, r, h')
  {
    hide SessionsOk, Written, SameAccounts, ApplyAll, Appended, Apply, LogoutEntries, Paired, Closed;
  }

  /** What it has just handed over is its own. */
  lemma HandedNew(ptys: seq<Address>, h: Snapshot, h': Snapshot, e: Event, r: seq<Reply>, taken: bool, t: Start)
    requires CommandEffect(ptys, h, h', e.request, e.outcome, r, taken, t) && P.EventOk(e)
    ensures ReplyOk(e, r) && Handed(e, r, h')
  {
    hide LoginEffect, DeleteEffect, Paired;
  }

  lemma AnsweredMore(executed: seq<Event>, rs: seq<seq<Reply>>, ptys: seq<Address>, h: Snapshot, h': Snapshot, e: Event,
                     r: seq<Reply>, taken: bool, t: Start)
    requires Answered(executed, rs, h) && Consistent(h, t) && P.EventOk(e)
    requires CommandEffect(ptys, h, h', e.request, e.outcome, r, taken, t)
    ensures Answered(executed + [e], rs + [r], h')
  {
    hide Consistent, CommandEffect, Handed, ReplyOk, P.EventOk;
    HandedNew(ptys, h, h', e, r, taken, t);
    forall i | 0 <= i < |executed| ensures Handed(executed[i], rs[i], h') {
      HandedKept(ptys, h, h', e.request, e.outcome, r, taken, t, executed[i], rs[i]);
    }
  }

  lemma AnsweredSweep(executed: seq<Event>, rs: seq<seq<Reply>>, h: Snapshot, h': Snapshot, id: Address, taken: bool,
                      t: Start)
    requires Answered(executed, rs, h) && Consistent(h, t) && DeleteEffect(h, h', id, taken, t)
    ensures Answered(executed, rs, h')
  {
    hide Consistent, DeleteEffect, Handed, ReplyOk;
    forall i | 0 <= i < |executed| ensures Handed(executed[i], rs[i], h') {
      HandedDelete(h, h', id, taken, t, executed[i], rs[i]);
    }
  }

  lemma KeepAnswered(x: System, a: P.Action, y: System, o: Oracle, t: Start)
    requires Inv(x, o, t) && P.Enabled(x.protocol, a) && y.protocol == P.Step(x.protocol, a)
    requires Effect(x.protocol, a, x.helper, x.answers, y.helper, y.answers, o, t)
    ensures Answered(y.protocol.executed, y.answers, y.helper)
  {
    var s, h, n := x.protocol, x.helper, |x.answers|;
    if a.HelperAct? && P.Executes(s.helper) {
      var e := ExecutedEvent(s);
      hide P.Inv, P.Step, P.Enabled, LinkedTo, Consistent, CommandEffect, Answered, Booked;
      AnsweredMore(s.executed, x.answers, s.ptys, h, y.helper, e, y.answers[n], o.command(|s.executed|), t);
    } else if a.HelperSweep? {
      SweepTarget(s);
      SweepMoves(s);
      hide P.Inv, P.Step, P.Enabled, LinkedTo, Consistent, DeleteEffect, Answered, Booked;
      if s.helper.left > 0 {
        AnsweredSweep(s.executed, x.answers, h, y.helper, s.ptys[s.helper.left - 1], o.exit(s.helper.left - 1), t);
      }
    } else {
      Elsewhere(s, a);
      hide P.Inv, P.Step, P.Enabled, LinkedTo, Consistent, Answered, Booked;
    }
  }

  /** The event that finishing the command adds. */
  lemma ExecutedEvent(s: P.State) returns (e: Event)
    requires P.Inv(s) && P.Enabled(s, P.HelperAct) && P.Executes(s.helper)
    ensures P.Step(s, P.HelperAct).executed == s.executed + [e]
    ensures (e.request, e.outcome) == CommandOf(s.helper) && P.EventOk(e)
  {
    if s.helper.HWroteId? {
      P.PushTarget(s);
    }
    e := P.ExecutedStep(s);
    hide P.Inv, P.Step, P.Enabled;
  }

  /** Every step keeps the protocol's invariant, the helper consistent, the two linked, the ledger booked and every
      answer true. */
  lemma KeepStep(x: System, a: P.Action, y: System, o: Oracle, t: Start)
    requires Inv(x, o, t) && P.Enabled(x.protocol, a) && y.protocol == P.Step(x.protocol, a)
    requires Effect(x.protocol, a, x.helper, x.answers, y.helper, y.answers, o, t)
    ensures Inv(y, o, t)
  {
    var s, h, h' := x.protocol, x.helper, y.helper;
    KeepBooked(x, a, y, o, t);
    P.KeepStep(s, a);
    KeepAnswered(x, a, y, o, t);
    KeepDeleted(s, a, h, x.answers, h', y.answers, o, t);
    KeepLinked(s, a, h, x.answers, h', y.answers, o, t);
    hide P.Inv, LinkedTo, Consistent, Effect, P.Enabled, P.Step, Booked, Answered, SameDeleted;
    KeepConsistent(s, a, h, x.answers, h', y.answers, o, t);
  }

  lemma KeepBooked(x: System, a: P.Action, y: System, o: Oracle, t: Start)
    requires Inv(x, o, t) && P.Enabled(x.protocol, a) && y.protocol == P.Step(x.protocol, a)
    requires Effect(x.protocol, a, x.helper, x.answers, y.helper, y.answers, o, t)
    ensures Booked(y.protocol.helper, y.protocol.ptys, y.protocol.executed, y.helper.ledger, y.answers, o)
  {
    hide Inv, P.Step, P.Enabled, ActEffect, DeleteEffect, Booked, Answered;
    if a.HelperAct? && P.Executes(x.protocol.helper) {
      KeepBookedAct(x, y, o, t);
    } else if a.HelperSweep? {
      KeepBookedSweep(x, y, o, t);
    } else {
      KeepBookedElsewhere(x, a, y, o, t);
    }
  }

  // ----- over every run -----

  lemma {:induction false} Reachable(run: seq<System>, i: nat, o: Oracle, t: Start)
    requires Run(run, o, t) && i < |run| && forall fd :: fd in t.sockets ==> fd >= 0
    ensures Inv(run[i], o, t)
  {
    if i == 0 {
      InitialOk(o, t);
    } else {
      Reachable(run, i - 1, o, t);
      assert Follows(run[i - 1], run[i], o, t);
      hide Inv, P.Enabled, P.Step, Effect;
      var x, y := run[i - 1], run[i];
      var a :| && P.Enabled(x.protocol, a) && P.Step(x.protocol, a) == y.protocol
               && Effect(x.protocol, a, x.helper, x.answers, y.helper, y.answers, o, t);
      KeepStep(x, a, y, o, t);
    }
  }

  lemma InitialOk(o: Oracle, t: Start)
    requires forall fd :: fd in t.sockets ==> fd >= 0
    ensures Inv(Initial(t), o, t)
  {
    assert P.Inv(P.INITIAL) by {
      P.Reachable([P.INITIAL], 0);
    }
    hide P.Inv, Consistent;
    ConsistentAtStart(t);
  }

  lemma ConsistentAtStart(t: Start)
    requires forall fd :: fd in t.sockets ==> fd >= 0
    ensures Consistent(Initial(t).helper, t)
  {
    assert Appended([]) == [] && t.wtmp + [] == t.wtmp;
  }

  /** The protocol part of a run is a run of the protocol, so all that holds of those holds here. */
  lemma Projects(run: seq<System>, o: Oracle, t: Start)
    requires Run(run, o, t)
    ensures P.Run(seq(|run|, i requires 0 <= i < |run| => run[i].protocol))
  {
    hide P.Enabled, P.Step, Effect;
    var states := seq(|run|, i requires 0 <= i < |run| => run[i].protocol);
    forall i | 0 <= i < |states| - 1 ensures P.Follows(states[i], states[i + 1]) {
      assert Follows(run[i], run[i + 1], o, t);
    }
  }

  /** In every state of every run, whatever the proxies do meanwhile: the descriptors the helper has between two commands
      are its sockets and one master per object, no master twice; and at the head of its loop the objects are those of
      the registry. */
  lemma DescriptorsConserved(run: seq<System>, i: nat, o: Oracle, t: Start)
    requires Run(run, o, t) && i < |run| && forall fd :: fd in t.sockets ==> fd >= 0
    ensures var s, h := run[i].protocol, run[i].helper;
            && DescriptorsOk(h.objects, h.fds, t.sockets)
            && (s.helper.HGive? || s.helper.HRead? ==> forall a :: a in h.objects <==> a in s.ptys)
  {
    Reachable(run, i, o, t);
    var s, h := run[i].protocol, run[i].helper;
    if s.helper.HGive? || s.helper.HRead? {
      AtHead(s, h);
    }
    hide P.Inv, DescriptorsOk, SessionsOk, SameAccounts, Written;
  }

  lemma AtHead(s: P.State, h: Snapshot)
    requires P.Inv(s) && LinkedTo(s, h) && (s.helper.HGive? || s.helper.HRead?)
    ensures forall a :: a in h.objects <==> a in s.ptys
  {
    hide P.TokenInv, P.ExchangeInv, P.LifeInv, Replay;
    assert forall a :: a in s.ptys <==> a in Elements(s.ptys);
  }

  /** In every state of every run the calls of log_session are exactly those that the executed commands and the sweep
      ask for, the files are what they amount to, every live object is tracked and every deleted one balanced; and once
      the helper has exited, only the sockets are open and every object is deleted. */
  lemma SessionsBalanced(run: seq<System>, i: nat, o: Oracle, t: Start)
    requires Run(run, o, t) && i < |run| && forall fd :: fd in t.sockets ==> fd >= 0
    ensures var s, h, rs := run[i].protocol, run[i].helper, run[i].answers;
            && Booked(s.helper, s.ptys, s.executed, h.ledger, rs, o)
            && SessionsOk(h.objects, h.trace, t.site.sizes, h.born, h.deleted)
            && h.utmp == ApplyAll(t.utmp, h.trace) && h.wtmp == t.wtmp + Appended(h.trace)
            && Written(h.trace, h.ledger.calls, t.site)
            && (s.helper.HExited? ==>
                  && h.born == s.born && (forall k :: 0 <= k < h.born ==> Balanced(Of(h.trace, k)))
                  && (forall fd :: fd in h.fds <==> fd in t.sockets)
                  && DeadRecords(Appended(h.trace)) == ShellsLoggedOut(h.trace, h.born)
                  && (t.site.wtmpSupport && AllTaken(h.ledger.calls) ==>
                        DeadRecords(Appended(h.trace)) == ShellLogouts(h.trace, h.born)))
  {
    Reachable(run, i, o, t);
    var s, h := run[i].protocol, run[i].helper;
    if s.helper.HExited? {
      AfterExit(s, h);
      AtEnd(h, t);
    }
    hide P.Inv, DescriptorsOk, SessionsOk, SameAccounts, Written, LinkedTo, Of, Balanced, Booked;
  }

  lemma AfterExit(s: P.State, h: Snapshot)
    requires P.Inv(s) && LinkedTo(s, h) && s.helper.HExited?
    ensures h.objects == map[] && h.born == s.born
  {
    hide P.TokenInv, P.ExchangeInv, P.LifeInv, Replay;
    assert s.live.Keys == {};
    assert h.objects.Keys == {};
  }

  /** The file that an end of a pty stands for: the one the helper attached when it answered the get. */
  ghost predicate Behind(executed: seq<Event>, rs: seq<seq<Reply>>, end: P.End, file: File) {
    exists j :: 0 <= j < |executed| && j < |rs| && Attached(executed[j], rs[j], end, file)
  }

  predicate Attached(e: Event, r: seq<Reply>, end: P.End, file: File) {
    Creates(e) && e.outcome.serial == end.serial && |r| == 3 && r[if end.PtyEnd? then 1 else 2] == Descriptor(file)
  }

  /** In every run, forks included: an end stands for one file only. */
  lemma OneFileBehind(run: seq<System>, i: nat, end: P.End, f: File, g: File, o: Oracle, t: Start)
    requires Run(run, o, t) && i < |run| && forall fd :: fd in t.sockets ==> fd >= 0
    requires Behind(run[i].protocol.executed, run[i].answers, end, f)
    requires Behind(run[i].protocol.executed, run[i].answers, end, g)
    ensures f == g
  {
    var s, rs := run[i].protocol, run[i].answers;
    Projects(run, o, t);
    Ownership.ReachableHolds(seq(|run|, j requires 0 <= j < |run| => run[j].protocol), i);
    var j :| 0 <= j < |s.executed| && j < |rs| && Attached(s.executed[j], rs[j], end, f);
    var k :| 0 <= k < |s.executed| && k < |rs| && Attached(s.executed[k], rs[k], end, g);
    hide P.Inv, Run, Fresh;
    if j < k {
      FreshIncreases(s.executed, s.born, j, k);
    } else if k < j {
      FreshIncreases(s.executed, s.born, k, j);
    }
  }

  /** In every run, forks included: the two descriptors of a proxy that has an id, is not in the middle of get and has not
      begun its destructor stand for a master and the slave that belongs to it. While the helper has the object they were
      made for, that is the very master it keeps and the slave it names; and at the head of its loop it has that object
      exactly if no later command destroyed its address. */
  lemma HoldsOwnFiles(run: seq<System>, i: nat, p: ProxyId, o: Oracle, t: Start)
    returns (j: nat, master: File, slave: File)
    requires Run(run, o, t) && i < |run| && p in run[i].protocol.proxies && forall fd :: fd in t.sockets ==> fd >= 0
    requires var x := run[i].protocol.proxies[p]; x.id != 0 && !x.pc.ReadPty? && !x.pc.ReadTty? && !P.Destroying(x)
    ensures var s, h, rs := run[i].protocol, run[i].helper, run[i].answers;
            var x := s.proxies[p];
            && |rs| == |s.executed| && j < |s.executed| && P.GrantedBy(s.executed[j], x)
            && Behind(s.executed, rs, x.pty.value, master) && Behind(s.executed, rs, x.tty.value, slave)
            && slave.Device? && Paired(master, slave.path)
            && var k := s.executed[j].outcome.serial;
               && (x.id in h.objects && h.objects[x.id].serial == k ==>
                     && h.objects[x.id].pty in h.fds && h.fds[h.objects[x.id].pty] == master
                     && h.objects[x.id].name == Some(slave.path))
               && (s.helper.HGive? || s.helper.HRead? ==>
                     (x.id in h.objects && h.objects[x.id].serial == k
                      <==> forall m :: j < m < |s.executed| ==> s.executed[m].request != Destroy(x.id)))
  {
    var s, rs := run[i].protocol, run[i].answers;
    var states := seq(|run|, j requires 0 <= j < |run| => run[j].protocol);
    Projects(run, o, t);
    Reachable(run, i, o, t);
    P.RepliesPaired(states, i, p);
    j :| 0 <= j < |s.executed| && P.GrantedBy(s.executed[j], s.proxies[p]);
    if s.helper.HGive? || s.helper.HRead? {
      Ownership.GrantedIsLiveExactly(states, i, j);
      HeadHas(s, run[i].helper, s.executed[j].outcome);
    }
    hide P.Run, Run, P.Inv, LinkedTo, Consistent, Booked, Paired;
    master, slave := HandedFiles(s.executed, rs, run[i].helper, j, s.proxies[p]);
  }

  lemma HeadHas(s: P.State, h: Snapshot, out: Outcome)
    requires LinkedTo(s, h) && (s.helper.HGive? || s.helper.HRead?) && out.Created?
    ensures out.id in h.objects && h.objects[out.id].serial == out.serial
            <==> out.id in s.live && s.live[out.id] == out.serial
  {
  }

  lemma HandedFiles(executed: seq<Event>, rs: seq<seq<Reply>>, h: Snapshot, j: nat, x: P.Proxy)
    returns (master: File, slave: File)
    requires Answered(executed, rs, h) && j < |executed| && P.GrantedBy(executed[j], x)
    ensures Behind(executed, rs, x.pty.value, master) && Behind(executed, rs, x.tty.value, slave)
    ensures slave.Device? && Paired(master, slave.path)
    ensures x.id in h.objects && h.objects[x.id].serial == executed[j].outcome.serial ==>
              && h.objects[x.id].pty in h.fds && h.fds[h.objects[x.id].pty] == master
              && h.objects[x.id].name == Some(slave.path)
  {
    hide Paired;
    master, slave := rs[j][1].file, rs[j][2].file;
    assert Attached(executed[j], rs[j], x.pty.value, master) && Attached(executed[j], rs[j], x.tty.value, slave);
  }

  // ----- no step is lost -----

  lemma LoginPossible(x: Fields, pid: int, shell: bool, host: string, taken: bool, site: Site) returns (e: Entry)
    requires x.name.Some?
    ensures LoginEntry(e, x, pid, shell, host, taken, site)
  {
    e := Entry(x.serial, Fill(site, true, pid, SkipDev(x.name.value), StrNCpy(host, HOST_MAX)), shell,
               shell && site.wtmpSupport && taken);
  }

  lemma LogoutPossible(x: Fields, taken: bool, site: Site) returns (es: seq<Entry>)
    requires x.name.Some?
    ensures |es| <= 1 && LogoutEntries(es, x, taken, site)
  {
    es := if x.cmdPid == 0 then []
          else [Entry(x.serial, Fill(site, false, x.cmdPid, SkipDev(x.name.value), ""), x.loginShell,
                      x.loginShell && site.wtmpSupport && taken)];
  }

  lemma DeletePossible(h: Snapshot, id: Address, taken: bool, t: Start) returns (h': Snapshot)
    requires Consistent(h, t) && id in h.objects
    ensures DeleteEffect(h, h', id, taken, t)
  {
    NameOf(h, id, t);
    hide Consistent, LogoutEntries;
    var es := LogoutPossible(h.objects[id], taken, t.site);
    h' := AfterDelete(h, id, taken, es);
  }

  lemma NameOf(h: Snapshot, id: Address, t: Start)
    requires Consistent(h, t) && id in h.objects
    ensures h.objects[id].name.Some?
  {
    assert HoldsMaster(h.objects[id], h.fds, t.sockets);
  }

  lemma GetPossible(h: Snapshot, id: Address) returns (h': Snapshot, r: seq<Reply>)
    ensures GetEffect(h, h', id, r)
  {
    Unused(h.fds.Keys);
    var fd :| fd >= 0 && fd !in h.fds.Keys;
    var x, file := Fields(h.born, fd, -1, Some("/dev/pts/0"), 0, false), Master("/dev/pts/0");
    assert NewObject(h, x, file);
    h', r := AfterGet(h, id, x, file), Handover(id, x, file);
  }

  lemma CommandPossible(ptys: seq<Address>, h: Snapshot, q: Request, out: Outcome, taken: bool, t: Start)
    returns (h': Snapshot, r: seq<Reply>)
    requires Consistent(h, t) && (q.Destroy? && q.id in ptys ==> q.id in h.objects)
    requires q.Get? && out.Created? ==> out.serial == h.born
    ensures CommandEffect(ptys, h, h', q, out, r, taken, t)
  {
    hide Consistent, DeleteEffect, GetEffect, LoginEntry;
    h', r := h, [];
    match (q, out)
    case (Get, Created(id, k)) => h', r := GetPossible(h, id);
    case (Get, _) => h', r := AfterFailedGet(h), [Id(0)];
    case (Login(id, pid, shell, host), _) =>
      if id in ptys && id in h.objects && h.objects[id].name != Some("") {
        NameOf(h, id, t);
        var e := LoginPossible(h.objects[id], pid, shell, host, taken, t.site);
        h' := AfterLogin(h, id, pid, shell, host, taken, e);
      }
    case (Destroy(id), _) =>
      if id in ptys {
        h' := DeletePossible(h, id, taken, t);
      }
  }

  /** The helper's effects never stand in the way of a step of the protocol. */
  lemma EffectPossible(x: System, a: P.Action, o: Oracle, t: Start) returns (h': Snapshot, rs': seq<seq<Reply>>)
    requires Inv(x, o, t) && P.Enabled(x.protocol, a)
    ensures Effect(x.protocol, a, x.helper, x.answers, h', rs', o, t)
  {
    var s, h := x.protocol, x.helper;
    h', rs' := h, x.answers;
    hide P.Inv, LinkedTo, Consistent, DeleteEffect, CommandEffect, Booked, Answered;
    match a
    case HelperAct =>
      if P.Executes(s.helper) {
        var (q, out) := CommandOf(s.helper);
        Ready(s, h);
        var r;
        h', r := CommandPossible(s.ptys, h, q, out, o.command(|s.executed|), t);
        rs' := x.answers + [r];
      }
    case HelperSweep =>
      if s.helper.left > 0 {
        SweepTarget(s);
        SweepHeld(s, h);
        h' := DeletePossible(h, s.ptys[s.helper.left - 1], o.exit(s.helper.left - 1), t);
      }
    case _ =>
  }

  lemma RunMore(run: seq<System>, y: System, o: Oracle, t: Start)
    requires Run(run, o, t) && Follows(run[|run| - 1], y, o, t)
    ensures Run(run + [y], o, t)
  {
    hide Follows;
    var more := run + [y];
    forall i | 0 <= i < |more| - 1 ensures Follows(more[i], more[i + 1], o, t) {
      if i < |run| - 1 {
        assert Follows(run[i], run[i + 1], o, t);
      }
    }
  }

  /** Every run of the protocol that goes on from where a combined run has come to is the protocol part of one that goes
      on from there: what the helper has to do takes no step away from the protocol. */
  lemma {:induction false} Lifts(run: seq<System>, states: seq<P.State>, o: Oracle, t: Start) returns (more: seq<System>)
    requires Run(run, o, t) && forall fd :: fd in t.sockets ==> fd >= 0
    requires P.Run(states) && |run| <= |states| && forall i :: 0 <= i < |run| ==> run[i].protocol == states[i]
    ensures Run(more, o, t) && run <= more && |more| == |states|
    ensures forall i :: 0 <= i < |more| ==> more[i].protocol == states[i]
    decreases |states| - |run|
  {
    more := run;
    if |run| < |states| {
      var n := |run|;
      Reachable(run, n - 1, o, t);
      assert P.Follows(states[n - 1], states[n]);
      hide Inv, P.Enabled, P.Step, Effect;
      var x := run[n - 1];
      var a :| P.Enabled(states[n - 1], a) && P.Step(states[n - 1], a) == states[n];
      var h', rs' := EffectPossible(x, a, o, t);
      var y := System(states[n], h', rs');
      more := run + [y];
      assert Follows(x, y, o, t);
      RunMore(run, y, o, t);
      more := Lifts(more, states, o, t);
    }
  }

  lemma {:induction false} AnswersGrow(run: seq<System>, i: nat, j: nat, o: Oracle, t: Start)
    requires Run(run, o, t) && i <= j < |run|
    ensures run[i].answers <= run[j].answers
  {
    if i < j {
      AnswersGrow(run, i, j - 1, o, t);
      assert Follows(run[j - 1], run[j], o, t);
      hide P.Enabled, P.Step, ActEffect, DeleteEffect;
    }
  }

  /** From a state in which the clients go away, the helper has come to its exit: nothing more is executed, the objects
      left are deleted from the last registered to the first, their masters closed and their sessions logged out. */
  ghost predicate Ended(x: System, y: System, o: Oracle, t: Start) {
    && (forall i :: 0 <= i < |x.protocol.ptys| ==> x.protocol.ptys[i] in x.protocol.live)
    && y.protocol.helper.HExited? && y.protocol.executed == x.protocol.executed && y.answers == x.answers
    && y.helper.objects == map[]
    && y.helper.deleted == x.helper.deleted + FromLast(x.protocol.ptys, x.protocol.live)
    && y.helper.ledger == CloseAll(x.helper.ledger, x.protocol.ptys, o.exit)
    && (forall k :: 0 <= k < y.helper.born ==> Balanced(Of(y.helper.trace, k)))
    && (forall fd :: fd in y.helper.fds <==> fd in t.sockets)
    && DeadRecords(Appended(y.helper.trace)) == ShellsLoggedOut(y.helper.trace, y.helper.born)
    && (t.site.wtmpSupport && AllTaken(y.helper.ledger.calls) ==>
          DeadRecords(Appended(y.helper.trace)) == ShellLogouts(y.helper.trace, y.helper.born))
  }

  lemma EndedAt(x: System, y: System, o: Oracle, t: Start)
    requires Inv(x, o, t) && Inv(y, o, t) && x.protocol.helper.HRead? && x.answers <= y.answers
    requires Completion.Swept(x.protocol, y.protocol, |x.protocol.ptys|)
    ensures Ended(x, y, o, t)
  {
    AfterExit(y.protocol, y.helper);
    EndedLedger(x, y, o, t);
    EndedDeleted(x, y, o, t);
    hide P.Inv, LinkedTo, Consistent, Answered, Booked, SameDeleted, CloseAll, FromLast, Of, Balanced,
         Appended, Written, DeadRecords, AllTaken, ShellLogouts, ShellsLoggedOut, ApplyAll;
    AtEnd(y.helper, t);
  }

  lemma EndedLedger(x: System, y: System, o: Oracle, t: Start)
    requires Inv(x, o, t) && Inv(y, o, t) && x.protocol.helper.HRead? && x.answers <= y.answers
    requires Completion.Swept(x.protocol, y.protocol, |x.protocol.ptys|)
    ensures y.answers == x.answers && y.helper.ledger == CloseAll(x.helper.ledger, x.protocol.ptys, o.exit)
  {
    hide P.Inv, LinkedTo, Consistent, Answered, BookAll, CloseAll, FromLast;
  }

  lemma EndedDeleted(x: System, y: System, o: Oracle, t: Start)
    requires Inv(x, o, t) && Inv(y, o, t) && x.protocol.helper.HRead?
    requires Completion.Swept(x.protocol, y.protocol, |x.protocol.ptys|)
    ensures forall i :: 0 <= i < |x.protocol.ptys| ==> x.protocol.ptys[i] in x.protocol.live
    ensures y.helper.deleted == x.helper.deleted + FromLast(x.protocol.ptys, x.protocol.live)
  {
    hide P.Inv, LinkedTo, Consistent, Answered, Booked, FromLast;
    assert x.protocol.ptys[..|x.protocol.ptys|] == x.protocol.ptys;
    assert x.helper.deleted + [] == x.helper.deleted && y.helper.deleted + [] == y.helper.deleted;
  }

  /** Every run that comes to a state in which the clients can go away goes on to the exit of the helper, whatever is
      registered; and the registry it sweeps from the end is in order of creation. */
  lemma Exits(run: seq<System>, o: Oracle, t: Start) returns (more: seq<System>)
    requires Run(run, o, t) && forall fd :: fd in t.sockets ==> fd >= 0
    requires var s := run[|run| - 1].protocol;
             && s.helper.HRead? && s.commands == [] && forall p :: p in s.proxies ==> !P.Critical(s.proxies[p].pc)
    ensures Run(more, o, t) && run <= more && Ended(run[|run| - 1], more[|more| - 1], o, t)
    ensures InOrder(run[|run| - 1].protocol.ptys, run[|run| - 1].protocol.live)
  {
    var longer := ExitOf(run, o, t);
    more := Lifts(run, longer, o, t);
    assert more[|more| - 1].protocol == longer[|more| - 1];
    hide Run, P.Run, Ended, Completion.Swept, InOrder, P.Critical;
    EndedRun(run, more, o, t);
  }

  lemma EndedRun(run: seq<System>, more: seq<System>, o: Oracle, t: Start)
    requires Run(run, o, t) && Run(more, o, t) && run <= more && forall fd :: fd in t.sockets ==> fd >= 0
    requires var x, y := run[|run| - 1].protocol, more[|more| - 1].protocol;
             x.helper.HRead? && Completion.Swept(x, y, |x.ptys|)
    ensures Ended(run[|run| - 1], more[|more| - 1], o, t)
  {
    hide Inv, Ended, Follows, Completion.Swept;
    Reachable(run, |run| - 1, o, t);
    Reachable(more, |more| - 1, o, t);
    AnswersGrow(more, |run| - 1, |more| - 1, o, t);
    EndedAt(run[|run| - 1], more[|more| - 1], o, t);
  }

  lemma ExitOf(run: seq<System>, o: Oracle, t: Start) returns (longer: seq<P.State>)
    requires Run(run, o, t)
    requires var s := run[|run| - 1].protocol;
             && s.helper.HRead? && s.commands == [] && forall p :: p in s.proxies ==> !P.Critical(s.proxies[p].pc)
    ensures P.Run(longer) && |run| <= |longer| && forall i :: 0 <= i < |run| ==> run[i].protocol == longer[i]
    ensures var s := run[|run| - 1].protocol;
            Completion.Swept(s, longer[|longer| - 1], |s.ptys|) && InOrder(s.ptys, s.live)
  {
    var states := seq(|run|, i requires 0 <= i < |run| => run[i].protocol);
    Projects(run, o, t);
    hide P.Run, Follows, Completion.Swept, FromLast, Holdings;
    Ownership.RegistryInOrder(states, |states| - 1);
    longer := Completion.Exits(states);
    assert forall i :: 0 <= i < |run| ==> states[i] == longer[i];
  }

  lemma Ready(s: P.State, h: Snapshot)
    requires P.Inv(s) && LinkedTo(s, h) && P.Executes(s.helper)
    ensures var (q, out) := CommandOf(s.helper);
            (q.Destroy? && q.id in s.ptys ==> q.id in h.objects) && (q.Get? && out.Created? ==> out.serial == h.born)
  {
    if s.helper.HGot? && s.helper.request.Destroy? {
      RegisteredIsHeld(s, h, s.helper.request.id);
    }
    hide P.Inv;
  }

  lemma SweepHeld(s: P.State, h: Snapshot)
    requires LinkedTo(s, h) && s.helper.HSweep? && 0 < s.helper.left <= |s.ptys| && s.ptys[s.helper.left - 1] in s.live
    ensures s.ptys[s.helper.left - 1] in h.objects
  {
  }
}
