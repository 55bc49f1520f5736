/** What a proxy holds, along a run: where its descriptors come from, and what a get that fails leaves behind. */
module Proxies {
  import opened Protocol
  import opened Registry
  import opened Wrappers

  /** Some executed get made the object with this serial. */
  ghost predicate Made(executed: seq<Event>, serial: nat) {
    exists j :: 0 <= j < |executed| && Creates(executed[j]) && executed[j].outcome.serial == serial
  }

  /** A proxy holds only ends of objects that were made, wherever it is, and nothing once its destructor has begun. */
  ghost predicate HoldsMade(executed: seq<Event>, x: Proxy) {
    && (x.pty.Some? ==> x.pty.value.PtyEnd? && Made(executed, x.pty.value.serial))
    && (x.tty.Some? ==> x.tty.value.TtyEnd? && Made(executed, x.tty.value.serial))
    && (Destroying(x) ==> x.pty.None? && x.tty.None?)
  }

  ghost predicate MadeInv(s: State) {
    forall p :: p in s.proxies ==> HoldsMade(s.executed, s.proxies[p])
  }

  lemma HoldsMadeGrows(executed: seq<Event>, executed': seq<Event>, x: Proxy)
    requires executed <= executed' && HoldsMade(executed, x)
    ensures HoldsMade(executed', x)
  {
    forall k | Made(executed, k) ensures Made(executed', k) {
      var j :| 0 <= j < |executed| && Creates(executed[j]) && executed[j].outcome.serial == k;
      assert executed'[j] == executed[j];
    }
  }

  // ----- what one step changes -----

  /** Only the read of an id changes an id, only the reads of descriptors and the begin of the destructor change
      descriptors. */
  lemma ProxyChanges(s: State, a: Action, p: ProxyId)
    requires Enabled(s, a) && p in s.proxies && p in Step(s, a).proxies
    ensures var x, y := s.proxies[p], Step(s, a).proxies[p];
            && (a == Receive(p) || y.id == x.id)
            && (a == Receive(p) || (y.pty == x.pty && y.tty == x.tty)
                || (a.Begin? && a.p == p && a.request.Destroy? && y.pty == None == y.tty))
  {
    hide AfterReceive, AfterAct;
    if a.HelperAct? {
      ActKeepsProxies(s);
    }
  }

  /** Where a step takes a proxy. */
  lemma ProxyMoves(s: State, a: Action, p: ProxyId)
    requires Enabled(s, a) && p in s.proxies && p in Step(s, a).proxies
    ensures var x, y := s.proxies[p], Step(s, a).proxies[p];
            || y.pc == x.pc
            || (a.Begin? && a.p == p && x.pc.Idle? && y.pc == Need(a.request))
            || (a == Acquire(p) && x.pc.Need? && y.pc == Write(x.pc.request)
                && Step(s, a).acquired == s.acquired + [(p, x.pc.request)])
            || (a == Send(p) && x.pc.Write? && y.pc == if x.pc.request.Get? then ReadId else Give(x.pc.request))
            || (a == Receive(p) && (x.pc.ReadId? || x.pc.ReadPty? || x.pc.ReadTty?))
            || (a == Release(p) && x.pc.Give? && y.pc == Idle)
  {
    hide AfterReceive, AfterAct;
    if a.HelperAct? {
      ActKeepsProxies(s);
    }
  }

  /** A proxy that reads a descriptor reads what its own get, the last executed command, has made. */
  lemma ReadsLast(s: State, p: ProxyId)
    requires Inv(s) && Enabled(s, Receive(p)) && !s.proxies[p].pc.ReadId?
    ensures s.executed != [] && |s.executed| == |s.acquired|
    ensures var e := s.executed[|s.executed| - 1];
            && Creates(e) && e.proxy == p && s.proxies[p].id == e.outcome.id
            && s.replies[0] == FdMessage(if s.proxies[p].pc.ReadPty? then PtyEnd(e.outcome.serial)
                                         else TtyEnd(e.outcome.serial))
  {
    if s.executed != [] {
      LastWellFormed(s);
    }
    hide RegistryInv, LifeInv, Requests, Waiting, Answering, Settled;
    ReadsWhere(s, p);
    ReadsSettled(s, p, if s.helper.HSentPty? then 2 else |Answer(LastOutcome(s))|);
  }

  /** By the time a descriptor is read, the helper has finished with the command. */
  lemma ReadsWhere(s: State, p: ProxyId)
    requires Inv(s) && Enabled(s, Receive(p)) && !s.proxies[p].pc.ReadId?
    ensures s.helper.HSentPty? || s.helper.HSentTty? || s.helper.HNeed?
  {
    hide RegistryInv, LifeInv, Requests, Waiting, Answering, Settled;
    ReceiveWhere(s, p);
    if s.helper.HWroteId? || s.helper.HPushed? {
      ReadsAfter(s, p, Created(s.helper.id, s.helper.serial), 1);
    }
  }

  lemma ReadsAfter(s: State, p: ProxyId, o: Outcome, n: nat)
    requires TokenInv(s) && Enabled(s, Receive(p)) && Answering(s, o, n) && !s.proxies[p].pc.ReadId?
    ensures o.Created? && n >= 2 && s.proxies[p].id == o.id
    ensures s.replies[0] == FdMessage(if s.proxies[p].pc.ReadPty? then PtyEnd(o.serial) else TtyEnd(o.serial))
  {
    assert s.holder == Some(p);
    var c, answer := Consumed(s.proxies[p].pc, Answer(o)), Answer(o);
    assert s.replies[0] == answer[c];
    assert answer[..c][0] == answer[0];
  }

  lemma ReadsSettled(s: State, p: ProxyId, n: nat)
    requires TokenInv(s) && Enabled(s, Receive(p)) && !s.proxies[p].pc.ReadId?
    requires s.executed != [] && Settled(s.acquired, s.executed)
    requires EventOk(s.executed[|s.executed| - 1]) && Answering(s, LastOutcome(s), n)
    ensures |s.executed| == |s.acquired|
    ensures var e := s.executed[|s.executed| - 1];
            && Creates(e) && e.proxy == p && s.proxies[p].id == e.outcome.id
            && s.replies[0] == FdMessage(if s.proxies[p].pc.ReadPty? then PtyEnd(e.outcome.serial)
                                         else TtyEnd(e.outcome.serial))
  {
    AnswersCurrent(s, p, LastOutcome(s), n);
    LastIsCurrent(s);
    assert |s.executed| == |s.acquired|;
    hide Answering, Settled;
    ReadsAfter(s, p, LastOutcome(s), n);
  }

  lemma ReceivedMade(s: State, p: ProxyId)
    requires Inv(s) && Enabled(s, Receive(p)) && HoldsMade(s.executed, s.proxies[p])
    ensures HoldsMade(s.executed, Step(s, Receive(p)).proxies[p])
  {
    if !s.proxies[p].pc.ReadId? {
      ReadsLast(s, p);
      assert Made(s.executed, s.executed[|s.executed| - 1].outcome.serial);
    }
    hide Inv, Made;
  }

  lemma KeepMade(s: State, a: Action)
    requires Inv(s) && MadeInv(s) && Enabled(s, a)
    ensures MadeInv(Step(s, a))
  {
    hide Inv, HoldsMade, Enabled;
    var t := Step(s, a);
    SharedStays(s, a);
    hide Step;
    forall p | p in t.proxies ensures HoldsMade(t.executed, t.proxies[p]) {
      if p in s.proxies {
        MadeMoved(s, a, p);
        HoldsMadeGrows(s.executed, t.executed, t.proxies[p]);
      } else {
        MadeAdded(s, a, p);
        HoldsMadeGrows(s.executed, t.executed, t.proxies[p]);
      }
    }
  }

  lemma MadeMoved(s: State, a: Action, p: ProxyId)
    requires Inv(s) && Enabled(s, a) && p in s.proxies && p in Step(s, a).proxies && HoldsMade(s.executed, s.proxies[p])
    ensures HoldsMade(s.executed, Step(s, a).proxies[p])
  {
    if a == Receive(p) {
      ReceivedMade(s, p);
    } else {
      ProxyChanges(s, a, p);
      ProxyMoves(s, a, p);
    }
    hide Inv, Enabled, Step, Made;
  }

  lemma MadeAdded(s: State, a: Action, p: ProxyId)
    requires MadeInv(s) && Enabled(s, a) && p !in s.proxies && p in Step(s, a).proxies
    ensures HoldsMade(s.executed, Step(s, a).proxies[p])
  {
    hide Made, AfterAct;
    match a
    case Create(_) =>
    case Fork(q, _) =>
    case HelperAct => ActKeepsProxies(s);
    case _ =>
  }

  lemma {:induction false} ReachableMade(run: seq<State>, i: nat)
    requires Run(run) && i < |run|
    ensures Inv(run[i]) && MadeInv(run[i])
  {
    hide Inv, Enabled, Step, HoldsMade;
    Reachable(run, i);
    if i == 0 {
    } else {
      ReachableMade(run, i - 1);
      assert Follows(run[i - 1], run[i]);
      var a :| Enabled(run[i - 1], a) && Step(run[i - 1], a) == run[i];
      KeepMade(run[i - 1], a);
    }
  }

  /** Every proxy in every state, whatever its id and wherever it is: a descriptor it holds is an end, and the right one,
      of an object that some executed get made; in its destructor it holds none. */
  lemma OnlyWhatWasMade(run: seq<State>, i: nat, p: ProxyId)
    requires Run(run) && i < |run| && p in run[i].proxies
    ensures HoldsMade(run[i].executed, run[i].proxies[p])
  {
    ReachableMade(run, i);
    hide Inv, HoldsMade;
  }

  // ----- along a stretch of a run -----

  /** The proxy is there from state i to state k. */
  ghost predicate Stays(run: seq<State>, i: nat, k: nat, p: ProxyId) {
    i <= k < |run| && forall m :: i <= m <= k ==> p in run[m].proxies
  }

  /** What it holds now is what it held, or nothing, or what a get of its own has made since. */
  ghost predicate Own(executed: seq<Event>, n: nat, p: ProxyId, was: Option<End>, now: Option<End>) {
    || now == was || now == None
    || exists j :: && n <= j < |executed| && executed[j].proxy == p && Creates(executed[j])
                   && now.value.serial == executed[j].outcome.serial
  }

  ghost predicate Since(s: State, p: ProxyId, n: nat, pty: Option<End>, tty: Option<End>) {
    && p in s.proxies && n <= |s.acquired| && (Critical(s.proxies[p].pc) ==> n < |s.acquired|)
    && Own(s.executed, n, p, pty, s.proxies[p].pty) && Own(s.executed, n, p, tty, s.proxies[p].tty)
  }

  lemma OwnGrows(executed: seq<Event>, executed': seq<Event>, n: nat, p: ProxyId, was: Option<End>, now: Option<End>)
    requires executed <= executed' && Own(executed, n, p, was, now)
    ensures Own(executed', n, p, was, now)
  {
    if now != was && now != None {
      var j :| && n <= j < |executed| && executed[j].proxy == p && Creates(executed[j])
               && now.value.serial == executed[j].outcome.serial;
      assert executed'[j] == executed[j];
    }
  }

  lemma SinceReceives(s: State, p: ProxyId, n: nat, pty: Option<End>, tty: Option<End>)
    requires Inv(s) && Enabled(s, Receive(p)) && Since(s, p, n, pty, tty)
    ensures Since(Step(s, Receive(p)), p, n, pty, tty)
  {
    if !s.proxies[p].pc.ReadId? {
      ReadsLast(s, p);
    }
    hide Inv;
  }

  lemma KeepSince(s: State, a: Action, p: ProxyId, n: nat, pty: Option<End>, tty: Option<End>)
    requires Inv(s) && Enabled(s, a) && Since(s, p, n, pty, tty) && p in Step(s, a).proxies
    ensures Since(Step(s, a), p, n, pty, tty)
  {
    if a == Receive(p) {
      SinceReceives(s, p, n, pty, tty);
    } else {
      ProxyChanges(s, a, p);
      ProxyMoves(s, a, p);
      SharedStays(s, a);
      hide Inv, Enabled, Step, Own;
      OwnGrows(s.executed, Step(s, a).executed, n, p, pty, s.proxies[p].pty);
      OwnGrows(s.executed, Step(s, a).executed, n, p, tty, s.proxies[p].tty);
      OwnNothing(Step(s, a).executed, n, p, pty);
      OwnNothing(Step(s, a).executed, n, p, tty);
    }
  }

  lemma OwnNothing(executed: seq<Event>, n: nat, p: ProxyId, was: Option<End>)
    ensures Own(executed, n, p, was, None)
  {
  }

  /** From any state in which a proxy is not in its critical section: as long as it stays, whatever it does and whatever
      the others do, it holds what it held, or nothing, or what its own gets have made since. */
  lemma {:induction false} HoldsItsOwn(run: seq<State>, i: nat, k: nat, p: ProxyId)
    requires Run(run) && Stays(run, i, k, p) && !Critical(run[i].proxies[p].pc)
    ensures Since(run[k], p, |run[i].acquired|, run[i].proxies[p].pty, run[i].proxies[p].tty)
  {
    hide Inv, Enabled, Step, Since, Own;
    if i == k {
      SinceNow(run[i], p);
    } else {
      HoldsItsOwn(run, i, k - 1, p);
      Reachable(run, k - 1);
      assert Follows(run[k - 1], run[k]);
      var a :| Enabled(run[k - 1], a) && Step(run[k - 1], a) == run[k];
      KeepSince(run[k - 1], a, p, |run[i].acquired|, run[i].proxies[p].pty, run[i].proxies[p].tty);
    }
  }

  lemma SinceNow(s: State, p: ProxyId)
    requires p in s.proxies && !Critical(s.proxies[p].pc)
    ensures Since(s, p, |s.acquired|, s.proxies[p].pty, s.proxies[p].tty)
  {
  }

  /** A proxy that starts with nothing and whose gets have all failed has nothing. */
  lemma NothingFromFailedGets(run: seq<State>, i: nat, k: nat, p: ProxyId)
    requires Run(run) && Stays(run, i, k, p) && !Critical(run[i].proxies[p].pc)
    requires run[i].proxies[p].pty.None? && run[i].proxies[p].tty.None?
    requires forall j :: |run[i].executed| <= j < |run[k].executed| && run[k].executed[j].proxy == p ==>
               !run[k].executed[j].outcome.Created?
    ensures run[k].proxies[p].pty.None? && run[k].proxies[p].tty.None?
  {
    HoldsItsOwn(run, i, k, p);
    AtomicOrder(run, i);
    assert |Requests(run[i].executed)| == |run[i].executed|;
    hide Run, Requests, Replay;
  }

  /** A get that has not returned: it has read no id yet, or the null address, and changed nothing; or it has read another
      id. */
  predicate InGet(x: Proxy, pty: Option<End>, tty: Option<End>) {
    || (x.pty == pty && x.tty == tty && (x.pc == Need(Get) || x.pc == Write(Get) || x.pc.ReadId?))
    || (x.pty == pty && x.tty == tty && x.pc == Give(Get) && x.id == 0)
    || (x.id != 0 && (x.pc.ReadPty? || x.pc.ReadTty? || x.pc == Give(Get)))
    || x.pc.ProtocolError?
  }

  lemma GetGoesOn(s: State, a: Action, p: ProxyId, pty: Option<End>, tty: Option<End>)
    requires Enabled(s, a) && p in s.proxies && p in Step(s, a).proxies
    requires InGet(s.proxies[p], pty, tty) && !Step(s, a).proxies[p].pc.Idle?
    ensures InGet(Step(s, a).proxies[p], pty, tty)
  {
    if a == Receive(p) {
    } else {
      ProxyChanges(s, a, p);
      ProxyMoves(s, a, p);
      hide Enabled, Step;
    }
  }

  lemma {:induction false} WithinGet(run: seq<State>, i: nat, k: nat, p: ProxyId)
    requires Run(run) && Stays(run, i, k, p) && run[i].proxies[p].pc == Need(Get)
    requires forall m :: i <= m <= k ==> !run[m].proxies[p].pc.Idle?
    ensures InGet(run[k].proxies[p], run[i].proxies[p].pty, run[i].proxies[p].tty)
  {
    hide Enabled, Step, InGet;
    if i == k {
      assert InGet(run[i].proxies[p], run[i].proxies[p].pty, run[i].proxies[p].tty) by {
        StartsGet(run[i].proxies[p]);
      }
    } else {
      WithinGet(run, i, k - 1, p);
      assert Follows(run[k - 1], run[k]);
      var a :| Enabled(run[k - 1], a) && Step(run[k - 1], a) == run[k];
      GetGoesOn(run[k - 1], a, p, run[i].proxies[p].pty, run[i].proxies[p].tty);
    }
  }

  lemma StartsGet(x: Proxy)
    requires x.pc == Need(Get)
    ensures InGet(x, x.pty, x.tty)
  {
  }

  /** A get that reads the null address gives the token back with both descriptors as they were when it began, and the
      helper has just executed this very get, and failed. */
  lemma FailedGetKeeps(run: seq<State>, i: nat, k: nat, p: ProxyId)
    requires Run(run) && Stays(run, i, k, p) && run[i].proxies[p].pc == Need(Get)
    requires forall m :: i <= m <= k ==> !run[m].proxies[p].pc.Idle?
    requires run[k].proxies[p].pc == Give(Get) && run[k].proxies[p].id == 0
    ensures run[k].proxies[p] == run[i].proxies[p].(pc := Give(Get), id := 0)
    ensures var executed := run[k].executed;
            executed != [] && var e := executed[|executed| - 1]; e.proxy == p && e.request == Get && e.outcome.Failed?
  {
    WithinGet(run, i, k, p);
    GetReturns(run, k, p);
    hide Run;
  }

  /** Neither in get nor in the destructor. */
  predicate Settles(x: Proxy) {
    && !x.pc.ReadId? && !x.pc.ReadPty? && !x.pc.ReadTty?
    && (x.pc.Need? || x.pc.Write? || x.pc.Give? ==> x.pc.request.Login?)
  }

  /** Outside get and the destructor a proxy keeps its id and what it holds. */
  lemma {:induction false} KeepsMeanwhile(run: seq<State>, i: nat, k: nat, p: ProxyId)
    requires Run(run) && Stays(run, i, k, p) && forall m :: i <= m <= k ==> Settles(run[m].proxies[p])
    ensures run[k].proxies[p] == run[i].proxies[p].(pc := run[k].proxies[p].pc)
  {
    hide Enabled, Step, Settles;
    if i == k {
    } else {
      KeepsMeanwhile(run, i, k - 1, p);
      assert Follows(run[k - 1], run[k]);
      var a :| Enabled(run[k - 1], a) && Step(run[k - 1], a) == run[k];
      KeepsStep(run[k - 1], a, p);
    }
  }

  lemma KeepsStep(s: State, a: Action, p: ProxyId)
    requires Enabled(s, a) && p in s.proxies && p in Step(s, a).proxies
    requires Settles(s.proxies[p]) && Settles(Step(s, a).proxies[p])
    ensures Step(s, a).proxies[p] == s.proxies[p].(pc := Step(s, a).proxies[p].pc)
  {
    ProxyChanges(s, a, p);
    ProxyMoves(s, a, p);
    NoReads(s, a, p);
    hide Step, Enabled;
  }

  lemma NoReads(s: State, a: Action, p: ProxyId)
    requires Enabled(s, a) && p in s.proxies && Settles(s.proxies[p])
    ensures a != Receive(p)
    ensures a.Begin? && a.p == p ==> Step(s, a).proxies[p].pc == Need(a.request)
  {
  }
}
