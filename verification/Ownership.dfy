/** Which object is behind the address a proxy holds, in every run, with forks that copy owners and addresses that are
    used again. */
module Ownership {
  import opened Protocol
  import opened Registry
  import opened Wrappers

  /** The live objects are the registered ones and the one that is being made. */
  ghost predicate Mirrors(held: map<Address, nat>, live: map<Address, nat>, extra: map<Address, nat>) {
    && (forall a :: a in held ==> a in live && live[a] == held[a] && a !in extra)
    && (forall a :: a in live ==> a in held || a in extra)
  }

  ghost predicate HoldInv(helper: HelperPc, live: map<Address, nat>, born: nat, executed: seq<Event>) {
    && (helper.HCreated? || helper.HWroteId? ==> helper.serial + 1 == born && Fresh(executed, helper.serial))
    && Fresh(executed, born)
    && (helper.HSweep? || helper.HExited? || Mirrors(Holdings(executed), live, Unregistered(helper)))
  }

  ghost predicate Holds(s: State) {
    HoldInv(s.helper, s.live, s.born, s.executed)
  }

  lemma HoldsElsewhere(s: State, a: Action)
    requires Holds(s) && Enabled(s, a) && !a.HelperAct? && !a.HelperNew? && !a.HelperGetFails?
    ensures Holds(Step(s, a))
  {
    hide Fresh, Holdings;
  }

  lemma HoldsNew(s: State, id: Address)
    requires Holds(s) && Enabled(s, HelperNew(id))
    ensures Holds(Step(s, HelperNew(id)))
  {
    hide Fresh, Holdings;
    FreshGrows(s.executed, s.born, s.born + 1);
  }

  lemma HoldsGetFails(s: State)
    requires Holds(s) && Enabled(s, HelperGetFails)
    ensures Holds(Step(s, HelperGetFails))
  {
    hide Fresh, Holdings;
    assert s.helper.id in Unregistered(s.helper);
  }

  /** A login, a failed get, and the answers to a get. */
  lemma HoldsQuiet(helper: HelperPc, helper': HelperPc, live: map<Address, nat>, born: nat, executed: seq<Event>,
                   e: Event)
    requires HoldInv(helper, live, born, executed) && !helper.HSweep? && !helper.HExited?
    requires Unregistered(helper) == map[] == Unregistered(helper') && !helper'.HCreated? && !helper'.HWroteId?
    requires !Creates(e) && !e.request.Destroy?
    ensures HoldInv(helper', live, born, executed + [e])
  {
    HoldingsStep(executed, e, born);
    hide Fresh, Holdings;
  }

  lemma HoldsDestroy(helper: HelperPc, live: map<Address, nat>, born: nat, executed: seq<Event>, e: Event)
    requires HoldInv(helper, live, born, executed) && helper.HGot? && e.request.Destroy?
    ensures HoldInv(HNeed, live - {e.request.id}, born, executed + [e])
  {
    HoldingsStep(executed, e, born);
    hide Fresh, Holdings;
  }

  lemma HoldsPush(id: Address, k: nat, live: map<Address, nat>, born: nat, executed: seq<Event>, e: Event)
    requires HoldInv(HWroteId(id, k), live, born, executed) && id in live && live[id] == k
    requires e.request == Get && e.outcome == Created(id, k)
    ensures HoldInv(HPushed(id, k), live, born, executed + [e])
  {
    HoldingsStep(executed, e, born);
    hide Fresh, Holdings;
    assert id in Unregistered(HWroteId(id, k));
  }

  lemma HoldsExecuted(s: State)
    requires Inv(s) && Holds(s) && Enabled(s, HelperAct) && Executes(s.helper)
    ensures Holds(Step(s, HelperAct))
  {
    var e := ExecutedStep(s);
    if s.helper.HWroteId? {
      PushTarget(s);
      PushStep(s);
      hide Inv, Enabled, Step, HoldInv;
      HoldsPush(s.helper.id, s.helper.serial, s.live, s.born, s.executed, e);
    } else if s.helper.HFailed? {
      OnStep(s);
      hide Inv, Enabled, Step, HoldInv;
      HoldsQuiet(s.helper, HNeed, s.live, s.born, s.executed, e);
    } else if s.helper.request.Destroy? {
      DestroyStep(s);
      RegisteredIsLive(s, e.request.id);
      hide Inv, Enabled, Step, HoldInv;
      HoldsDestroy(s.helper, s.live, s.born, s.executed, e);
    } else {
      LoginStep(s);
      hide Inv, Enabled, Step, HoldInv;
      HoldsQuiet(s.helper, HNeed, s.live, s.born, s.executed, e);
    }
  }

  lemma LoginStep(s: State)
    requires Enabled(s, HelperAct) && s.helper.HGot? && s.helper.request.Login?
    ensures var u := Step(s, HelperAct); u.helper == HNeed && u.live == s.live && u.born == s.born
  {
  }

  lemma HoldsAnswering(s: State)
    requires Holds(s) && Enabled(s, HelperAct) && !Executes(s.helper)
    ensures Holds(Step(s, HelperAct))
  {
    NotExecuting(s);
    OnStep(s);
    AnsweringStep(s);
    hide Enabled, Step, Fresh, Holdings;
  }

  lemma AnsweringStep(s: State)
    requires Enabled(s, HelperAct) && !Executes(s.helper)
    ensures var u := Step(s, HelperAct);
            u.executed == s.executed && !u.helper.HSweep? && !u.helper.HExited? && !s.helper.HSweep? && !s.helper.HExited?
            && (s.helper.HCreated? || (!u.helper.HCreated? && !u.helper.HWroteId?))
  {
  }

  lemma KeepHolds(s: State, a: Action)
    requires Inv(s) && Holds(s) && Enabled(s, a)
    ensures Holds(Step(s, a))
  {
    hide Inv, Holds, Step, Enabled;
    match a
    case HelperAct =>
      if Executes(s.helper) {
        HoldsExecuted(s);
      } else {
        HoldsAnswering(s);
      }
    case HelperNew(id) => HoldsNew(s, id);
    case HelperGetFails => HoldsGetFails(s);
    case _ => HoldsElsewhere(s, a);
  }

  lemma {:induction false} ReachableHolds(run: seq<State>, i: nat)
    requires Run(run) && i < |run|
    ensures Inv(run[i]) && Holds(run[i])
  {
    hide Inv, Enabled, Step;
    Reachable(run, i);
    if i == 0 {
    } else {
      ReachableHolds(run, i - 1);
      hide Holds;
      assert Follows(run[i - 1], run[i]);
      var a :| Enabled(run[i - 1], a) && Step(run[i - 1], a) == run[i];
      KeepHolds(run[i - 1], a);
    }
  }

  /** In every run, forks included: whatever proxy holds what the get of executed[j] made, at the head of the helper's loop
      that very object is live and registered exactly if no later command destroyed its address. */
  lemma GrantedIsLiveExactly(run: seq<State>, i: nat, j: nat)
    requires Run(run) && i < |run| && (run[i].helper.HGive? || run[i].helper.HRead?)
    requires j < |run[i].executed| && Creates(run[i].executed[j])
    ensures var s, o := run[i], run[i].executed[j].outcome;
            (o.id in s.live && s.live[o.id] == o.serial)
            <==> forall m :: j < m < |s.executed| ==> s.executed[m].request != Destroy(o.id)
    ensures run[i].executed[j].outcome.id in run[i].live ==> run[i].executed[j].outcome.id in run[i].ptys
  {
    ReachableHolds(run, i);
    var s := run[i];
    HeadIsRegistered(s);
    hide Inv, Fresh, Holdings;
    HeldExactly(s.executed, s.born, j);
  }

  lemma HeadIsRegistered(s: State)
    requires Inv(s) && (s.helper.HGive? || s.helper.HRead?)
    ensures forall id :: id in s.live <==> id in s.ptys
  {
    hide TokenInv, ExchangeInv, LifeInv, Replay;
    assert forall id :: id in s.ptys <==> id in Elements(s.ptys);
  }

  /** Every proxy that has an id, is not in the middle of get and has not begun its destructor, whoever it was copied from:
      the object it was given is live exactly if nobody has destroyed its address since. */
  lemma HolderIsLiveExactly(run: seq<State>, i: nat, p: ProxyId) returns (j: nat)
    requires Run(run) && i < |run| && (run[i].helper.HGive? || run[i].helper.HRead?) && p in run[i].proxies
    requires var x := run[i].proxies[p]; x.id != 0 && !x.pc.ReadPty? && !x.pc.ReadTty? && !Destroying(x)
    ensures var s, x := run[i], run[i].proxies[p];
            && j < |s.executed| && GrantedBy(s.executed[j], x)
            && (x.id in s.live && s.live[x.id] == s.executed[j].outcome.serial
                <==> forall m :: j < m < |s.executed| ==> s.executed[m].request != Destroy(x.id))
  {
    RepliesPaired(run, i, p);
    var s, x := run[i], run[i].proxies[p];
    j :| 0 <= j < |s.executed| && GrantedBy(s.executed[j], x);
    GrantedIsLiveExactly(run, i, j);
  }

  /** In every state of every run the registry is in the order in which its objects were made; while the helper serves,
      these are the live objects behind its addresses. */
  lemma RegistryInOrder(run: seq<State>, i: nat)
    requires Run(run) && i < |run|
    ensures InOrder(run[i].ptys, Holdings(run[i].executed))
    ensures Serving(run[i]) ==> InOrder(run[i].ptys, run[i].live)
  {
    ReachableHolds(run, i);
    var s := run[i];
    AtomicOrder(run, i);
    hide Inv, Fresh, Holdings, Replay;
    ReplayInOrder(s.executed, s.born);
  }

  // ---- an address used again ----

  function Last(run: seq<State>): State
    requires run != []
  {
    run[|run| - 1]
  }

  lemma Extend(run: seq<State>, a: Action) returns (more: seq<State>)
    requires Run(run) && Enabled(Last(run), a)
    ensures Run(more) && run <= more && Last(more) == Step(Last(run), a)
  {
    more := run + [Step(Last(run), a)];
    forall i | 0 <= i < |more| - 1 ensures Follows(more[i], more[i + 1]) {
      if i < |run| - 1 {
        assert Follows(run[i], run[i + 1]);
      } else {
        assert Enabled(more[i], a) && Step(more[i], a) == more[i + 1];
      }
    }
  }

  /** The token is on offer and nobody is using the sockets. */
  predicate Quiet(s: State) {
    && s.helper.HRead? && s.down == 1 && s.up == 0 && s.commands == [] && s.replies == [] && s.holder.None?
    && |s.acquired| == |s.executed|
  }

  /** From the beginning of an operation until the helper has read its command. */
  lemma Ask(run: seq<State>, p: ProxyId, r: Request) returns (more: seq<State>)
    requires Run(run) && Quiet(Last(run)) && Enabled(Last(run), Begin(p, r))
    ensures Run(more) && run <= more
    ensures var s, x := Last(run), Last(run).proxies[p];
            var y := if r.Destroy? then x.(pty := None, tty := None) else x;
            Last(more) == s.(down := 0, holder := Some(p), acquired := s.acquired + [(p, r)], helper := HGot(r),
                             proxies := s.proxies[p := y.(pc := if r.Get? then ReadId else Give(r))])
  {
    var s := Last(run);
    hide Run;
    more := Extend(run, Begin(p, r));
    more := Extend(more, Acquire(p));
    more := Extend(more, Send(p));
    more := Extend(more, HelperRead);
    assert Last(more).commands == [];
  }

  /** The helper makes an object, and writes its address. */
  lemma Make(run: seq<State>, p: ProxyId, id: Address) returns (more: seq<State>)
    requires Run(run) && id != 0 && id !in Last(run).live
    requires var s := Last(run);
             s.helper == HGot(Get) && s.replies == [] && |s.acquired| == |s.executed| + 1 && Current(s) == (p, Get)
    ensures Run(more) && run <= more
    ensures var s, k := Last(run), Last(run).born;
            Last(more) == s.(ptys := s.ptys + [id], live := s.live[id := k], born := k + 1, helper := HPushed(id, k),
                             executed := s.executed + [Event(p, Get, Created(id, k))], replies := [IdMessage(id)])
  {
    var k := Last(run).born;
    hide Run;
    more := Extend(run, HelperNew(id));
    more := Extend(more, HelperAct);
    assert Last(more).helper == HWroteId(id, k) && Last(more).replies == [IdMessage(id)];
    more := Extend(more, HelperAct);
  }

  /** The helper sends both descriptors. */
  lemma SendBoth(run: seq<State>, id: Address, k: nat) returns (more: seq<State>)
    requires Run(run) && Last(run).helper == HPushed(id, k) && Last(run).replies == [IdMessage(id)]
    ensures Run(more) && run <= more
    ensures Last(more) == Last(run).(helper := HNeed,
                                     replies := [IdMessage(id), FdMessage(PtyEnd(k)), FdMessage(TtyEnd(k))])
  {
    hide Run;
    more := Extend(run, HelperAct);
    more := Extend(more, HelperAct);
    more := Extend(more, HelperAct);
    assert Last(more).replies == [IdMessage(id), FdMessage(PtyEnd(k)), FdMessage(TtyEnd(k))];
  }

  /** The proxy reads the answer. */
  lemma Take(run: seq<State>, p: ProxyId, id: Address, k: nat) returns (more: seq<State>)
    requires Run(run) && id != 0 && p in Last(run).proxies && Last(run).proxies[p].pc.ReadId?
    requires Last(run).replies == [IdMessage(id), FdMessage(PtyEnd(k)), FdMessage(TtyEnd(k))]
    ensures Run(more) && run <= more
    ensures var s := Last(run);
            Last(more) == s.(replies := [],
                             proxies := s.proxies[p := Proxy(Give(Get), id, Some(PtyEnd(k)), Some(TtyEnd(k)))])
  {
    hide Run;
    more := Extend(run, Receive(p));
    assert Last(more).replies == [FdMessage(PtyEnd(k)), FdMessage(TtyEnd(k))];
    more := Extend(more, Receive(p));
    assert Last(more).replies == [FdMessage(TtyEnd(k))];
    more := Extend(more, Receive(p));
    assert Last(more).replies == [];
  }

  /** The token goes round once more. */
  lemma HandBack(run: seq<State>, p: ProxyId) returns (more: seq<State>)
    requires Run(run) && p in Last(run).proxies && Last(run).proxies[p].pc.Give?
    requires var s := Last(run);
             && s.helper.HNeed? && s.down == 0 && s.up == 0 && s.commands == [] && s.replies == []
             && |s.acquired| == |s.executed|
    ensures Run(more) && run <= more && Quiet(Last(more))
    ensures var s := Last(run);
            Last(more) == s.(down := 1, holder := None, helper := HRead,
                             proxies := if s.proxies[p].pc.request.Destroy? then s.proxies - {p}
                                        else s.proxies[p := s.proxies[p].(pc := Idle)])
  {
    hide Run;
    more := Extend(run, Release(p));
    more := Extend(more, HelperNeed);
    more := Extend(more, HelperGive);
  }

  /** A whole get, by a proxy that has nothing yet. */
  lemma GetRound(run: seq<State>, p: ProxyId, id: Address) returns (more: seq<State>)
    requires Run(run) && Quiet(Last(run)) && id != 0 && id !in Last(run).live
    requires p in Last(run).proxies && Last(run).proxies[p].pc.Idle?
    ensures Run(more) && run <= more && Quiet(Last(more))
    ensures var s, k := Last(run), Last(run).born;
            Last(more) == s.(ptys := s.ptys + [id], live := s.live[id := k], born := k + 1,
                             proxies := s.proxies[p := Proxy(Idle, id, Some(PtyEnd(k)), Some(TtyEnd(k)))],
                             acquired := s.acquired + [(p, Get)],
                             executed := s.executed + [Event(p, Get, Created(id, k))])
  {
    var s, k := Last(run), Last(run).born;
    hide Run, Step;
    more := Ask(run, p, Get);
    more := Make(more, p, id);
    more := SendBoth(more, id, k);
    more := Take(more, p, id, k);
    more := HandBack(more, p);
    assert Last(more).proxies == s.proxies[p := Proxy(Idle, id, Some(PtyEnd(k)), Some(TtyEnd(k)))];
  }

  /** A whole destructor. */
  lemma DestroyRound(run: seq<State>, p: ProxyId) returns (more: seq<State>)
    requires Run(run) && Quiet(Last(run)) && p in Last(run).proxies
    requires Last(run).proxies[p].pc.Idle? && Last(run).proxies[p].id != 0
    ensures Run(more) && run <= more && Quiet(Last(more))
    ensures var s, id := Last(run), Last(run).proxies[p].id;
            && Last(more).ptys == Remove(s.ptys, id) && Last(more).proxies == s.proxies - {p}
            && Last(more).live == (if id in s.ptys then s.live - {id} else s.live)
            && Last(more).born == s.born && Last(more).shared == s.shared
            && Last(more).executed == s.executed + [Event(p, Destroy(id), Done)]
  {
    var s, id := Last(run), Last(run).proxies[p].id;
    hide Run, Remove, IndexOf;
    more := Ask(run, p, Destroy(id));
    more := Extend(more, HelperAct);
    assert Last(more).helper == HNeed;
    hide Step;
    more := HandBack(more, p);
    assert Last(more).proxies == s.proxies - {p};
  }

  /** What a fork of an owner can do to somebody else. Proxy 0 gets a pty at id, a fork copies it to proxy 1, and proxy 0
      destroys it. The address is used again for proxy 2, which no fork has ever copied; then proxy 1 destroys its own
      stale id, and the pty of proxy 2 is deleted under it. */
  lemma ReuseInstance(id: Address) returns (run: seq<State>)
    requires id != 0
    ensures Run(run)
    ensures var s := Last(run);
            && Quiet(s) && 2 in s.proxies && s.proxies[2] == Proxy(Idle, id, Some(PtyEnd(1)), Some(TtyEnd(1)))
            && s.executed == [Event(0, Get, Created(id, 0)), Event(0, Destroy(id), Done),
                              Event(2, Get, Created(id, 1)), Event(1, Destroy(id), Done)]
            && Owns(s.proxies[2]) && GrantedBy(s.executed[2], s.proxies[2])
            && s.ptys == [] && s.live == map[] && s.shared == {id}
  {
    run := ReuseFork(id);
    run := ReuseAgain(run, id);
    var s := Last(run);
    run := DestroyRound(run, 1);
    RemoveOnly(id);
    hide Run, Step;
    assert Last(run).live == map[];
  }

  lemma ReuseFork(id: Address) returns (run: seq<State>)
    requires id != 0
    ensures Run(run)
    ensures var s := Last(run);
            && Quiet(s) && s.ptys == [] && s.live == map[] && s.born == 1 && s.shared == {id}
            && s.proxies == map[1 := Proxy(Idle, id, Some(PtyEnd(0)), Some(TtyEnd(0)))]
            && s.executed == [Event(0, Get, Created(id, 0)), Event(0, Destroy(id), Done)]
  {
    run := [INITIAL];
    run := Extend(run, HelperGive);
    run := Extend(run, Create(0));
    run := GetRound(run, 0, id);
    run := Extend(run, Fork(0, 1));
    assert Last(run).ptys == [id];
    run := DestroyRound(run, 0);
    RemoveOnly(id);
    hide Run, Step;
    assert Last(run).live == map[];
    assert Last(run).proxies == map[1 := Proxy(Idle, id, Some(PtyEnd(0)), Some(TtyEnd(0)))];
  }

  lemma ReuseAgain(run: seq<State>, id: Address) returns (more: seq<State>)
    requires Run(run) && id != 0
    requires var s := Last(run);
             && Quiet(s) && s.ptys == [] && s.live == map[] && s.born == 1 && s.shared == {id}
             && s.proxies == map[1 := Proxy(Idle, id, Some(PtyEnd(0)), Some(TtyEnd(0)))]
             && s.executed == [Event(0, Get, Created(id, 0)), Event(0, Destroy(id), Done)]
    ensures Run(more)
    ensures var s := Last(more);
            && Quiet(s) && s.ptys == [id] && s.live == map[id := 1] && s.born == 2 && s.shared == {id}
            && s.proxies == map[1 := Proxy(Idle, id, Some(PtyEnd(0)), Some(TtyEnd(0))),
                                2 := Proxy(Idle, id, Some(PtyEnd(1)), Some(TtyEnd(1)))]
            && s.executed == [Event(0, Get, Created(id, 0)), Event(0, Destroy(id), Done), Event(2, Get, Created(id, 1))]
  {
    hide Run;
    more := Extend(run, Create(2));
    more := GetRound(more, 2, id);
  }

  lemma RemoveOnly(id: Address)
    ensures Remove([id], id) == []
  {
  }
}
