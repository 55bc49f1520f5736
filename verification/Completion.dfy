/** What can always still happen: every request that waits for the token can be served, and the helper can always come to
    its exit, where it deletes what is left. */
module Completion {
  import opened Ownership
  import opened Protocol
  import opened Registry
  import opened Wrappers

  // ----- serving until the token is on offer -----

  /** One proxy, from a state to a later one between which nobody takes the token: untouched outside its critical section,
      otherwise still in it, or done with it. */
  predicate Goes(s: State, t: State, p: ProxyId)
    requires p in s.proxies
  {
    var x := s.proxies[p];
    if !Critical(x.pc) then p in t.proxies && t.proxies[p] == x
    else if p !in t.proxies then Destroying(x)
    else if t.proxies[p].pc.Idle? then !Destroying(x)
    else Critical(t.proxies[p].pc) && (Destroying(t.proxies[p]) <==> Destroying(x))
  }

  ghost predicate Onward(s: State, t: State) {
    && Serving(t) && t.acquired == s.acquired && t.shared == s.shared && s.executed <= t.executed
    && (forall p :: p in t.proxies ==> p in s.proxies)
    && (forall p :: p in s.proxies ==> Goes(s, t, p))
  }

  lemma OnwardOn(s: State, t: State, u: State)
    requires Onward(s, t) && Onward(t, u)
    ensures Onward(s, u)
  {
    forall p | p in s.proxies ensures Goes(s, u, p) {
      if p in t.proxies {
        assert Goes(s, t, p) && Goes(t, u, p);
      } else {
        assert p !in u.proxies && Goes(s, t, p);
      }
    }
  }

  lemma OnwardHere(s: State)
    requires Serving(s)
    ensures Onward(s, s)
  {
  }

  lemma ServiceGoes(s: State, a: Action)
    requires Inv(s) && Serving(s) && Service(a) && Enabled(s, a)
    ensures Onward(s, Step(s, a))
  {
    match a
    case Send(p) => SendGoes(s, p);
    case Receive(p) => ReceiveGoes(s, p);
    case Release(p) => ReleaseGoes(s, p);
    case HelperAct => ActGoes(s);
    case _ => TurnGoes(s, a);
  }

  lemma SendGoes(s: State, p: ProxyId)
    requires Serving(s) && Enabled(s, Send(p))
    ensures Onward(s, Step(s, Send(p)))
  {
  }

  lemma ReceiveGoes(s: State, p: ProxyId)
    requires Inv(s) && Serving(s) && Enabled(s, Receive(p))
    ensures Onward(s, Step(s, Receive(p)))
  {
    ReceiveLegal(s, p);
    hide Inv;
  }

  lemma ReleaseGoes(s: State, p: ProxyId)
    requires Serving(s) && Enabled(s, Release(p))
    ensures Onward(s, Step(s, Release(p)))
  {
  }

  lemma TurnGoes(s: State, a: Action)
    requires Serving(s) && Enabled(s, a)
    requires a.HelperGive? || a.HelperRead? || a.HelperNew? || a.HelperGetFails? || a.HelperNeed?
    ensures Onward(s, Step(s, a))
  {
  }

  lemma ActGoes(s: State)
    requires Serving(s) && Enabled(s, HelperAct)
    ensures Onward(s, Step(s, HelperAct))
  {
    ActKeepsProxies(s);
    ActKeepsHistory(s);
    ActServes(s);
    hide AfterAct;
  }

  lemma ActServes(s: State)
    requires Serving(s) && Enabled(s, HelperAct)
    ensures Serving(AfterAct(s))
  {
    hide Remove, IndexOf;
  }

  lemma OfferedIsQuiet(s: State)
    requires Inv(s) && Serving(s) && s.down == 1
    ensures Quiet(s) && Settled(s.acquired, s.executed) && forall p :: p in s.proxies ==> !Critical(s.proxies[p].pc)
  {
    assert |Requests(s.executed)| == |s.executed|;
    hide RegistryInv, LifeInv, Requests;
  }

  /** From every state of every run in which the helper serves, steps of helper and token holder alone lead to a state in
      which the token is on offer, the sockets are empty and all that was asked for is executed. */
  lemma {:induction false} Drain(run: seq<State>) returns (more: seq<State>)
    requires Run(run) && Serving(Last(run))
    ensures Run(more) && run <= more && Quiet(Last(more)) && Onward(Last(run), Last(more))
    decreases Rank(Last(run))
  {
    var s := Last(run);
    Reachable(run, |run| - 1);
    RankBound(s);
    if s.down == 1 {
      OfferedIsQuiet(s);
      OnwardHere(s);
      more := run;
    } else {
      var a := NeverStuck(s);
      RankStep(s, a);
      ServiceGoes(s, a);
      hide Inv, Run, Step, Onward, Enabled, Quiet;
      more := Extend(run, a);
      var t := Last(more);
      assert Serving(t) by {
        OnwardServes(s, t);
      }
      more := Drain(more);
      OnwardOn(s, t, Last(more));
    }
  }

  lemma OnwardServes(s: State, t: State)
    requires Onward(s, t)
    ensures Serving(t)
  {
  }

  /** A request that waits for the token can be served in every state of every run, whatever the other proxies have left
      in the sockets: the run goes on to a state in which it is the last executed command, and its proxy idle again, or
      gone if it was its destructor. */
  lemma RequestCompletes(run: seq<State>, p: ProxyId) returns (more: seq<State>)
    requires Run(run) && Serving(Last(run)) && p in Last(run).proxies && Last(run).proxies[p].pc.Need?
    ensures Run(more) && run <= more && Quiet(Last(more))
    ensures var r, t := Last(run).proxies[p].pc.request, Last(more);
            && |t.executed| == |Last(run).acquired| + 1
            && t.executed[|t.executed| - 1].proxy == p && t.executed[|t.executed| - 1].request == r
            && if r.Destroy? then p !in t.proxies else p in t.proxies && t.proxies[p].pc.Idle?
  {
    var s, r := Last(run), Last(run).proxies[p].pc.request;
    more := Drain(run);
    var u := Last(more);
    assert Goes(s, u, p);
    hide Run;
    more := Extend(more, Acquire(p));
    var v := Last(more);
    more := Drain(more);
    assert Goes(v, Last(more), p);
    QuietSettles(more);
    QuietHasNoneCritical(more);
    hide Onward, Step;
    LastExecuted(Last(more), (p, r));
  }

  lemma QuietSettles(run: seq<State>)
    requires Run(run) && Quiet(Last(run))
    ensures Settled(Last(run).acquired, Last(run).executed)
  {
    Reachable(run, |run| - 1);
    OfferedIsQuiet(Last(run));
    hide Inv, Run, Requests;
  }

  lemma LastExecuted(s: State, a: (ProxyId, Request))
    requires Settled(s.acquired, s.executed) && s.acquired != [] && Current(s) == a
    ensures |s.executed| == |s.acquired| && var e := s.executed[|s.executed| - 1]; (e.proxy, e.request) == a
  {
    assert |Requests(s.executed)| == |s.executed|;
    assert Requests(s.executed)[|s.executed| - 1] == a;
  }

  // ----- the exit -----

  /** The helper has come from the sweep of the first n registered objects to its exit: they, and nothing else, have been
      deleted, from the last to the first. */
  ghost predicate Swept(s: State, t: State, n: nat) {
    && n <= |s.ptys| && (forall i :: 0 <= i < n ==> s.ptys[i] in s.live)
    && t.helper.HExited? && t.live == map[]
    && t.executed == s.executed && t.ptys == s.ptys && t.born == s.born
    && t.deleted == s.deleted + FromLast(s.ptys[..n], s.live)
  }

  /** One object of the sweep. */
  ghost predicate SweepsOne(s: State, t: State, n: nat) {
    && 0 < n <= |s.ptys| && NoDuplicates(s.ptys) && (forall i :: 0 <= i < n ==> s.ptys[i] in s.live)
    && t.executed == s.executed && t.ptys == s.ptys && t.born == s.born && t.helper == HSweep(n - 1)
    && t.deleted == s.deleted + [s.live[s.ptys[n - 1]]] && t.live == s.live - {s.ptys[n - 1]}
  }

  lemma SweptOn(s: State, t: State, u: State, n: nat)
    requires SweepsOne(s, t, n) && Swept(t, u, n - 1)
    ensures Swept(s, u, n)
  {
    hide FromLast;
    FromLastStep(s.ptys, n, s.live);
    assert s.deleted + [s.live[s.ptys[n - 1]]] + FromLast(s.ptys[..n - 1], t.live)
        == s.deleted + FromLast(s.ptys[..n], s.live);
  }

  lemma {:induction false} SweepEnds(run: seq<State>, n: nat) returns (more: seq<State>)
    requires Run(run) && Last(run).helper == HSweep(n)
    ensures Run(more) && run <= more && Swept(Last(run), Last(more), n)
    decreases n
  {
    hide Inv, Follows, Step, Enabled, Swept, SweepsOne, FromLast;
    more := SweepRound(run, n);
    if n > 0 {
      var t := Last(more);
      NowAt(Last(run), t, n);
      more := SweepEnds(more, n - 1);
      SweptOn(Last(run), t, Last(more), n);
    }
  }

  lemma NowAt(s: State, t: State, n: nat)
    requires SweepsOne(s, t, n)
    ensures t.helper == HSweep(n - 1)
  {
  }

  lemma SweepRound(run: seq<State>, n: nat) returns (more: seq<State>)
    requires Run(run) && Last(run).helper == HSweep(n)
    ensures Run(more) && run <= more
    ensures if n > 0 then SweepsOne(Last(run), Last(more), n) else Swept(Last(run), Last(more), 0)
  {
    var s := Last(run);
    more := Extend(run, HelperSweep);
    hide Run, Step, Enabled, Inv, Swept, SweepsOne;
    Reachable(run, |run| - 1);
    Reachable(more, |more| - 1);
    if n > 0 {
      SweepNext(s, n);
    } else {
      SweepIsOver(s);
    }
  }

  lemma SweepNext(s: State, n: nat)
    requires Inv(s) && s.helper == HSweep(n) && n > 0
    ensures SweepsOne(s, Step(s, HelperSweep), n)
  {
    StillLive(s, n);
    hide Inv;
  }

  lemma StillLive(s: State, n: nat)
    requires Inv(s) && s.helper == HSweep(n)
    ensures n <= |s.ptys| && NoDuplicates(s.ptys) && forall i :: 0 <= i < n ==> s.ptys[i] in s.live
  {
    hide TokenInv, ExchangeInv, LifeInv, Replay;
    assert forall i :: 0 <= i < n ==> s.ptys[..n][i] in Elements(s.ptys[..n]);
  }

  lemma SweepIsOver(s: State)
    requires Inv(s) && s.helper == HSweep(0) && Inv(Step(s, HelperSweep))
    ensures Swept(s, Step(s, HelperSweep), 0)
  {
    ExitedHasNone(Step(s, HelperSweep));
    hide Inv;
    assert s.deleted + [] == s.deleted;
  }

  lemma ExitedHasNone(s: State)
    requires Inv(s) && s.helper.HExited?
    ensures s.live == map[]
  {
    hide TokenInv, ExchangeInv, LifeInv, Replay;
    assert s.live.Keys == {};
  }

  /** Every run that comes to a state in which the clients can go away goes on to the exit of the helper, whatever is
      registered: nothing more is executed, and the objects left are deleted from the last registered to the first, which
      is from the youngest to the oldest. */
  lemma Exits(run: seq<State>) returns (more: seq<State>)
    requires Run(run) && Last(run).helper.HRead? && Last(run).commands == []
    requires forall p :: p in Last(run).proxies ==> !Critical(Last(run).proxies[p].pc)
    ensures Run(more) && run <= more && Swept(Last(run), Last(more), |Last(run).ptys|)
    ensures var s := Last(run);
            var n, serials := |s.ptys|, FromLast(s.ptys, s.live);
            && Last(more).deleted == s.deleted + serials && |serials| == n
            && (forall i :: 0 <= i < n ==> s.ptys[i] in s.live)
            && (forall i :: 0 <= i < n ==> serials[i] == s.live[s.ptys[n - 1 - i]])
            && forall i, j :: 0 <= i < j < n ==> serials[i] > serials[j]
  {
    var s := Last(run);
    RegistryInOrder(run, |run| - 1);
    hide Run;
    more := Extend(run, AllGone);
    assert Last(more) == s.(proxies := map[], helper := HSweep(|s.ptys|));
    hide Step, Enabled, Holdings, FromLast;
    more := SweepEnds(more, |s.ptys|);
    assert s.ptys[..|s.ptys|] == s.ptys;
    FromLastFalls(s.ptys, s.live);
  }

  /** So every run in which the helper serves can still end with all that was asked for executed and nothing left. */
  lemma ExitStaysPossible(run: seq<State>) returns (more: seq<State>)
    requires Run(run) && Serving(Last(run))
    ensures Run(more) && run <= more && Last(more).helper.HExited? && Last(more).live == map[]
    ensures Requests(Last(more).executed) == Last(run).acquired
  {
    more := Drain(run);
    QuietSettles(more);
    QuietHasNoneCritical(more);
    hide Run, Requests, FromLast;
    more := Exits(more);
  }

  lemma QuietHasNoneCritical(run: seq<State>)
    requires Run(run) && Quiet(Last(run))
    ensures forall p :: p in Last(run).proxies ==> !Critical(Last(run).proxies[p].pc)
  {
    Reachable(run, |run| - 1);
    OfferedIsQuiet(Last(run));
    hide Inv, Run, Requests;
  }

  // ----- whole operations -----

  /** What an idle proxy may be asked to do: get and login always, its destructor if it has an id. */
  predicate MayAsk(x: Proxy, r: Request) {
    && x.pc.Idle?
    && match r
       case Get => true
       case Login(id, _, _, _) => id == x.id
       case Destroy(id) => id == x.id != 0
  }

  /** Every operation of every idle proxy can be carried through, in every state of every run. */
  lemma OperationCompletes(run: seq<State>, p: ProxyId, r: Request) returns (more: seq<State>)
    requires Run(run) && Serving(Last(run)) && p in Last(run).proxies && MayAsk(Last(run).proxies[p], r)
    ensures Run(more) && run <= more && Quiet(Last(more))
    ensures var t := Last(more);
            && |t.executed| == |Last(run).acquired| + 1
            && t.executed[|t.executed| - 1].proxy == p && t.executed[|t.executed| - 1].request == r
            && if r.Destroy? then p !in t.proxies else p in t.proxies && t.proxies[p].pc.Idle?
  {
    hide Run;
    more := Extend(run, Begin(p, r));
    hide Step;
    more := RequestCompletes(more, p);
  }

  /** Any number of proxies can come to be, by construction or by fork, while the helper serves. */
  lemma ProxiesArrive(run: seq<State>, p: ProxyId, q: ProxyId) returns (made: seq<State>, copied: seq<State>)
    requires Run(run) && Serving(Last(run)) && q !in Last(run).proxies
    ensures Run(made) && run <= made && Last(made).proxies == Last(run).proxies[q := Proxy(Idle, 0, None, None)]
    ensures p in Last(run).proxies && Last(run).proxies[p].pc.Idle? ==>
              Run(copied) && run <= copied && Last(copied).proxies == Last(run).proxies[q := Last(run).proxies[p]]
  {
    var s := Last(run);
    hide Run;
    made := Extend(run, Create(q));
    copied := run;
    if p in s.proxies && s.proxies[p].pc.Idle? {
      copied := Extend(run, Fork(p, q));
    }
  }

  /** The system may have no pty for a get: the object that was made for it is deleted again, the null address is written
      and read, and the proxy is left with what it had, but without an id. */
  lemma FailedRound(run: seq<State>, p: ProxyId, id: Address) returns (more: seq<State>)
    requires Run(run) && Quiet(Last(run)) && id != 0 && id !in Last(run).live
    requires p in Last(run).proxies && Last(run).proxies[p].pc.Idle?
    ensures Run(more) && run <= more && Quiet(Last(more))
    ensures var s := Last(run);
            Last(more) == s.(born := s.born + 1, deleted := s.deleted + [s.born],
                             proxies := s.proxies[p := s.proxies[p].(id := 0)],
                             acquired := s.acquired + [(p, Get)], executed := s.executed + [Event(p, Get, Failed)])
  {
    var s := Last(run);
    hide Run, Step;
    more := Ask(run, p, Get);
    more := Refuse(more, p, id);
    more := ReadNull(more, p);
    more := HandBack(more, p);
    assert Last(more).proxies == s.proxies[p := s.proxies[p].(id := 0)];
  }

  lemma Refuse(run: seq<State>, p: ProxyId, id: Address) returns (more: seq<State>)
    requires Run(run) && id != 0 && id !in Last(run).live
    requires var s := Last(run);
             s.helper == HGot(Get) && s.replies == [] && |s.acquired| == |s.executed| + 1 && Current(s) == (p, Get)
    ensures Run(more) && run <= more
    ensures var s := Last(run);
            Last(more) == s.(born := s.born + 1, deleted := s.deleted + [s.born], helper := HNeed,
                             executed := s.executed + [Event(p, Get, Failed)], replies := [IdMessage(0)])
  {
    var s := Last(run);
    hide Run;
    more := Extend(run, HelperNew(id));
    more := Extend(more, HelperGetFails);
    assert Last(more).live == s.live;
    more := Extend(more, HelperAct);
    assert Last(more).replies == [IdMessage(0)];
  }

  lemma ReadNull(run: seq<State>, p: ProxyId) returns (more: seq<State>)
    requires Run(run) && p in Last(run).proxies && Last(run).proxies[p].pc.ReadId? && Last(run).replies == [IdMessage(0)]
    ensures Run(more) && run <= more
    ensures var s := Last(run);
            Last(more) == s.(replies := [], proxies := s.proxies[p := s.proxies[p].(id := 0, pc := Give(Get))])
  {
    hide Run;
    more := Extend(run, Receive(p));
    assert Last(more).replies == [];
  }

  /** A client that goes away without its destructor: its pty stays registered until the helper exits, and is deleted
      then. */
  lemma AbandonedInstance(id: Address) returns (run: seq<State>)
    requires id != 0
    ensures Run(run) && Last(run).helper.HExited?
    ensures var s := Last(run);
            && s.executed == [Event(0, Get, Created(id, 0))] && s.ptys == [id] && s.proxies == map[]
            && s.live == map[] && s.deleted == [0]
  {
    run := [INITIAL];
    run := Extend(run, HelperGive);
    run := Extend(run, Create(0));
    run := GetRound(run, 0, id);
    run := Extend(run, Leave(0));
    var s := Last(run);
    assert s.ptys == [id] && s.live == map[id := 0];
    hide Run, Step;
    run := Exits(run);
    ExitedIsEmpty(run);
    assert Last(run).deleted == [0];
  }

  lemma ExitedIsEmpty(run: seq<State>)
    requires Run(run) && Last(run).helper.HExited?
    ensures Last(run).proxies == map[]
  {
    Reachable(run, |run| - 1);
    hide ExchangeInv, RegistryInv, LifeInv;
  }
}
