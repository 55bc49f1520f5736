/** The token and command protocol of src/proxy.C (the reentrant build) as a transition system: any number of proxies, in
    any number of processes, share one command socket and one token socket with the helper. Every send, receive and
    local act is one step, and steps interleave freely. */
module Protocol {
  import opened Registry
  import opened Wrappers

  /** The open file behind a descriptor: the two ends of the pty made for an object. */
  datatype End = PtyEnd(serial: nat) | TtyEnd(serial: nat)

  /** What the helper writes: a raw id, or a byte with a descriptor attached. */
  datatype Message = IdMessage(id: Address) | FdMessage(file: End)

  /** Where a proxy is in ptytty_proxy::get, login or the destructor. */
  datatype ProxyPc =
    | Idle
    | Need(request: Request)  // about to NEED_TOKEN
    | Write(request: Request) // holds the token, has not written yet
    | ReadId
    | ReadPty
    | ReadTty
    | Give(request: Request)  // about to GIVE_TOKEN
    | ProtocolError           // the exception of get

  datatype Proxy = Proxy(pc: ProxyPc, id: Address, pty: Option<End>, tty: Option<End>)

  /** Where the helper is in serve. */
  datatype HelperPc =
    | HGive
    | HRead
    | HGot(request: Request)
    | HCreated(id: Address, serial: nat) // new ptytty_unix, get not called yet
    | HFailed                            // get failed, the object is deleted
    | HWroteId(id: Address, serial: nat)
    | HPushed(id: Address, serial: nat)
    | HSentPty(id: Address, serial: nat)
    | HSentTty(id: Address, serial: nat)
    | HNeed
    | HSweep(left: nat)
    | HExited

  /** Two token channels (their bytes are all alike, so a count), two data channels, the helper, the proxies; and, for
      the statements only, the history: who holds the token, the requests in the order the token was acquired for
      them, the commands in the order the helper executed them, the serials given and taken, and the ids of the
      proxies that a fork has ever copied. */
  datatype State = State(
    down: nat, up: nat,
    commands: seq<Request>, replies: seq<Message>,
    helper: HelperPc, ptys: seq<Address>, live: map<Address, nat>,
    proxies: map<ProxyId, Proxy>,
    holder: Option<ProxyId>, acquired: seq<(ProxyId, Request)>, executed: seq<Event>,
    born: nat, deleted: seq<nat>, shared: set<Address>)

  const INITIAL := State(0, 0, [], [], HGive, [], map[], map[], None, [], [], 0, [], {})

  datatype Action =
    | Create(p: ProxyId)
    | Fork(p: ProxyId, q: ProxyId)
    | Leave(p: ProxyId)
    | Begin(p: ProxyId, request: Request)
    | Acquire(p: ProxyId)
    | Send(p: ProxyId)
    | Receive(p: ProxyId)
    | Release(p: ProxyId)
    | HelperGive
    | HelperRead
    | HelperNew(id: Address)
    | HelperGetFails
    | HelperAct
    | HelperNeed
    | AllGone
    | HelperSweep

  predicate Critical(pc: ProxyPc) {
    pc.Write? || pc.ReadId? || pc.ReadPty? || pc.ReadTty? || pc.Give?
  }

  predicate Enabled(s: State, a: Action) {
    match a
    case Create(p) => p !in s.proxies && Serving(s)
    case Fork(p, q) => p in s.proxies && s.proxies[p].pc.Idle? && q !in s.proxies
    case Leave(p) => p in s.proxies && s.proxies[p].pc.Idle?
    case Begin(p, r) =>
      p in s.proxies && s.proxies[p].pc.Idle?
      && (r.Login? ==> r.id == s.proxies[p].id)
      && (r.Destroy? ==> r.id == s.proxies[p].id != 0)
    case Acquire(p) => p in s.proxies && s.proxies[p].pc.Need? && s.down > 0
    case Send(p) => p in s.proxies && s.proxies[p].pc.Write?
    case Receive(p) =>
      p in s.proxies && s.replies != []
      && (s.proxies[p].pc.ReadId? || s.proxies[p].pc.ReadPty? || s.proxies[p].pc.ReadTty?)
    case Release(p) => p in s.proxies && s.proxies[p].pc.Give?
    case HelperGive => s.helper.HGive?
    case HelperRead => s.helper.HRead? && s.commands != []
    case HelperNew(id) => s.helper == HGot(Get) && id != 0 && id !in s.live
    case HelperGetFails => s.helper.HCreated?
    case HelperAct =>
      || (s.helper.HGot? && !s.helper.request.Get?)
      || s.helper.HCreated? || s.helper.HFailed? || s.helper.HWroteId?
      || s.helper.HPushed? || s.helper.HSentPty? || s.helper.HSentTty?
    case HelperNeed => s.helper.HNeed? && s.up > 0
    case AllGone => s.helper.HRead? && s.commands == [] && forall p :: p in s.proxies ==> !Critical(s.proxies[p].pc)
    case HelperSweep => s.helper.HSweep?
  }

  predicate Serving(s: State) {
    !s.helper.HSweep? && !s.helper.HExited?
  }

  /** Deleting the object at id: its serial is taken, the address is free again. */
  function Delete(s: State, id: Address): State {
    if id in s.live then s.(live := s.live - {id}, deleted := s.deleted + [s.live[id]]) else s
  }

  /** The event that executing the current command amounts to; the history supplies whose command it is. */
  function Log(s: State, r: Request, o: Outcome): State {
    var who := if |s.executed| < |s.acquired| then s.acquired[|s.executed|].0 else 0;
    s.(executed := s.executed + [Event(who, r, o)])
  }

  /** One read of the proxy: the id, then the two descriptors. */
  function AfterReceive(x: Proxy, m: Message): Proxy {
    match (x.pc, m)
    case (ReadId, IdMessage(id)) => x.(id := id, pc := if id == 0 then Give(Get) else ReadPty)
    case (ReadPty, FdMessage(f)) => x.(pty := Some(f), pc := ReadTty)
    case (ReadTty, FdMessage(f)) => x.(tty := Some(f), pc := Give(Get))
    case _ => x.(pc := ProtocolError)
  }

  /** One step of the helper between reading a command and NEED_TOKEN. */
  function AfterAct(s: State): State {
    match s.helper
    case HGot(Login(id, pid, shell, host)) => Log(s, s.helper.request, Done).(helper := HNeed)
    case HGot(Destroy(id)) =>
      var t := Log(s, s.helper.request, Done).(helper := HNeed);
      if id in s.ptys then Delete(t, id).(ptys := Remove(s.ptys, id)) else t
    case HCreated(id, k) => s.(replies := s.replies + [IdMessage(id)], helper := HWroteId(id, k))
    case HFailed => Log(s, Get, Failed).(replies := s.replies + [IdMessage(0)], helper := HNeed)
    case HWroteId(id, k) => Log(s, Get, Created(id, k)).(ptys := s.ptys + [id], helper := HPushed(id, k))
    case HPushed(id, k) => s.(replies := s.replies + [FdMessage(PtyEnd(k))], helper := HSentPty(id, k))
    case HSentPty(id, k) => s.(replies := s.replies + [FdMessage(TtyEnd(k))], helper := HSentTty(id, k))
    case HSentTty(id, k) => s.(helper := HNeed) // close_tty
    case _ => s
  }

  function Put(s: State, p: ProxyId, x: Proxy): State {
    s.(proxies := s.proxies[p := x])
  }

  function Step(s: State, a: Action): State
    requires Enabled(s, a)
  {
    match a
    case Create(p) => Put(s, p, Proxy(Idle, 0, None, None))
    case Fork(p, q) =>
      var x := s.proxies[p];
      Put(s, q, x).(shared := if x.id != 0 then s.shared + {x.id} else s.shared)
    case Leave(p) => s.(proxies := s.proxies - {p})
    case Begin(p, r) =>
      var x := s.proxies[p].(pc := Need(r));
      // the destructor closes its descriptors first
      Put(s, p, if r.Destroy? then x.(pty := None, tty := None) else x)
    case Acquire(p) =>
      var r := s.proxies[p].pc.request;
      Put(s, p, s.proxies[p].(pc := Write(r)))
      .(down := s.down - 1, holder := Some(p), acquired := s.acquired + [(p, r)])
    case Send(p) =>
      var r := s.proxies[p].pc.request;
      Put(s, p, s.proxies[p].(pc := if r.Get? then ReadId else Give(r))).(commands := s.commands + [r])
    case Receive(p) => Put(s, p, AfterReceive(s.proxies[p], s.replies[0])).(replies := s.replies[1..])
    case Release(p) =>
      var t := if s.proxies[p].pc.request.Destroy? then s.(proxies := s.proxies - {p})
               else Put(s, p, s.proxies[p].(pc := Idle));
      t.(up := s.up + 1, holder := None)
    case HelperGive => s.(down := s.down + 1, helper := HRead)
    case HelperRead => s.(commands := s.commands[1..], helper := HGot(s.commands[0]))
    case HelperNew(id) => s.(live := s.live[id := s.born], born := s.born + 1, helper := HCreated(id, s.born))
    case HelperGetFails => Delete(s, s.helper.id).(helper := HFailed)
    case HelperAct => AfterAct(s)
    case HelperNeed => s.(up := s.up - 1, helper := HGive)
    case AllGone => s.(proxies := map[], helper := HSweep(|s.ptys|))
    case HelperSweep =>
      var n := s.helper.left;
      if n == 0 then s.(helper := HExited)
      else (if n <= |s.ptys| then Delete(s, s.ptys[n - 1]) else s).(helper := HSweep(n - 1))
  }

  /** A run: from the initial state, every state follows from the one before by some enabled step. */
  ghost predicate Run(run: seq<State>) {
    && run != [] && run[0] == INITIAL
    && forall i :: 0 <= i < |run| - 1 ==> Follows(run[i], run[i + 1])
  }

  ghost predicate Follows(s: State, t: State) {
    exists a :: Enabled(s, a) && Step(s, a) == t
  }

  // ---- the invariant ----

  /** Exactly one token: in a channel, with the helper, or with the one proxy that is in its critical section. */
  ghost predicate TokenInv(s: State) {
    && (forall p :: p in s.proxies ==> (Critical(s.proxies[p].pc) <==> s.holder == Some(p)))
    && (s.holder.Some? ==> s.holder.value in s.proxies)
    && s.down + s.up + (if s.helper.HGive? then 1 else 0) + (if s.holder.Some? then 1 else 0) == 1
    && (s.down == 1 ==> s.helper.HRead? || !Serving(s))
    && (!Serving(s) ==> s.down == 1 && s.proxies == map[])
  }

  /** The requests of a history, with the proxies that made them. */
  function Requests(es: seq<Event>): seq<(ProxyId, Request)> {
    seq(|es|, i requires 0 <= i < |es| => (es[i].proxy, es[i].request))
  }

  /** Everything the helper writes in answer to a command with this outcome. */
  function Answer(o: Outcome): seq<Message> {
    match o
    case Created(id, k) => [IdMessage(id), FdMessage(PtyEnd(k)), FdMessage(TtyEnd(k))]
    case Failed => [IdMessage(0)]
    case Done => []
  }

  /** The last request the token was acquired for. */
  function Current(s: State): (ProxyId, Request)
    requires s.acquired != []
  {
    s.acquired[|s.acquired| - 1]
  }

  /** Every request that got the token has been executed. */
  ghost predicate Settled(acquired: seq<(ProxyId, Request)>, executed: seq<Event>) {
    acquired == Requests(executed)
  }

  /** Every one but the last. */
  ghost predicate Pending(acquired: seq<(ProxyId, Request)>, executed: seq<Event>) {
    acquired != [] && acquired == Requests(executed) + [acquired[|acquired| - 1]]
  }

  function LastOutcome(s: State): Outcome
    requires s.executed != []
  {
    s.executed[|s.executed| - 1].outcome
  }

  /** The number of messages of the answer the proxy has read, by where it is. */
  function Consumed(pc: ProxyPc, answer: seq<Message>): nat {
    match pc
    case ReadPty => 1
    case ReadTty => 2
    case Give(_) => |answer|
    case _ => 0
  }

  /** The fields of the proxy are what it has read. */
  ghost predicate HasRead(x: Proxy, read: seq<Message>) {
    && (|read| >= 1 ==> read[0] == IdMessage(x.id))
    && (|read| >= 2 ==> x.pty.Some? && read[1] == FdMessage(x.pty.value))
    && (|read| >= 3 ==> x.tty.Some? && read[2] == FdMessage(x.tty.value))
  }

  /** The helper has written the first n messages of the answer to the current request. The proxy reads them in step
      and keeps the token until it has read all; if it has given the token, nothing is left in the socket. */
  ghost predicate Answering(s: State, o: Outcome, n: nat) {
    && s.acquired != [] && s.commands == []
    && var (p, r) := Current(s);
       var answer := Answer(o);
       && n <= |answer| && (r.Get? <==> !o.Done?) && (o.Created? ==> o.id != 0)
       && if s.holder.None? then
            s.up == 1 && n == |answer| && s.replies == []
          else
            && s.holder == Some(p) && p in s.proxies
            && var x := s.proxies[p];
               var c := Consumed(x.pc, answer);
               && c <= n && s.replies == answer[c..n] && HasRead(x, answer[..c])
               && match x.pc
                  case ReadId => r.Get?
                  case ReadPty | ReadTty => r.Get? && o.Created?
                  case Give(q) => q == r
                  case _ => false
  }

  /** The current command has been sent, or read by the helper, and nothing has been answered. */
  ghost predicate Waiting(s: State) {
    && Pending(s.acquired, s.executed) && s.replies == []
    && var (p, r) := Current(s);
       if s.holder.None? then s.up == 1 && !r.Get?
       else s.holder == Some(p) && p in s.proxies && s.proxies[p].pc == if r.Get? then ReadId else Give(r)
  }

  /** What the sockets hold, by where the helper is. */
  ghost predicate ExchangeInv(s: State) {
    match s.helper
    case HGive => Settled(s.acquired, s.executed) && s.commands == [] && s.replies == []
    case HRead =>
      if s.commands != [] then Waiting(s) && s.commands == [Current(s).1]
      else
        && s.replies == [] && s.up == 0
        && if s.holder.None? then Settled(s.acquired, s.executed)
           else
             && Pending(s.acquired, s.executed) && Current(s).0 == s.holder.value
             && s.holder.value in s.proxies && s.proxies[s.holder.value].pc == Write(Current(s).1)
    case HGot(r) => Waiting(s) && s.commands == [] && r == Current(s).1
    case HCreated(id, k) => Waiting(s) && s.commands == [] && Current(s).1.Get?
    case HFailed => Waiting(s) && s.commands == [] && Current(s).1.Get?
    case HWroteId(id, k) => Pending(s.acquired, s.executed) && Answering(s, Created(id, k), 1)
    case HPushed(id, k) =>
      && Settled(s.acquired, s.executed) && s.executed != [] && LastOutcome(s) == Created(id, k)
      && Answering(s, Created(id, k), 1)
    case HSentPty(id, k) =>
      && Settled(s.acquired, s.executed) && s.executed != [] && LastOutcome(s) == Created(id, k)
      && Answering(s, Created(id, k), 2)
    case HSentTty(id, k) =>
      && Settled(s.acquired, s.executed) && s.executed != [] && LastOutcome(s) == Created(id, k)
      && Answering(s, Created(id, k), 3)
    case HNeed =>
      && Settled(s.acquired, s.executed) && s.executed != []
      && Answering(s, LastOutcome(s), |Answer(LastOutcome(s))|)
    case _ => Settled(s.acquired, s.executed) && s.commands == [] && s.replies == []
  }

  /** The object the helper has made but not registered yet. */
  function Unregistered(helper: HelperPc): map<Address, nat> {
    match helper
    case HCreated(id, k) => map[id := k]
    case HWroteId(id, k) => map[id := k]
    case _ => map[]
  }

  /** The addresses whose objects are still to be deleted: the registry, or what the exit sweep has not reached. */
  function Remaining(helper: HelperPc, ptys: seq<Address>): seq<Address> {
    match helper
    case HSweep(left) => if left <= |ptys| then ptys[..left] else ptys
    case HExited => []
    case _ => ptys
  }

  /** The registry is what replaying the executed commands gives, it has no duplicates, and it names exactly the live
      objects, save the one being made. */
  ghost predicate RegistryInv(helper: HelperPc, ptys: seq<Address>, live: map<Address, nat>, executed: seq<Event>) {
    && ptys == Replay(executed) && NoDuplicates(ptys)
    && live.Keys == Elements(Remaining(helper, ptys)) + Unregistered(helper).Keys
    && (forall id :: id in Unregistered(helper) ==> id !in ptys && live[id] == Unregistered(helper)[id])
    && 0 !in live
    && (helper.HSweep? ==> helper.left <= |ptys|)
    && (forall i :: 0 <= i < |executed| ==> EventOk(executed[i]))
  }

  ghost predicate EventOk(e: Event) {
    (e.request.Get? <==> !e.outcome.Done?) && (e.outcome.Created? ==> e.outcome.id != 0)
  }

  /** Every object ever created is either live, at one address, or was deleted, once. */
  ghost predicate LifeInv(live: map<Address, nat>, born: nat, deleted: seq<nat>) {
    && (forall a :: a in live ==> live[a] < born && live[a] !in deleted)
    && (forall a, b :: a in live && b in live && a != b ==> live[a] != live[b])
    && (forall i :: 0 <= i < |deleted| ==> deleted[i] < born)
    && (forall i, j :: 0 <= i < j < |deleted| ==> deleted[i] != deleted[j])
    && (forall k :: 0 <= k < born ==> k in deleted || k in live.Values)
  }

  ghost predicate Inv(s: State) {
    && TokenInv(s) && ExchangeInv(s)
    && RegistryInv(s.helper, s.ptys, s.live, s.executed) && LifeInv(s.live, s.born, s.deleted)
  }

  // ---- every step keeps it ----

  /** The two states differ in proxies other than the token holder. */
  ghost predicate SameExchange(s: State, t: State) {
    && t == s.(proxies := t.proxies, shared := t.shared)
    && (s.holder.Some? && s.holder.value in s.proxies ==>
          s.holder.value in t.proxies && t.proxies[s.holder.value] == s.proxies[s.holder.value])
  }

  lemma AnsweringFrame(s: State, t: State, o: Outcome, n: nat)
    requires Answering(s, o, n) && SameExchange(s, t)
    ensures Answering(t, o, n)
  {
  }

  lemma WaitingFrame(s: State, t: State)
    requires Waiting(s) && SameExchange(s, t)
    ensures Waiting(t)
  {
    hide Requests;
  }

  /** The sockets' invariant looks at no proxy but the token holder. */
  lemma ExchangeFrame(s: State, t: State)
    requires ExchangeInv(s) && SameExchange(s, t)
    ensures ExchangeInv(t)
  {
    hide Requests, Answering, Waiting;
    match s.helper
    case HGive =>
    case HRead => if s.commands != [] { WaitingFrame(s, t); }
    case HGot(_) => WaitingFrame(s, t);
    case HCreated(_, _) => WaitingFrame(s, t);
    case HFailed => WaitingFrame(s, t);
    case HWroteId(id, k) => AnsweringFrame(s, t, Created(id, k), 1);
    case HPushed(id, k) => AnsweringFrame(s, t, Created(id, k), 1);
    case HSentPty(id, k) => AnsweringFrame(s, t, Created(id, k), 2);
    case HSentTty(id, k) => AnsweringFrame(s, t, Created(id, k), 3);
    case HNeed => AnsweringFrame(s, t, LastOutcome(s), |Answer(LastOutcome(s))|);
    case _ =>
  }

  /** A login or a failed get leaves the registry alone. */
  lemma RegistryStays(h: HelperPc, ptys: seq<Address>, live: map<Address, nat>, executed: seq<Event>, e: Event)
    requires h.HGot? || h.HFailed?
    requires RegistryInv(h, ptys, live, executed) && EventOk(e) && !e.outcome.Created? && !e.request.Destroy?
    ensures RegistryInv(HNeed, ptys, live, executed + [e])
  {
    hide Replay;
    ReplayStep(executed, e);
  }

  lemma RegistryDestroy(h: HelperPc, ptys: seq<Address>, live: map<Address, nat>, executed: seq<Event>, e: Event)
    requires h.HGot? && RegistryInv(h, ptys, live, executed) && e.request.Destroy? && e.outcome.Done?
    ensures var id := e.request.id;
            && (id in ptys <==> id in live)
            && RegistryInv(HNeed, Remove(ptys, id), if id in ptys then live - {id} else live, executed + [e])
  {
    hide Replay, Remove, IndexOf;
    ReplayStep(executed, e);
    RemoveKeeps(ptys, e.request.id);
  }

  lemma RegistrySweep(left: nat, ptys: seq<Address>, live: map<Address, nat>, executed: seq<Event>)
    requires left > 0 && RegistryInv(HSweep(left), ptys, live, executed)
    ensures ptys[left - 1] in live
    ensures RegistryInv(HSweep(left - 1), ptys, live - {ptys[left - 1]}, executed)
  {
    hide Replay;
    assert ptys[..left] == ptys[..left - 1] + [ptys[left - 1]];
  }

  lemma RegistryNew(ptys: seq<Address>, live: map<Address, nat>, executed: seq<Event>, id: Address, k: nat)
    requires RegistryInv(HGot(Get), ptys, live, executed) && id !in live && id != 0
    ensures RegistryInv(HCreated(id, k), ptys, live[id := k], executed)
  {
    hide Replay;
  }

  lemma RegistryGetFails(ptys: seq<Address>, live: map<Address, nat>, executed: seq<Event>, id: Address, k: nat)
    requires RegistryInv(HCreated(id, k), ptys, live, executed)
    ensures id in live && id != 0 && RegistryInv(HFailed, ptys, live - {id}, executed)
  {
    hide Replay;
  }

  lemma RegistryPush(ptys: seq<Address>, live: map<Address, nat>, executed: seq<Event>, id: Address, k: nat, e: Event)
    requires RegistryInv(HWroteId(id, k), ptys, live, executed)
    requires e.request == Get && e.outcome == Created(id, k)
    ensures id != 0 && RegistryInv(HPushed(id, k), ptys + [id], live, executed + [e])
  {
    hide Replay;
    PushKeeps(ptys, id);
    ReplayStep(executed, e);
  }

  lemma RequestsStep(es: seq<Event>, e: Event)
    ensures Requests(es + [e]) == Requests(es) + [(e.proxy, e.request)]
    ensures |Requests(es)| == |es|
  {
  }

  /** Executing the current request settles the history: the events are the acquisitions, in their order. */
  lemma LogSettles(s: State, r: Request, o: Outcome)
    requires Pending(s.acquired, s.executed) && r == Current(s).1
    ensures var t := Log(s, r, o);
            && |s.executed| < |s.acquired| && t.executed == s.executed + [Event(Current(s).0, r, o)]
            && t == s.(executed := t.executed) && Settled(t.acquired, t.executed) && LastOutcome(t) == o
  {
    RequestsStep(s.executed, Event(Current(s).0, r, o));
  }

  lemma ReleaseInStep(s: State, p: ProxyId, o: Outcome, n: nat)
    requires TokenInv(s) && Enabled(s, Release(p)) && Answering(s, o, n)
    ensures Answering(Step(s, Release(p)), o, n)
  {
    assert s.holder == Some(p);
  }

  lemma ReleaseWaiting(s: State, p: ProxyId)
    requires TokenInv(s) && Enabled(s, Release(p)) && Waiting(s)
    ensures Waiting(Step(s, Release(p)))
  {
    hide Requests;
    assert s.holder == Some(p);
  }

  lemma ReleaseWhere(s: State, p: ProxyId)
    requires Inv(s) && Enabled(s, Release(p))
    ensures s.holder == Some(p) && Serving(s) && !s.helper.HGive?
    ensures s.helper.HRead? ==> s.commands != []
  {
    hide RegistryInv, LifeInv, Requests;
  }

  /** Executing a request that has no answer leaves the proxy where it was: giving, or having given, the token. */
  lemma ExecutedAnswering(s: State, r: Request)
    requires Waiting(s) && s.commands == [] && r == Current(s).1 && !r.Get?
    ensures Answering(Log(s, r, Done).(helper := HNeed), Done, 0)
  {
    hide Requests;
  }

  lemma FailedAnswering(s: State)
    requires Waiting(s) && s.commands == [] && Current(s).1.Get?
    ensures Answering(Log(s, Get, Failed).(replies := s.replies + [IdMessage(0)], helper := HNeed), Failed, 1)
  {
    hide Requests;
  }

  /** An answer is a matter of the sockets and the proxies alone. */
  lemma AnsweringFields(s: State, t: State, o: Outcome, n: nat)
    requires Answering(s, o, n) && t == s.(ptys := t.ptys, live := t.live, deleted := t.deleted)
    ensures Answering(t, o, n)
  {
  }

  lemma WaitingPending(s: State)
    requires Waiting(s)
    ensures s.acquired != [] && Pending(s.acquired, s.executed)
  {
  }

  /** A proxy only ever reads while the helper is answering it. */
  lemma ReceiveWhere(s: State, p: ProxyId)
    requires Inv(s) && Enabled(s, Receive(p))
    ensures s.holder == Some(p)
    ensures s.helper.HWroteId? || s.helper.HPushed? || s.helper.HSentPty? || s.helper.HSentTty? || s.helper.HNeed?
  {
    hide RegistryInv, LifeInv, Requests;
  }

  /** What a proxy has read after one more message of a complete answer. */
  lemma ReceivedPrefix(x: Proxy, answer: seq<Message>, c: nat)
    requires |answer| == 3 && answer[0].IdMessage? && answer[0].id != 0 && answer[1].FdMessage? && answer[2].FdMessage?
    requires c == Consumed(x.pc, answer) < 3 && HasRead(x, answer[..c])
    requires x.pc.ReadId? || x.pc.ReadPty? || x.pc.ReadTty?
    ensures var y := AfterReceive(x, answer[c]);
            && !y.pc.ProtocolError? && Consumed(y.pc, answer) == c + 1 && HasRead(y, answer[..c + 1])
            && (y.pc == ReadPty || y.pc == ReadTty || y.pc == Give(Get))
  {
  }

  /** Reading the next message of an answer keeps proxy and helper in step, and never meets a message of the wrong kind. */
  lemma ReceiveInStep(s: State, p: ProxyId, o: Outcome, n: nat)
    requires TokenInv(s) && Enabled(s, Receive(p)) && Answering(s, o, n)
    ensures Answering(Step(s, Receive(p)), o, n)
    ensures !Step(s, Receive(p)).proxies[p].pc.ProtocolError?
  {
    var x := s.proxies[p];
    var c, answer := Consumed(x.pc, Answer(o)), Answer(o);
    assert s.holder == Some(p);
    assert s.replies[0] == answer[c] && s.replies[1..] == answer[c + 1..n];
    match o
    case Created(id, k) =>
      assert answer[..3] == answer;
      ReceivedPrefix(x, answer, c);
    case Failed =>
    case Done =>
  }

  lemma SweepDone(ptys: seq<Address>, live: map<Address, nat>, executed: seq<Event>)
    requires RegistryInv(HSweep(0), ptys, live, executed)
    ensures RegistryInv(HExited, ptys, live, executed)
  {
  }

  lemma SweepBound(s: State)
    requires RegistryInv(s.helper, s.ptys, s.live, s.executed) && s.helper.HSweep?
    ensures s.helper.left <= |s.ptys|
  {
  }

  lemma LifeNew(live: map<Address, nat>, born: nat, deleted: seq<nat>, id: Address)
    requires LifeInv(live, born, deleted) && id !in live
    ensures LifeInv(live[id := born], born + 1, deleted)
  {
    var now := live[id := born];
    forall k | 0 <= k < born + 1 ensures k in deleted || k in now.Values {
      if k == born {
        assert now[id] == k;
      } else if k !in deleted {
        var a :| a in live && live[a] == k;
        assert now[a] == k;
      }
    }
  }

  lemma LifeDelete(live: map<Address, nat>, born: nat, deleted: seq<nat>, id: Address)
    requires LifeInv(live, born, deleted) && id in live
    ensures LifeInv(live - {id}, born, deleted + [live[id]])
  {
    var now, gone := live - {id}, deleted + [live[id]];
    forall k | 0 <= k < born ensures k in gone || k in now.Values {
      if k in deleted {
        var i :| 0 <= i < |deleted| && deleted[i] == k;
        assert gone[i] == k;
      } else if k == live[id] {
        assert gone[|deleted|] == k;
      } else {
        var a :| a in live && live[a] == k;
        assert now[a] == k;
      }
    }
  }

  lemma KeepCreate(s: State, p: ProxyId)
    requires Inv(s) && Enabled(s, Create(p))
    ensures Inv(Step(s, Create(p)))
  {
    hide RegistryInv, LifeInv, ExchangeInv;
    ExchangeFrame(s, Step(s, Create(p)));
  }

  lemma KeepFork(s: State, p: ProxyId, q: ProxyId)
    requires Inv(s) && Enabled(s, Fork(p, q))
    ensures Inv(Step(s, Fork(p, q)))
  {
    hide RegistryInv, LifeInv, ExchangeInv;
    ExchangeFrame(s, Step(s, Fork(p, q)));
  }

  lemma KeepLeave(s: State, p: ProxyId)
    requires Inv(s) && Enabled(s, Leave(p))
    ensures Inv(Step(s, Leave(p)))
  {
    hide RegistryInv, LifeInv, ExchangeInv;
    ExchangeFrame(s, Step(s, Leave(p)));
  }

  lemma KeepBegin(s: State, p: ProxyId, r: Request)
    requires Inv(s) && Enabled(s, Begin(p, r))
    ensures Inv(Step(s, Begin(p, r)))
  {
    hide RegistryInv, LifeInv, ExchangeInv;
    ExchangeFrame(s, Step(s, Begin(p, r)));
  }

  lemma KeepAcquire(s: State, p: ProxyId)
    requires Inv(s) && Enabled(s, Acquire(p))
    ensures Inv(Step(s, Acquire(p)))
  {
    hide RegistryInv, LifeInv, Requests;
  }

  lemma KeepSend(s: State, p: ProxyId)
    requires Inv(s) && Enabled(s, Send(p))
    ensures Inv(Step(s, Send(p)))
  {
    hide RegistryInv, LifeInv, Requests;
  }

  lemma KeepReceive(s: State, p: ProxyId)
    requires Inv(s) && Enabled(s, Receive(p))
    ensures Inv(Step(s, Receive(p)))
  {
    hide RegistryInv, LifeInv, Requests, Answering, Waiting;
    ReceiveWhere(s, p);
    match s.helper
    case HWroteId(id, k) => ReceiveInStep(s, p, Created(id, k), 1);
    case HPushed(id, k) => ReceiveInStep(s, p, Created(id, k), 1);
    case HSentPty(id, k) => ReceiveInStep(s, p, Created(id, k), 2);
    case HSentTty(id, k) => ReceiveInStep(s, p, Created(id, k), 3);
    case HNeed => ReceiveInStep(s, p, LastOutcome(s), |Answer(LastOutcome(s))|);
  }

  lemma KeepRelease(s: State, p: ProxyId)
    requires Inv(s) && Enabled(s, Release(p))
    ensures Inv(Step(s, Release(p)))
  {
    hide RegistryInv, LifeInv, Requests, Answering, Waiting;
    ReleaseWhere(s, p);
    match s.helper
    case HRead => ReleaseWaiting(s, p);
    case HGot(_) => ReleaseWaiting(s, p);
    case HCreated(_, _) => ReleaseWaiting(s, p);
    case HFailed => ReleaseWaiting(s, p);
    case HWroteId(id, k) => ReleaseInStep(s, p, Created(id, k), 1);
    case HPushed(id, k) => ReleaseInStep(s, p, Created(id, k), 1);
    case HSentPty(id, k) => ReleaseInStep(s, p, Created(id, k), 2);
    case HSentTty(id, k) => ReleaseInStep(s, p, Created(id, k), 3);
    case HNeed => ReleaseInStep(s, p, LastOutcome(s), |Answer(LastOutcome(s))|);
  }

  lemma KeepGive(s: State)
    requires Inv(s) && Enabled(s, HelperGive)
    ensures Inv(Step(s, HelperGive))
  {
    hide LifeInv, Requests;
  }

  lemma KeepRead(s: State)
    requires Inv(s) && Enabled(s, HelperRead)
    ensures Inv(Step(s, HelperRead))
  {
    hide LifeInv, Requests;
  }

  lemma KeepNew(s: State, id: Address)
    requires Inv(s) && Enabled(s, HelperNew(id))
    ensures Inv(Step(s, HelperNew(id)))
  {
    hide LifeInv, RegistryInv, Requests;
    RegistryNew(s.ptys, s.live, s.executed, id, s.born);
    LifeNew(s.live, s.born, s.deleted, id);
  }

  lemma KeepGetFails(s: State)
    requires Inv(s) && Enabled(s, HelperGetFails)
    ensures Inv(Step(s, HelperGetFails))
  {
    hide LifeInv, RegistryInv, Requests;
    RegistryGetFails(s.ptys, s.live, s.executed, s.helper.id, s.helper.serial);
    LifeDelete(s.live, s.born, s.deleted, s.helper.id);
  }

  lemma KeepLogin(s: State)
    requires Inv(s) && Enabled(s, HelperAct) && s.helper.HGot? && s.helper.request.Login?
    ensures Inv(Step(s, HelperAct))
  {
    hide LifeInv, RegistryInv, Requests, Settled, Pending, Waiting, Answering;
    WaitingPending(s);
    var r := Current(s).1;
    LogSettles(s, r, Done);
    RegistryStays(s.helper, s.ptys, s.live, s.executed, Event(Current(s).0, r, Done));
    ExecutedAnswering(s, r);
  }

  lemma KeepDestroy(s: State)
    requires Inv(s) && Enabled(s, HelperAct) && s.helper.HGot? && s.helper.request.Destroy?
    ensures Inv(Step(s, HelperAct))
  {
    hide LifeInv, RegistryInv, Remove, IndexOf, Requests, Settled, Pending, Waiting, Answering;
    WaitingPending(s);
    var r := Current(s).1;
    LogSettles(s, r, Done);
    RegistryDestroy(s.helper, s.ptys, s.live, s.executed, Event(Current(s).0, r, Done));
    if r.id in s.ptys {
      LifeDelete(s.live, s.born, s.deleted, r.id);
    }
    ExecutedAnswering(s, r);
    AnsweringFields(Log(s, r, Done).(helper := HNeed), Step(s, HelperAct), Done, 0);
  }

  lemma KeepWriteId(s: State)
    requires Inv(s) && Enabled(s, HelperAct) && s.helper.HCreated?
    ensures Inv(Step(s, HelperAct))
  {
    hide LifeInv, Requests;
  }

  lemma KeepWriteNull(s: State)
    requires Inv(s) && Enabled(s, HelperAct) && s.helper.HFailed?
    ensures Inv(Step(s, HelperAct))
  {
    hide LifeInv, RegistryInv, Requests, Settled, Pending, Waiting, Answering;
    WaitingPending(s);
    LogSettles(s, Get, Failed);
    RegistryStays(s.helper, s.ptys, s.live, s.executed, Event(Current(s).0, Get, Failed));
    FailedAnswering(s);
  }

  lemma KeepPush(s: State)
    requires Inv(s) && Enabled(s, HelperAct) && s.helper.HWroteId?
    ensures Inv(Step(s, HelperAct))
  {
    hide LifeInv, RegistryInv, Requests, Replay, Settled;
    var id, k := s.helper.id, s.helper.serial;
    LogSettles(s, Get, Created(id, k));
    RegistryPush(s.ptys, s.live, s.executed, id, k, Event(Current(s).0, Get, Created(id, k)));
  }

  lemma KeepSendPty(s: State)
    requires Inv(s) && Enabled(s, HelperAct) && s.helper.HPushed?
    ensures Inv(Step(s, HelperAct))
  {
    hide LifeInv, Requests;
  }

  lemma KeepSendTty(s: State)
    requires Inv(s) && Enabled(s, HelperAct) && s.helper.HSentPty?
    ensures Inv(Step(s, HelperAct))
  {
    hide LifeInv, Requests;
  }

  lemma KeepCloseTty(s: State)
    requires Inv(s) && Enabled(s, HelperAct) && s.helper.HSentTty?
    ensures Inv(Step(s, HelperAct))
  {
    hide LifeInv, Requests;
  }

  lemma KeepNeed(s: State)
    requires Inv(s) && Enabled(s, HelperNeed)
    ensures Inv(Step(s, HelperNeed))
  {
    hide LifeInv, Requests;
  }

  lemma KeepGone(s: State)
    requires Inv(s) && Enabled(s, AllGone)
    ensures Inv(Step(s, AllGone))
  {
  }

  lemma KeepSweep(s: State)
    requires Inv(s) && Enabled(s, HelperSweep)
    ensures Inv(Step(s, HelperSweep))
  {
    hide LifeInv, RegistryInv;
    var n := s.helper.left;
    if n > 0 {
      RegistrySweep(n, s.ptys, s.live, s.executed);
      assert n <= |s.ptys| by { SweepBound(s); }
      LifeDelete(s.live, s.born, s.deleted, s.ptys[n - 1]);
    } else {
      SweepDone(s.ptys, s.live, s.executed);
    }
  }

  lemma KeepAct(s: State)
    requires Inv(s) && Enabled(s, HelperAct)
    ensures Inv(Step(s, HelperAct))
  {
    hide Inv, Step;
    match s.helper
    case HGot(Login(_, _, _, _)) => KeepLogin(s);
    case HGot(Destroy(_)) => KeepDestroy(s);
    case HCreated(_, _) => KeepWriteId(s);
    case HFailed => KeepWriteNull(s);
    case HWroteId(_, _) => KeepPush(s);
    case HPushed(_, _) => KeepSendPty(s);
    case HSentPty(_, _) => KeepSendTty(s);
    case HSentTty(_, _) => KeepCloseTty(s);
  }

  lemma KeepStep(s: State, a: Action)
    requires Inv(s) && Enabled(s, a)
    ensures Inv(Step(s, a))
  {
    hide Inv, Step;
    match a
    case Create(p) => KeepCreate(s, p);
    case Fork(p, q) => KeepFork(s, p, q);
    case Leave(p) => KeepLeave(s, p);
    case Begin(p, r) => KeepBegin(s, p, r);
    case Acquire(p) => KeepAcquire(s, p);
    case Send(p) => KeepSend(s, p);
    case Receive(p) => KeepReceive(s, p);
    case Release(p) => KeepRelease(s, p);
    case HelperGive => KeepGive(s);
    case HelperRead => KeepRead(s);
    case HelperNew(id) => KeepNew(s, id);
    case HelperGetFails => KeepGetFails(s);
    case HelperAct => KeepAct(s);
    case HelperNeed => KeepNeed(s);
    case AllGone => KeepGone(s);
    case HelperSweep => KeepSweep(s);
  }

  /** In every reachable state of every run the invariant holds. */
  lemma {:induction false} Reachable(run: seq<State>, i: nat)
    requires Run(run) && i < |run|
    ensures Inv(run[i])
  {
    hide Enabled, Step;
    if i == 0 {
      assert Elements([]) == {} && Replay([]) == [];
      assert Requests([]) == [];
    } else {
      Reachable(run, i - 1);
      assert Follows(run[i - 1], run[i]);
      var a :| Enabled(run[i - 1], a) && Step(run[i - 1], a) == run[i];
      KeepStep(run[i - 1], a);
    }
  }

  // ---- what the proxies hold ----

  /** Id and descriptors of the proxy were made by one get, and unless a fork has copied a proxy with this id, by its
      own. */
  ghost predicate Granted(executed: seq<Event>, shared: set<Address>, p: ProxyId, x: Proxy) {
    exists i :: 0 <= i < |executed| && GrantedBy(executed[i], x) && (x.id in shared || executed[i].proxy == p)
  }

  ghost predicate GrantedBy(e: Event, x: Proxy) {
    && e.request.Get? && e.outcome.Created? && e.outcome.id == x.id
    && x.pty == Some(PtyEnd(e.outcome.serial)) && x.tty == Some(TtyEnd(e.outcome.serial))
  }

  /** The destructor has begun; it has closed the descriptors. */
  predicate Destroying(x: Proxy) {
    (x.pc.Need? || x.pc.Write? || x.pc.Give?) && x.pc.request.Destroy?
  }

  ghost predicate ProxyOk(executed: seq<Event>, shared: set<Address>, p: ProxyId, x: Proxy) {
    && !x.pc.ProtocolError?
    && (x.pc.Need? || x.pc.Write? || x.pc.Give? ==>
          && (x.pc.request.Login? ==> x.pc.request.id == x.id)
          && (x.pc.request.Destroy? ==> x.pc.request.id == x.id != 0))
    && (x.id != 0 && !x.pc.ReadPty? && !x.pc.ReadTty? && !Destroying(x) ==> Granted(executed, shared, p, x))
  }

  ghost predicate ProxyInv(s: State) {
    forall p :: p in s.proxies ==> ProxyOk(s.executed, s.shared, p, s.proxies[p])
  }

  lemma GrantedGrows(executed: seq<Event>, shared: set<Address>, p: ProxyId, x: Proxy,
                     executed': seq<Event>, shared': set<Address>, p': ProxyId, x': Proxy)
    requires executed <= executed' && shared <= shared' && (p == p' || x.id in shared')
    requires Granted(executed, shared, p, x) && x.id == x'.id && x.pty == x'.pty && x.tty == x'.tty
    ensures Granted(executed', shared', p', x')
  {
    var i :| 0 <= i < |executed| && GrantedBy(executed[i], x) && (x.id in shared || executed[i].proxy == p);
    assert GrantedBy(executed'[i], x');
  }

  lemma ProxyOkGrows(executed: seq<Event>, shared: set<Address>, executed': seq<Event>, shared': set<Address>,
                     p: ProxyId, x: Proxy)
    requires executed <= executed' && shared <= shared' && ProxyOk(executed, shared, p, x)
    ensures ProxyOk(executed', shared', p, x)
  {
    hide Granted;
    if Granted(executed, shared, p, x) {
      GrantedGrows(executed, shared, p, x, executed', shared', p, x);
    }
  }

  /** Moving on with the same request, or with none, changes nothing that matters. */
  lemma ProxyOkMoves(executed: seq<Event>, shared: set<Address>, p: ProxyId, x: Proxy, y: Proxy)
    requires ProxyOk(executed, shared, p, x) && y == x.(pc := y.pc) && !x.pc.ReadPty? && !x.pc.ReadTty?
    requires Destroying(x) ==> Destroying(y)
    requires y.pc.Idle? || y.pc.ReadId?
             || ((x.pc.Need? || x.pc.Write?) && (y.pc.Write? || y.pc.Give?) && y.pc.request == x.pc.request)
    ensures ProxyOk(executed, shared, p, y)
  {
    hide Granted;
    if Granted(executed, shared, p, x) {
      GrantedGrows(executed, shared, p, x, executed, shared, p, y);
    }
  }

  lemma ProxyOkBegins(executed: seq<Event>, shared: set<Address>, p: ProxyId, x: Proxy, y: Proxy, r: Request)
    requires ProxyOk(executed, shared, p, x) && x.pc.Idle?
    requires (r.Login? ==> r.id == x.id) && (r.Destroy? ==> r.id == x.id != 0)
    requires y == if r.Destroy? then x.(pc := Need(r), pty := None, tty := None) else x.(pc := Need(r))
    ensures ProxyOk(executed, shared, p, y)
  {
    hide Granted;
    if Granted(executed, shared, p, x) && !r.Destroy? {
      GrantedGrows(executed, shared, p, x, executed, shared, p, y);
    }
  }

  /** Before its last read a proxy has read the id and the pty of the object the answer is about. */
  lemma LastRead(s: State, p: ProxyId, o: Outcome, n: nat)
    requires TokenInv(s) && Enabled(s, Receive(p)) && Answering(s, o, n) && s.proxies[p].pc.ReadTty?
    ensures o.Created? && n == 3 && s.proxies[p].id == o.id && s.proxies[p].pty == Some(PtyEnd(o.serial))
    ensures s.replies[0] == FdMessage(TtyEnd(o.serial))
  {
    assert s.holder == Some(p);
    var answer := Answer(o);
    assert answer[..2][0] == answer[0] && answer[..2][1] == answer[1];
    assert s.replies[0] == answer[2];
  }

  /** The proxy that has just read its second descriptor holds what the last executed get, its own, made. */
  lemma ReceiveOk(s: State, p: ProxyId)
    requires Inv(s) && Enabled(s, Receive(p)) && ProxyOk(s.executed, s.shared, p, s.proxies[p])
    ensures ProxyOk(s.executed, s.shared, p, Step(s, Receive(p)).proxies[p])
  {
    if s.executed != [] {
      LastWellFormed(s);
    }
    hide RegistryInv, LifeInv, Requests, Waiting, Granted, Answering;
    ReceiveWhere(s, p);
    match s.helper
    case HWroteId(id, k) => ReceiveEarly(s, p, Created(id, k), 1);
    case HPushed(id, k) => ReceiveEarly(s, p, Created(id, k), 1);
    case HSentPty(id, k) => ReceiveEarly(s, p, Created(id, k), 2);
    case HSentTty(id, k) => ReceiveLast(s, p, 3);
    case HNeed => ReceiveLast(s, p, |Answer(LastOutcome(s))|);
  }

  lemma ReceiveEarly(s: State, p: ProxyId, o: Outcome, n: nat)
    requires TokenInv(s) && Enabled(s, Receive(p)) && Answering(s, o, n)
    requires ProxyOk(s.executed, s.shared, p, s.proxies[p]) && n < 3
    ensures ProxyOk(s.executed, s.shared, p, Step(s, Receive(p)).proxies[p])
  {
    hide Granted, Answering;
    ReceiveInStep(s, p, o, n);
    if s.proxies[p].pc.ReadTty? {
      LastRead(s, p, o, n);
    }
  }

  lemma ReceiveLast(s: State, p: ProxyId, n: nat)
    requires TokenInv(s) && Enabled(s, Receive(p)) && ProxyOk(s.executed, s.shared, p, s.proxies[p])
    requires s.executed != [] && Settled(s.acquired, s.executed)
    requires EventOk(s.executed[|s.executed| - 1]) && Answering(s, LastOutcome(s), n)
    ensures ProxyOk(s.executed, s.shared, p, Step(s, Receive(p)).proxies[p])
  {
    AnswersCurrent(s, p, LastOutcome(s), n);
    LastIsCurrent(s);
    hide Granted, Answering, Settled;
    ReceiveInStep(s, p, LastOutcome(s), n);
    if s.proxies[p].pc.ReadTty? {
      LastRead(s, p, LastOutcome(s), n);
      GrantedAt(s.executed, s.shared, |s.executed| - 1, p, Step(s, Receive(p)).proxies[p]);
    }
  }

  /** The proxy that is being answered is the one that made the current request. */
  lemma AnswersCurrent(s: State, p: ProxyId, o: Outcome, n: nat)
    requires TokenInv(s) && Answering(s, o, n) && p in s.proxies && Critical(s.proxies[p].pc)
    ensures s.acquired != [] && Current(s).0 == p
  {
    assert s.holder == Some(p);
  }

  lemma LastIsCurrent(s: State)
    requires s.executed != [] && Settled(s.acquired, s.executed)
    ensures s.acquired != []
    ensures var e := s.executed[|s.executed| - 1]; Current(s) == (e.proxy, e.request)
  {
    assert s.acquired[|s.acquired| - 1] == Requests(s.executed)[|s.executed| - 1];
  }

  lemma GrantedAt(executed: seq<Event>, shared: set<Address>, i: nat, p: ProxyId, x: Proxy)
    requires i < |executed| && GrantedBy(executed[i], x) && executed[i].proxy == p
    ensures Granted(executed, shared, p, x)
  {
  }

  lemma LastWellFormed(s: State)
    requires RegistryInv(s.helper, s.ptys, s.live, s.executed) && s.executed != []
    ensures EventOk(s.executed[|s.executed| - 1])
  {
  }

  lemma KeepProxies(s: State, a: Action)
    requires Inv(s) && ProxyInv(s) && Enabled(s, a)
    ensures ProxyInv(Step(s, a))
  {
    hide Inv, Granted, ProxyOk, Enabled;
    var t := Step(s, a);
    SharedStays(s, a);
    hide Step;
    forall p | p in t.proxies
      ensures ProxyOk(t.executed, t.shared, p, t.proxies[p])
    {
      if p in s.proxies && s.proxies[p] == t.proxies[p] {
        ProxyOkGrows(s.executed, s.shared, t.executed, t.shared, p, t.proxies[p]);
      } else if p in s.proxies {
        ProxyMoved(s, a, p);
      } else {
        ProxyAdded(s, a, p);
      }
    }
  }

  /** The one proxy a step changes. */
  lemma ProxyMoved(s: State, a: Action, p: ProxyId)
    requires Inv(s) && Enabled(s, a) && p in s.proxies && p in Step(s, a).proxies
    requires ProxyOk(s.executed, s.shared, p, s.proxies[p]) && s.proxies[p] != Step(s, a).proxies[p]
    ensures ProxyOk(Step(s, a).executed, Step(s, a).shared, p, Step(s, a).proxies[p])
  {
    hide Inv, ProxyOk, AfterReceive, AfterAct;
    var x, y := s.proxies[p], Step(s, a).proxies[p];
    match a
    case Begin(_, r) => ProxyOkBegins(s.executed, s.shared, p, x, y, r);
    case Acquire(_) => ProxyOkMoves(s.executed, s.shared, p, x, y);
    case Send(_) => ProxyOkMoves(s.executed, s.shared, p, x, y);
    case Receive(_) => ReceiveOk(s, p);
    case Release(_) => ProxyOkMoves(s.executed, s.shared, p, x, y);
    case HelperAct => ActKeepsProxies(s);
    case _ =>
  }

  lemma ActKeepsProxies(s: State)
    requires Enabled(s, HelperAct)
    ensures AfterAct(s).proxies == s.proxies && s.executed <= AfterAct(s).executed
  {
  }

  /** The one proxy a step adds; the id of the copy is shared from then on. */
  lemma ProxyAdded(s: State, a: Action, p: ProxyId)
    requires ProxyInv(s) && Enabled(s, a) && p !in s.proxies && p in Step(s, a).proxies
    ensures ProxyOk(Step(s, a).executed, Step(s, a).shared, p, Step(s, a).proxies[p])
  {
    hide Granted, AfterAct;
    match a
    case Create(_) =>
    case Fork(q, _) =>
      if s.proxies[q].id != 0 {
        GrantedGrows(s.executed, s.shared, q, s.proxies[q], s.executed, s.shared + {s.proxies[q].id}, p, s.proxies[q]);
      }
    case HelperAct => ActKeepsProxies(s);
    case _ =>
  }

  // ---- ownership ----

  /** A proxy answers for its id until it has sent the destroy for it. */
  predicate Owns(x: Proxy) {
    x.id != 0 && !(x.pc.Give? && x.pc.request.Destroy?)
  }

  /** The id is about to be destroyed, or has been made and not been read by its proxy yet. */
  predicate InTransit(s: State, id: Address) {
    || Destroy(id) in s.commands
    || s.helper == HGot(Destroy(id))
    || (s.helper.HCreated? && s.helper.id == id)
    || IdMessage(id) in s.replies
  }

  /** The id of a proxy that answers for it, and no fork has ever copied a proxy with that id. */
  predicate OwnsAlone(shared: set<Address>, x: Proxy) {
    Owns(x) && x.id !in shared
  }

  /** Ids that no fork has copied are live, held by one proxy only, and not in transit. */
  ghost predicate OwnInv(s: State) {
    && (forall p :: p in s.proxies && OwnsAlone(s.shared, s.proxies[p]) ==>
          s.proxies[p].id in s.live && !InTransit(s, s.proxies[p].id))
    && (forall p, q :: p in s.proxies && q in s.proxies && p != q
                       && OwnsAlone(s.shared, s.proxies[p]) && OwnsAlone(s.shared, s.proxies[q]) ==>
          s.proxies[p].id != s.proxies[q].id)
    && (forall id :: IdMessage(id) in s.replies && id != 0 ==> id in s.live)
  }

  lemma OwnCreate(s: State, p: ProxyId)
    requires Inv(s) && ProxyInv(s) && OwnInv(s) && Enabled(s, Create(p))
    ensures OwnInv(Step(s, Create(p)))
  {
    hide RegistryInv, LifeInv, Granted;
  }

  lemma OwnFork(s: State, p: ProxyId, q: ProxyId)
    requires Inv(s) && ProxyInv(s) && OwnInv(s) && Enabled(s, Fork(p, q))
    ensures OwnInv(Step(s, Fork(p, q)))
  {
    hide RegistryInv, LifeInv, Granted;
  }

  lemma OwnLeave(s: State, p: ProxyId)
    requires Inv(s) && ProxyInv(s) && OwnInv(s) && Enabled(s, Leave(p))
    ensures OwnInv(Step(s, Leave(p)))
  {
    hide RegistryInv, LifeInv, Granted;
  }

  lemma OwnBegin(s: State, p: ProxyId, r: Request)
    requires Inv(s) && ProxyInv(s) && OwnInv(s) && Enabled(s, Begin(p, r))
    ensures OwnInv(Step(s, Begin(p, r)))
  {
    hide RegistryInv, LifeInv, Granted;
  }

  lemma OwnAcquire(s: State, p: ProxyId)
    requires Inv(s) && ProxyInv(s) && OwnInv(s) && Enabled(s, Acquire(p))
    ensures OwnInv(Step(s, Acquire(p)))
  {
    hide RegistryInv, LifeInv, Granted;
  }

  lemma OwnSend(s: State, p: ProxyId)
    requires Inv(s) && ProxyInv(s) && OwnInv(s) && Enabled(s, Send(p))
    ensures OwnInv(Step(s, Send(p)))
  {
    hide RegistryInv, LifeInv, Granted;
  }

  /** At most the first unread message is an id, and it is read as one; nobody waits for a command meanwhile. */
  lemma ReceiveNoIds(s: State, p: ProxyId)
    requires Inv(s) && Enabled(s, Receive(p))
    ensures forall id :: IdMessage(id) !in s.replies[1..]
    ensures s.commands == [] && !s.helper.HGot? && !s.helper.HCreated?
  {
    hide RegistryInv, LifeInv, Requests, Answering, Waiting;
    ReceiveWhere(s, p);
    match s.helper
    case HWroteId(id, k) => AnswerNoIds(s, p, Created(id, k), 1);
    case HPushed(id, k) => AnswerNoIds(s, p, Created(id, k), 1);
    case HSentPty(id, k) => AnswerNoIds(s, p, Created(id, k), 2);
    case HSentTty(id, k) => AnswerNoIds(s, p, Created(id, k), 3);
    case HNeed => AnswerNoIds(s, p, LastOutcome(s), |Answer(LastOutcome(s))|);
  }

  lemma AnswerNoIds(s: State, p: ProxyId, o: Outcome, n: nat)
    requires TokenInv(s) && Enabled(s, Receive(p)) && Answering(s, o, n)
    ensures forall id :: IdMessage(id) !in s.replies[1..]
    ensures s.commands == []
  {
    assert s.holder == Some(p);
  }

  lemma ReceiveLegal(s: State, p: ProxyId)
    requires Inv(s) && Enabled(s, Receive(p))
    ensures var y := Step(s, Receive(p)).proxies[p];
            !y.pc.ProtocolError? && (s.proxies[p].pc.ReadId? <==> s.replies[0].IdMessage?)
            && y.id == if s.replies[0].IdMessage? then s.replies[0].id else s.proxies[p].id
  {
    hide RegistryInv, LifeInv, Requests, Answering, Waiting;
    ReceiveWhere(s, p);
    match s.helper
    case HWroteId(id, k) => ReceiveInStep(s, p, Created(id, k), 1);
    case HPushed(id, k) => ReceiveInStep(s, p, Created(id, k), 1);
    case HSentPty(id, k) => ReceiveInStep(s, p, Created(id, k), 2);
    case HSentTty(id, k) => ReceiveInStep(s, p, Created(id, k), 3);
    case HNeed => ReceiveInStep(s, p, LastOutcome(s), |Answer(LastOutcome(s))|);
  }

  lemma ReceiveFrame(s: State, p: ProxyId)
    requires Inv(s) && Enabled(s, Receive(p))
    ensures var t := Step(s, Receive(p));
            var y := t.proxies[p];
            && t.proxies == s.proxies[p := y] && t.live == s.live && t.shared == s.shared
            && ((y.id == s.proxies[p].id && Owns(s.proxies[p]) == Owns(y))
                || (IdMessage(y.id) in s.replies && InTransit(s, y.id)))
            && (forall id :: !InTransit(t, id)) && (forall id :: IdMessage(id) !in t.replies)
  {
    ReceiveNoIds(s, p);
    ReceiveLegal(s, p);
    hide Inv;
    assert s.replies[0] in s.replies;
  }

  lemma OwnReceive(s: State, p: ProxyId)
    requires Inv(s) && ProxyInv(s) && OwnInv(s) && Enabled(s, Receive(p))
    ensures OwnInv(Step(s, Receive(p)))
  {
    ReceiveFrame(s, p);
    hide Inv, ProxyInv, Step, InTransit, AfterReceive;
    var t := Step(s, Receive(p));
    var y := t.proxies[p];
    if y.id == s.proxies[p].id && Owns(s.proxies[p]) == Owns(y) {
      OwnShrinks(s, t);
    } else {
      OwnGains(s, t, p, y);
    }
  }

  lemma OwnRelease(s: State, p: ProxyId)
    requires Inv(s) && ProxyInv(s) && OwnInv(s) && Enabled(s, Release(p))
    ensures OwnInv(Step(s, Release(p)))
  {
    hide Inv, ProxyOk;
    var t := Step(s, Release(p));
    assert forall id :: InTransit(t, id) <==> InTransit(s, id);
    hide InTransit;
    OwnShrinks(s, t);
  }

  lemma OwnRead(s: State)
    requires Inv(s) && ProxyInv(s) && OwnInv(s) && Enabled(s, HelperRead)
    ensures OwnInv(Step(s, HelperRead))
  {
    hide RegistryInv, LifeInv, Granted;
  }

  lemma OwnNew(s: State, id: Address)
    requires Inv(s) && ProxyInv(s) && OwnInv(s) && Enabled(s, HelperNew(id))
    ensures OwnInv(Step(s, HelperNew(id)))
  {
    hide RegistryInv, LifeInv, Granted;
  }

  lemma OwnGetFails(s: State)
    requires Inv(s) && ProxyInv(s) && OwnInv(s) && Enabled(s, HelperGetFails)
    ensures OwnInv(Step(s, HelperGetFails))
  {
    hide RegistryInv, LifeInv, Granted;
  }

  lemma OwnAct(s: State)
    requires Inv(s) && ProxyInv(s) && OwnInv(s) && Enabled(s, HelperAct)
    ensures OwnInv(Step(s, HelperAct))
  {
    if s.helper.HGot? {
      OwnExecute(s);
    } else {
      OwnAnswer(s);
    }
  }

  /** A destroy takes the object of an id nobody owns. */
  lemma OwnExecute(s: State)
    requires Inv(s) && OwnInv(s) && Enabled(s, HelperAct) && s.helper.HGot?
    ensures OwnInv(Step(s, HelperAct))
  {
    ExecuteFrame(s);
    hide Inv, Step, InTransit;
    OwnShrinks(s, Step(s, HelperAct));
  }

  lemma ExecuteFrame(s: State)
    requires Inv(s) && Enabled(s, HelperAct) && s.helper.HGot?
    ensures var t := Step(s, HelperAct);
            && t.proxies == s.proxies && t.replies == []
            && (t.live == s.live || (s.helper.request.Destroy? && t.live == s.live - {s.helper.request.id}))
            && (s.helper.request.Destroy? ==> InTransit(s, s.helper.request.id))
            && forall id :: !InTransit(t, id)
  {
    ExecuteQuiet(s);
    hide Inv, Remove, IndexOf;
    assert s.helper.request.Destroy? ==> InTransit(s, s.helper.request.id);
    hide InTransit;
    if s.helper.request.Destroy? {
      DestroyFrame(s);
    }
    QuietTransit(Step(s, HelperAct));
  }

  lemma DestroyFrame(s: State)
    requires Enabled(s, HelperAct) && s.helper.HGot? && s.helper.request.Destroy?
    ensures var t := Step(s, HelperAct);
            && t.live == (if s.helper.request.id in s.ptys then s.live - {s.helper.request.id} else s.live)
            && t.proxies == s.proxies && t.replies == s.replies && t.commands == s.commands && t.helper == HNeed
  {
    hide Remove, IndexOf;
  }

  lemma QuietTransit(t: State)
    requires t.commands == [] && t.replies == [] && t.helper == HNeed
    ensures forall id :: !InTransit(t, id)
  {
  }

  lemma ExecuteQuiet(s: State)
    requires Inv(s) && s.helper.HGot?
    ensures s.replies == [] && s.commands == []
  {
    hide RegistryInv, LifeInv, Requests;
  }

  lemma OwnAnswer(s: State)
    requires Inv(s) && OwnInv(s) && Enabled(s, HelperAct) && !s.helper.HGot?
    ensures OwnInv(Step(s, HelperAct))
  {
    assert s.helper.HCreated? ==> s.helper.id in s.live;
    AnswerFrame(s);
    hide Inv, Step, InTransit;
    OwnShrinks(s, Step(s, HelperAct));
  }

  lemma AnswerFrame(s: State)
    requires Enabled(s, HelperAct) && !s.helper.HGot?
    ensures var t := Step(s, HelperAct);
            && t.proxies == s.proxies && t.live == s.live
            && (forall id :: id != 0 && InTransit(t, id) ==> InTransit(s, id))
            && (forall id :: id != 0 && IdMessage(id) in t.replies ==>
                  IdMessage(id) in s.replies || (s.helper.HCreated? && s.helper.id == id))
  {
  }

  lemma OwnGiveNeed(s: State, a: Action)
    requires OwnInv(s) && Enabled(s, a) && (a == HelperGive || a == HelperNeed)
    ensures OwnInv(Step(s, a))
  {
  }

  lemma OwnGone(s: State)
    requires Inv(s) && ProxyInv(s) && OwnInv(s) && Enabled(s, AllGone)
    ensures OwnInv(Step(s, AllGone))
  {
    hide RegistryInv, LifeInv, Granted;
  }

  lemma OwnSweep(s: State)
    requires Inv(s) && ProxyInv(s) && OwnInv(s) && Enabled(s, HelperSweep)
    ensures OwnInv(Step(s, HelperSweep))
  {
    hide RegistryInv, LifeInv, Granted;
  }

  /** Owners that stay owners of live ids, and nothing new in transit. */
  lemma OwnShrinks(s: State, t: State)
    requires OwnInv(s) && s.shared <= t.shared
    requires forall p :: p in t.proxies && OwnsAlone(t.shared, t.proxies[p]) ==>
               p in s.proxies && Owns(s.proxies[p]) && s.proxies[p].id == t.proxies[p].id && t.proxies[p].id in t.live
    requires forall id :: id != 0 && InTransit(t, id) ==> InTransit(s, id)
    requires forall id :: IdMessage(id) in t.replies && id != 0 ==> id in t.live
    ensures OwnInv(t)
  {
    hide InTransit;
  }

  /** A proxy that takes over an id that was in transit to it. */
  lemma OwnGains(s: State, t: State, p: ProxyId, y: Proxy)
    requires OwnInv(s) && p in s.proxies && t.proxies == s.proxies[p := y] && t.live == s.live && t.shared == s.shared
    requires y.id != 0 ==> y.id in s.live && InTransit(s, y.id)
    requires forall id :: !InTransit(t, id) && IdMessage(id) !in t.replies
    ensures OwnInv(t)
  {
    hide InTransit;
    assert forall q :: q in s.proxies && OwnsAlone(s.shared, s.proxies[q]) ==> s.proxies[q].id != y.id;
  }

  lemma KeepOwnership(s: State, a: Action)
    requires Inv(s) && ProxyInv(s) && OwnInv(s) && Enabled(s, a)
    ensures OwnInv(Step(s, a))
  {
    hide Inv, ProxyInv, InTransit;
    match a
    case Create(p) => OwnCreate(s, p);
    case Fork(p, q) => OwnFork(s, p, q);
    case Leave(p) => OwnLeave(s, p);
    case Begin(p, r) => OwnBegin(s, p, r);
    case Acquire(p) => OwnAcquire(s, p);
    case Send(p) => OwnSend(s, p);
    case Receive(p) => OwnReceive(s, p);
    case Release(p) => OwnRelease(s, p);
    case HelperRead => OwnRead(s);
    case HelperNew(id) => OwnNew(s, id);
    case HelperGetFails => OwnGetFails(s);
    case HelperAct => OwnAct(s);
    case AllGone => OwnGone(s);
    case HelperSweep => OwnSweep(s);
    case HelperGive => OwnGiveNeed(s, a);
    case HelperNeed => OwnGiveNeed(s, a);
  }

  // ---- progress ----

  /** Steps of the helper while it serves, and of the proxy that holds the token. */
  predicate Service(a: Action) {
    || a.Send? || a.Receive? || a.Release?
    || a.HelperGive? || a.HelperRead? || a.HelperNew? || a.HelperGetFails? || a.HelperAct? || a.HelperNeed?
  }

  function ProxyLeft(pc: ProxyPc): nat {
    match pc
    case Write(r) => if r.Get? then 5 else 2
    case ReadId => 4
    case ReadPty => 3
    case ReadTty => 2
    case Give(_) => 1
    case _ => 0
  }

  function HelperLeft(s: State): nat {
    match s.helper
    case HRead => if s.down > 0 then 0 else 9
    case HGot(_) => 8
    case HCreated(_, _) => 7
    case HWroteId(_, _) => 6
    case HPushed(_, _) => 5
    case HSentPty(_, _) => 4
    case HSentTty(_, _) => 3
    case HFailed => 3
    case HNeed => 2
    case HGive => 1
    case _ => 0
  }

  /** How many service steps are left until the helper offers the token again. */
  function Rank(s: State): nat {
    HelperLeft(s) +
    if s.holder.Some? && s.holder.value in s.proxies then ProxyLeft(s.proxies[s.holder.value].pc) else 0
  }

  /** Every service step makes progress; what other proxies do meanwhile takes nothing back; taking the token starts
      at most fourteen steps. */
  lemma RankStep(s: State, a: Action)
    requires Inv(s) && Enabled(s, a)
    ensures Service(a) ==> Rank(Step(s, a)) < Rank(s)
    ensures !Service(a) && !a.Acquire? ==> Rank(Step(s, a)) <= Rank(s)
    ensures Rank(Step(s, a)) <= 14
  {
    KeepStep(s, a);
    RankBound(Step(s, a));
    hide Inv, Enabled, Step, Rank;
    RankMoves(s, a);
  }

  lemma RankMoves(s: State, a: Action)
    requires Inv(s) && Enabled(s, a)
    ensures Service(a) ==> Rank(Step(s, a)) < Rank(s)
    ensures !Service(a) && !a.Acquire? ==> Rank(Step(s, a)) <= Rank(s)
  {
    hide Inv, Enabled, Step, Rank;
    match a
    case Send(p) => SendRank(s, p);
    case Receive(p) => ReceiveRank(s, p);
    case Release(p) => ReleaseRank(s, p);
    case HelperAct => ActRank(s);
    case HelperGive => TurnRank(s, a);
    case HelperRead => TurnRank(s, a);
    case HelperNew(_) => NewRank(s, a);
    case HelperGetFails => NewRank(s, a);
    case HelperNeed => TurnRank(s, a);
    case AllGone => ExitRank(s, a);
    case HelperSweep => ExitRank(s, a);
    case Acquire(_) =>
    case _ => OthersRank(s, a);
  }

  lemma SendRank(s: State, p: ProxyId)
    requires Inv(s) && Enabled(s, Send(p))
    ensures Rank(Step(s, Send(p))) < Rank(s)
  {
    hide ExchangeInv, RegistryInv, LifeInv;
  }

  lemma ReceiveRank(s: State, p: ProxyId)
    requires Inv(s) && Enabled(s, Receive(p))
    ensures Rank(Step(s, Receive(p))) < Rank(s)
  {
    ReceiveWhere(s, p);
    ReceiveLegal(s, p);
    hide Inv;
  }

  lemma ReleaseRank(s: State, p: ProxyId)
    requires Inv(s) && Enabled(s, Release(p))
    ensures Rank(Step(s, Release(p))) < Rank(s)
  {
    hide ExchangeInv, RegistryInv, LifeInv;
  }

  lemma TurnRank(s: State, a: Action)
    requires Inv(s) && Enabled(s, a) && (a.HelperGive? || a.HelperRead? || a.HelperNeed?)
    ensures Rank(Step(s, a)) < Rank(s)
  {
    if a.HelperRead? {
      ReadMeansTaken(s);
    }
    hide ExchangeInv, RegistryInv, LifeInv;
  }

  lemma NewRank(s: State, a: Action)
    requires Inv(s) && Enabled(s, a) && (a.HelperNew? || a.HelperGetFails?)
    ensures Rank(Step(s, a)) < Rank(s)
  {
    hide ExchangeInv, RegistryInv, LifeInv;
  }

  lemma ExitRank(s: State, a: Action)
    requires Inv(s) && Enabled(s, a) && (a.AllGone? || a.HelperSweep?)
    ensures Rank(Step(s, a)) <= Rank(s)
  {
    hide ExchangeInv, RegistryInv, LifeInv;
  }

  lemma ReadMeansTaken(s: State)
    requires Inv(s) && s.helper.HRead? && s.commands != []
    ensures s.down == 0
  {
    hide RegistryInv, LifeInv, Requests;
  }

  lemma OthersRank(s: State, a: Action)
    requires Inv(s) && Enabled(s, a) && (a.Create? || a.Fork? || a.Leave? || a.Begin?)
    ensures Rank(Step(s, a)) <= Rank(s)
  {
    hide ExchangeInv, RegistryInv, LifeInv;
  }

  lemma ActRank(s: State)
    requires Inv(s) && Enabled(s, HelperAct)
    ensures Rank(Step(s, HelperAct)) < Rank(s)
  {
    hide Inv;
    ActKeepsProxies(s);
    ActKeepsHolder(s);
    hide AfterAct;
  }

  lemma ActKeepsHolder(s: State)
    requires Enabled(s, HelperAct)
    ensures AfterAct(s).holder == s.holder && AfterAct(s).down == s.down
    ensures HelperLeft(AfterAct(s)) < HelperLeft(s)
  {
    hide Remove, IndexOf;
    match s.helper
    case HGot(r) =>
    case HCreated(id, k) =>
    case HFailed =>
    case HWroteId(id, k) =>
    case HPushed(id, k) =>
    case HSentPty(id, k) =>
    case HSentTty(id, k) =>
  }

  lemma FreshAddress(live: map<Address, nat>) returns (id: Address)
    ensures id != 0 && id !in live
  {
    var bound := AboveAll(live.Keys);
    id := bound + 1;
  }

  lemma {:induction false} AboveAll(ids: set<Address>) returns (bound: nat)
    ensures forall id :: id in ids ==> id <= bound
  {
    if ids == {} {
      bound := 0;
    } else {
      var x :| x in ids;
      var rest := ids - {x};
      bound := AboveAll(rest);
      assert forall id :: id in ids ==> id == x || id in rest;
      if bound < x {
        bound := x;
      }
    }
  }

  /** No reachable state is stuck: while the token is not on offer, a service step is possible. */
  lemma NeverStuck(s: State) returns (a: Action)
    requires Inv(s) && Serving(s) && s.down == 0
    ensures Service(a) && Enabled(s, a)
  {
    var id := FreshAddress(s.live);
    hide RegistryInv, LifeInv, Requests;
    match s.helper
    case HGive => a := HelperGive;
    case HRead => a := if s.commands != [] then HelperRead else Send(s.holder.value);
    case HGot(r) => a := if r.Get? then HelperNew(id) else HelperAct;
    case HNeed =>
      if s.up > 0 {
        a := HelperNeed;
      } else {
        var p := s.holder.value;
        a := if s.proxies[p].pc.Give? then Release(p) else Receive(p);
        AnswerComplete(s, LastOutcome(s));
      }
    case _ => a := HelperAct;
  }

  lemma AnswerComplete(s: State, o: Outcome)
    requires TokenInv(s) && Answering(s, o, |Answer(o)|) && s.holder.Some?
    ensures var x := s.proxies[s.holder.value];
            x.pc.Give? || (s.replies != [] && (x.pc.ReadId? || x.pc.ReadPty? || x.pc.ReadTty?))
  {
  }

  // ---- what one step of serve changes ----

  /** The steps of serve that finish with a command. */
  predicate Executes(helper: HelperPc) {
    helper.HWroteId? || helper.HFailed? || (helper.HGot? && !helper.request.Get?)
  }

  /** The serial that has been given out, but not yet to an object the helper has finished with. */
  function InHand(helper: HelperPc): nat {
    if helper.HCreated? || helper.HFailed? || helper.HWroteId? then 1 else 0
  }

  lemma RegisteredIsLive(s: State, id: Address)
    requires Inv(s) && s.helper.HGot?
    ensures id in s.ptys <==> id in s.live
  {
    hide TokenInv, ExchangeInv, LifeInv, Replay;
    assert id in s.ptys <==> id in Elements(s.ptys);
  }

  lemma DestroyStep(s: State)
    requires Enabled(s, HelperAct) && s.helper.HGot? && s.helper.request.Destroy?
    ensures var u, id := Step(s, HelperAct), s.helper.request.id;
            u.helper == HNeed && u.born == s.born && u.live == if id in s.ptys then s.live - {id} else s.live
  {
    hide Remove, IndexOf;
  }

  lemma PushTarget(s: State)
    requires Inv(s) && s.helper.HWroteId?
    ensures s.helper.id in s.live && s.live[s.helper.id] == s.helper.serial && s.helper.id != 0
  {
    hide TokenInv, ExchangeInv, LifeInv, Replay;
    assert s.helper.id in Unregistered(s.helper);
  }

  lemma PushStep(s: State)
    requires Enabled(s, HelperAct) && s.helper.HWroteId?
    ensures var u := Step(s, HelperAct);
            u.helper == HPushed(s.helper.id, s.helper.serial) && u.live == s.live && u.born == s.born
  {
  }

  lemma OnStep(s: State)
    requires Enabled(s, HelperAct) && !s.helper.HGot? && !s.helper.HWroteId?
    ensures var u := Step(s, HelperAct);
            && u.live == s.live && u.born == s.born
            && (s.helper.HCreated? ==> u.helper == HWroteId(s.helper.id, s.helper.serial))
            && (!s.helper.HCreated? ==> InHand(u.helper) == 0 && Unregistered(u.helper) == map[])
            && (!s.helper.HCreated? && !s.helper.HFailed? ==> InHand(s.helper) == 0)
            && (!s.helper.HCreated? ==> Unregistered(s.helper) == map[])
  {
  }

  lemma GetFailsDeletes(s: State)
    requires Inv(s) && Enabled(s, HelperGetFails)
    ensures s.helper.HCreated?
    ensures var u := Step(s, HelperGetFails); u.helper == HFailed && u.deleted == s.deleted + [s.helper.serial]
  {
    RegistryGetFails(s.ptys, s.live, s.executed, s.helper.id, s.helper.serial);
    assert s.helper.id in Unregistered(s.helper);
    hide TokenInv, ExchangeInv, LifeInv, Replay;
  }

  lemma ActDeletes(s: State)
    requires Enabled(s, HelperAct)
    ensures var u := Step(s, HelperAct);
            && !u.helper.HFailed?
            && u.deleted ==
                 if s.helper.HGot? && s.helper.request.Destroy? && s.helper.request.id in s.ptys
                    && s.helper.request.id in s.live
                 then s.deleted + [s.live[s.helper.request.id]]
                 else s.deleted
  {
    hide Remove, IndexOf;
  }

  lemma NotExecuting(s: State)
    requires Enabled(s, HelperAct) && !Executes(s.helper)
    ensures !s.helper.HGot? && !s.helper.HWroteId? && !s.helper.HFailed?
  {
  }

  /** The command that this step finishes with. */
  lemma ExecutedStep(s: State) returns (e: Event)
    requires Enabled(s, HelperAct) && Executes(s.helper)
    ensures Step(s, HelperAct).executed == s.executed + [e]
    ensures var u := Step(s, HelperAct).helper; u.HNeed? || u.HPushed?
    ensures s.helper.HGot? ==> e.request == s.helper.request && e.outcome.Done?
    ensures s.helper.HWroteId? ==> e.request == Get && e.outcome == Created(s.helper.id, s.helper.serial)
    ensures s.helper.HFailed? ==> e.request == Get && e.outcome.Failed?
  {
    hide Remove, IndexOf;
    e := Step(s, HelperAct).executed[|s.executed|];
  }

  // ---- the theorems, over every run ----

  lemma {:induction false} ReachableAll(run: seq<State>, i: nat)
    requires Run(run) && i < |run|
    ensures Inv(run[i]) && ProxyInv(run[i]) && OwnInv(run[i])
  {
    hide Inv, Enabled, Step, OwnInv, ProxyOk;
    Reachable(run, i);
    if i == 0 {
      assert OwnInv(INITIAL) by { OwnInitial(); }
    } else {
      ReachableAll(run, i - 1);
      assert Follows(run[i - 1], run[i]);
      var a :| Enabled(run[i - 1], a) && Step(run[i - 1], a) == run[i];
      KeepProxies(run[i - 1], a);
      KeepOwnership(run[i - 1], a);
    }
  }

  lemma OwnInitial()
    ensures OwnInv(INITIAL)
  {
  }

  lemma SharedStays(s: State, a: Action)
    requires Enabled(s, a)
    ensures s.shared <= Step(s, a).shared
    ensures s.acquired <= Step(s, a).acquired && s.executed <= Step(s, a).executed
  {
    if a.HelperAct? {
      ActKeepsHistory(s);
    }
    hide AfterAct, AfterReceive;
  }

  lemma ActKeepsHistory(s: State)
    requires Enabled(s, HelperAct)
    ensures var t := AfterAct(s); t.shared == s.shared && t.acquired == s.acquired && s.executed <= t.executed
  {
    hide Remove, IndexOf;
    match s.helper
    case HGot(Login(_, _, _, _)) =>
    case HGot(Destroy(_)) =>
    case HCreated(_, _) =>
    case HFailed =>
    case HWroteId(_, _) =>
    case HPushed(_, _) =>
    case HSentPty(_, _) =>
    case HSentTty(_, _) =>
  }

  /** At most one proxy is between NEED_TOKEN and GIVE_TOKEN, and while one is, no token is anywhere else. */
  lemma MutualExclusion(run: seq<State>, i: nat, p: ProxyId, q: ProxyId)
    requires Run(run) && i < |run|
    requires p in run[i].proxies && q in run[i].proxies
    requires Critical(run[i].proxies[p].pc) && Critical(run[i].proxies[q].pc)
    ensures p == q && run[i].down == 0 && run[i].up == 0 && !run[i].helper.HGive?
  {
    Reachable(run, i);
    hide ExchangeInv, RegistryInv, LifeInv;
  }

  /** The helper executes the requests in the order the token was acquired for them, at most one behind; and the
      registry is exactly what an atomic registry is after the executed ones. */
  lemma AtomicOrder(run: seq<State>, i: nat)
    requires Run(run) && i < |run|
    ensures var s := run[i];
            && Requests(s.executed) <= s.acquired && |s.acquired| <= |s.executed| + 1
            && s.ptys == Replay(s.executed) && NoDuplicates(s.ptys)
  {
    Reachable(run, i);
    hide LifeInv, Replay, TokenInv;
  }

  /** The order never changes afterwards: histories only grow. */
  lemma {:induction false} HistoryGrows(run: seq<State>, i: nat, j: nat)
    requires Run(run) && i <= j < |run|
    ensures run[i].acquired <= run[j].acquired && run[i].executed <= run[j].executed
  {
    hide Enabled, Step;
    if i < j {
      HistoryGrows(run, i, j - 1);
      assert Follows(run[j - 1], run[j]);
      var a :| Enabled(run[j - 1], a) && Step(run[j - 1], a) == run[j];
      SharedStays(run[j - 1], a);
    }
  }

  /** Whoever holds the token and has not written yet finds both directions of the command socket empty, the helper
      waiting, and every earlier request, the unacknowledged login and destroy included, executed in full. */
  lemma CleanHandover(run: seq<State>, i: nat, p: ProxyId)
    requires Run(run) && i < |run| && p in run[i].proxies && run[i].proxies[p].pc.Write?
    ensures var s := run[i];
            && s.commands == [] && s.replies == [] && s.helper == HRead
            && s.acquired == Requests(s.executed) + [(p, s.proxies[p].pc.request)]
            && s.live.Keys == Elements(s.ptys)
  {
    Reachable(run, i);
    assert run[i].holder == Some(p);
    hide LifeInv, Replay, Requests;
  }

  /** A proxy that has an id, is not in the middle of get and has not begun its destructor holds both descriptors of the
      object its id names, all made by one get; unless a fork has copied a proxy with this id, by a get of its own. No
      proxy ever meets a message of the wrong kind. */
  lemma RepliesPaired(run: seq<State>, i: nat, p: ProxyId)
    requires Run(run) && i < |run| && p in run[i].proxies
    ensures var s, x := run[i], run[i].proxies[p];
            && !x.pc.ProtocolError?
            && (x.id != 0 && !x.pc.ReadPty? && !x.pc.ReadTty? && !Destroying(x) ==>
                  && x.pty.Some? && x.tty.Some?
                  && exists j :: && 0 <= j < |s.executed| && GrantedBy(s.executed[j], x)
                                 && (x.id in s.shared || s.executed[j].proxy == p))
  {
    ReachableAll(run, i);
    hide Inv, OwnInv;
  }

  /** When get is about to return, the last executed command is this proxy's own get: it failed if the proxy has read
      the null address, and otherwise made exactly what the proxy holds. With forks or without. */
  lemma GetReturns(run: seq<State>, i: nat, p: ProxyId)
    requires Run(run) && i < |run| && p in run[i].proxies && run[i].proxies[p].pc == Give(Get)
    ensures var s, x := run[i], run[i].proxies[p];
            && s.executed != []
            && var e := s.executed[|s.executed| - 1];
               && e.proxy == p && e.request == Get
               && if x.id == 0 then e.outcome.Failed? else GrantedBy(e, x)
  {
    Reachable(run, i);
    GetReturned(run[i], p);
  }

  lemma GetReturned(s: State, p: ProxyId)
    requires Inv(s) && p in s.proxies && s.proxies[p].pc == Give(Get)
    ensures s.executed != []
    ensures var e, x := s.executed[|s.executed| - 1], s.proxies[p];
            && e.proxy == p && e.request == Get
            && if x.id == 0 then e.outcome.Failed? else GrantedBy(e, x)
  {
    GiveWhere(s, p);
    hide RegistryInv, LifeInv, Answering, Settled;
    var o, n := LastOutcome(s), |Answer(LastOutcome(s))|;
    AnswersCurrent(s, p, o, n);
    LastIsCurrent(s);
    AnswerRead(s, p, o);
  }

  lemma GiveWhere(s: State, p: ProxyId)
    requires Inv(s) && p in s.proxies && s.proxies[p].pc == Give(Get)
    ensures s.executed != [] && Settled(s.acquired, s.executed)
    ensures Answering(s, LastOutcome(s), |Answer(LastOutcome(s))|)
  {
    hide RegistryInv, LifeInv, Requests;
    assert s.holder == Some(p);
  }

  /** A proxy that has read a whole answer holds what it said. */
  lemma AnswerRead(s: State, p: ProxyId, o: Outcome)
    requires TokenInv(s) && p in s.proxies && s.proxies[p].pc == Give(Get) && Answering(s, o, |Answer(o)|)
    ensures o.Created? ==>
              var x := s.proxies[p];
              x.id == o.id != 0 && x.pty == Some(PtyEnd(o.serial)) && x.tty == Some(TtyEnd(o.serial))
    ensures !o.Created? ==> o.Failed? && s.proxies[p].id == 0
  {
    assert s.holder == Some(p);
    var answer := Answer(o);
    assert answer[..|answer|] == answer;
  }

  /** An id that no fork has copied, of a proxy that has not sent its destroy, names a live object; no other proxy has it,
      and whenever the helper is at its loop head it is in the registry. What forks do to other ids does not matter. */
  lemma OwnedIsRegistered(run: seq<State>, i: nat, p: ProxyId)
    requires Run(run) && i < |run| && p in run[i].proxies && OwnsAlone(run[i].shared, run[i].proxies[p])
    ensures var s := run[i];
            && s.proxies[p].id in s.live
            && (s.helper.HGive? || s.helper.HRead? ==> s.proxies[p].id in s.ptys)
            && forall q :: q in s.proxies && q != p && Owns(s.proxies[q]) ==> s.proxies[q].id != s.proxies[p].id
  {
    ReachableAll(run, i);
    hide ProxyInv, LifeInv, ExchangeInv, TokenInv, Replay;
  }

  /** When the helper has exited, every object it ever created has been deleted, exactly once, and none is left. */
  lemma DeletedExactlyOnce(run: seq<State>, i: nat)
    requires Run(run) && i < |run|
    ensures var s := run[i];
            && (forall j, k :: 0 <= j < k < |s.deleted| ==> s.deleted[j] != s.deleted[k])
            && (s.helper.HExited? ==> s.live == map[] && forall k :: 0 <= k < s.born <==> k in s.deleted)
  {
    Reachable(run, i);
    hide TokenInv, ExchangeInv, Replay;
    var s := run[i];
    if s.helper.HExited? {
      assert s.live.Keys == {};
    }
  }

  /** In no reachable state of any run is the service stuck before the token is on offer again, and at most fourteen
      service steps are left. */
  lemma ServiceCompletes(run: seq<State>, i: nat) returns (a: Action)
    requires Run(run) && i < |run| && Serving(run[i])
    ensures Rank(run[i]) <= 14
    ensures run[i].down == 0 ==> Service(a) && Enabled(run[i], a) && Rank(Step(run[i], a)) < Rank(run[i])
    ensures run[i].down == 1 ==> Rank(run[i]) == 0
  {
    Reachable(run, i);
    RankBound(run[i]);
    if run[i].down == 0 {
      a := NeverStuck(run[i]);
      RankStep(run[i], a);
    } else {
      a := HelperRead;
    }
  }

  lemma RankBound(s: State)
    requires Inv(s)
    ensures Rank(s) <= 14 && (Serving(s) && s.down == 1 ==> Rank(s) == 0) && s.down <= 1
  {
    hide RegistryInv, LifeInv, Requests, Answering;
  }
}
