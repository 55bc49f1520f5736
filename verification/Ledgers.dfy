/** The sessions that a history of commands and answers asks for: which calls of log_session, for whom, in which order. */
module Ledgers {
  import opened Accounts
  import opened Descriptors
  import opened Os
  import opened Registry
  import opened Session
  import opened Wrappers

  const HOST_MAX := 511 // characters of a host name that fit command.hostname

  /** What the helper writes to the command socket. */
  datatype Reply = Id(id: Address) | Descriptor(file: File)

  /** An object as far as sessions are concerned: its device name and its last login. */
  datatype Account = Account(serial: nat, name: string, pid: int, shell: bool)

  /** One call of log_session, and whether the system would take a record for wtmp during it. */
  datatype Call = Call(serial: nat, login: bool, name: string, pid: int, shell: bool, host: string, taken: bool)

  datatype Ledger = Ledger(accounts: map<Address, Account>, calls: seq<Call>)

  const EMPTY := Ledger(map[], [])

  function Opened(l: Ledger, id: Address, serial: nat, name: string): Ledger {
    l.(accounts := l.accounts[id := Account(serial, name, 0, false)])
  }

  /** A login counts if its id is registered and the object has a device name. */
  function LoggedIn(l: Ledger, id: Address, pid: int, shell: bool, host: string, taken: bool): Ledger {
    if id in l.accounts && l.accounts[id].name != "" then
      var a := l.accounts[id].(pid := pid, shell := shell);
      Ledger(l.accounts[id := a], l.calls + [Call(a.serial, true, a.name, pid, shell, StrNCpy(host, HOST_MAX), taken)])
    else l
  }

  /** Deleting an object logs its last login out, if that had a pid. */
  function Farewell(a: Account, taken: bool): (calls: seq<Call>)
    ensures |calls| <= 1
  {
    if a.pid == 0 then [] else [Call(a.serial, false, a.name, a.pid, a.shell, "", taken)]
  }

  function Closed(l: Ledger, id: Address, taken: bool): Ledger {
    if id in l.accounts then Ledger(l.accounts - {id}, l.calls + Farewell(l.accounts[id], taken)) else l
  }

  /** The device name that the answer to a get hands over. */
  function NameIn(r: seq<Reply>): string {
    if |r| == 3 && r[2].Descriptor? && r[2].file.Device? then r[2].file.path else ""
  }

  /** What one executed command, with its answer, does to the ledger. */
  function Book(l: Ledger, e: Event, r: seq<Reply>, taken: bool): Ledger {
    match (e.request, e.outcome)
    case (Get, Created(id, serial)) => Opened(l, id, serial, NameIn(r))
    case (Login(id, pid, shell, host), _) => LoggedIn(l, id, pid, shell, host, taken)
    case (Destroy(id), _) => Closed(l, id, taken)
    case _ => l
  }

  /** The ledger after a history, oldest first; taken says for each command whether wtmp would take a record. */
  function BookAll(history: seq<Event>, replies: seq<seq<Reply>>, taken: nat -> bool): Ledger
    requires |history| == |replies|
  {
    if history == [] then EMPTY
    else
      var n := |history| - 1;
      Book(BookAll(history[..n], replies[..n], taken), history[n], replies[n], taken(n))
  }

  lemma BookNone(taken: nat -> bool)
    ensures BookAll([], [], taken) == EMPTY
  {
  }

  lemma BookStep(history: seq<Event>, replies: seq<seq<Reply>>, taken: nat -> bool, e: Event, r: seq<Reply>)
    requires |history| == |replies|
    ensures BookAll(history + [e], replies + [r], taken) ==
              Book(BookAll(history, replies, taken), e, r, taken(|history|))
  {
    assert (history + [e])[..|history|] == history && (replies + [r])[..|replies|] == replies;
  }

  /** The sweep: the objects of a registry closed from the last to the first. */
  function CloseAll(l: Ledger, ptys: seq<Address>, taken: nat -> bool): Ledger
    decreases |ptys|
  {
    if ptys == [] then l
    else
      var n := |ptys| - 1;
      CloseAll(Closed(l, ptys[n], taken(n)), ptys[..n], taken)
  }

  lemma CloseLast(l: Ledger, ptys: seq<Address>, taken: nat -> bool, i: nat)
    requires i < |ptys|
    ensures CloseAll(l, ptys[..i + 1], taken) == CloseAll(Closed(l, ptys[i], taken(i)), ptys[..i], taken)
  {
    assert ptys[..i + 1][..i] == ptys[..i];
  }

  lemma CloseNone(l: Ledger, ptys: seq<Address>, taken: nat -> bool)
    requires ptys == []
    ensures CloseAll(l, ptys, taken) == l
  {
  }

  // ----- the ledger and the trace -----

  /** The entry is what this call writes; it goes to wtmp exactly if it is a login shell's and wtmp takes it. */
  predicate Records(e: Entry, c: Call, site: Site) {
    && e.serial == c.serial && e.shell == c.shell
    && e.record == Fill(site, c.login, c.pid, SkipDev(c.name), c.host)
    && (e.written <==> c.shell && site.wtmpSupport && c.taken)
  }

  /** The trace is what these calls write, entry by entry. */
  ghost predicate Written(trace: seq<Entry>, calls: seq<Call>, site: Site) {
    && |trace| == |calls|
    && forall i :: 0 <= i < |calls| ==> Records(trace[i], calls[i], site)
  }

  lemma WrittenMore(trace: seq<Entry>, calls: seq<Call>, es: seq<Entry>, cs: seq<Call>, site: Site)
    requires Written(trace, calls, site) && Written(es, cs, site)
    ensures Written(trace + es, calls + cs, site)
  {
    hide Records;
  }

  /** Every entry names the device of its call. */
  lemma DevicesNamed(trace: seq<Entry>, calls: seq<Call>, site: Site, i: nat)
    requires Written(trace, calls, site) && i < |calls|
    ensures NamesDevice(trace[i].record, calls[i].name, site.sizes)
  {
    assert Records(trace[i], calls[i], site);
    FillNamesDevice(site, calls[i].login, calls[i].pid, calls[i].name, calls[i].host);
    hide Fill, SkipDev;
  }

  predicate Matches(a: Account, o: Fields) {
    && a.serial == o.serial && o.name == Some(a.name) && a.pid == o.cmdPid
    && (a.pid != 0 ==> a.shell == o.loginShell)
  }

  ghost predicate SameAccounts(accounts: map<Address, Account>, v: Objects) {
    && (forall a :: a in accounts <==> a in v)
    && (forall a :: a in v ==> Matches(accounts[a], v[a]))
  }

  // ----- what the ledger says about the logins -----

  /** The logins among the calls. */
  function Logins(calls: seq<Call>): seq<Call> {
    if calls == [] then []
    else
      var n := |calls| - 1;
      Logins(calls[..n]) + if calls[n].login then [calls[n]] else []
  }

  /** The login entries of a trace. */
  function LoginEntries(trace: seq<Entry>): seq<Entry> {
    if trace == [] then []
    else
      var n := |trace| - 1;
      LoginEntries(trace[..n]) + if trace[n].record.kind.UserProcess? then [trace[n]] else []
  }

  /** The login entries are what the login calls write, one for one and in their order. */
  lemma {:induction false} LoginsWritten(trace: seq<Entry>, calls: seq<Call>, site: Site)
    requires Written(trace, calls, site)
    ensures Written(LoginEntries(trace), Logins(calls), site)
  {
    if trace == [] {
    } else {
      var n := |trace| - 1;
      LoginsWritten(trace[..n], calls[..n], site);
      assert Records(trace[n], calls[n], site);
      assert trace[n].record.kind.UserProcess? <==> calls[n].login;
      hide Records;
    }
  }

  /** Apart from a login that counts, no command and no sweep adds a login; a login that counts adds itself. */
  lemma LoginsOnlyByLogin(l: Ledger, e: Event, r: seq<Reply>, taken: bool)
    ensures Logins(Book(l, e, r, taken).calls) == Logins(l.calls) +
              match e.request
              case Login(id, pid, shell, host) =>
                if id in l.accounts && l.accounts[id].name != "" then
                  [Call(l.accounts[id].serial, true, l.accounts[id].name, pid, shell, StrNCpy(host, HOST_MAX),
                        taken)]
                else []
              case _ => []
  {
    match (e.request, e.outcome)
    case (Login(id, pid, shell, host), _) =>
      if id in l.accounts && l.accounts[id].name != "" {
        var c := Call(l.accounts[id].serial, true, l.accounts[id].name, pid, shell, StrNCpy(host, HOST_MAX), taken);
        assert (l.calls + [c])[..|l.calls|] == l.calls;
      }
    case (Destroy(id), _) => ClosedAddsNoLogin(l, id, taken);
    case _ =>
  }

  lemma ClosedAddsNoLogin(l: Ledger, id: Address, taken: bool)
    ensures Logins(Closed(l, id, taken).calls) == Logins(l.calls)
  {
    if id in l.accounts {
      var cs := Farewell(l.accounts[id], taken);
      if cs == [] {
        assert l.calls + cs == l.calls;
      } else {
        assert (l.calls + cs)[..|l.calls|] == l.calls;
      }
    }
  }

  lemma {:induction false} SweepAddsNoLogin(l: Ledger, ptys: seq<Address>, taken: nat -> bool)
    ensures Logins(CloseAll(l, ptys, taken).calls) == Logins(l.calls)
    decreases |ptys|
  {
    if ptys == [] {
    } else {
      var n := |ptys| - 1;
      ClosedAddsNoLogin(l, ptys[n], taken(n));
      SweepAddsNoLogin(Closed(l, ptys[n], taken(n)), ptys[..n], taken);
    }
  }

  // ----- wtmp -----

  /** The entries of an object end in the logout of a login shell. */
  predicate EndsShell(s: seq<Entry>) {
    s != [] && s[|s| - 1].record.kind.DeadProcess? && s[|s| - 1].shell
  }

  /** How many of the first n objects were logged out of a login shell. */
  function ShellLogouts(trace: seq<Entry>, n: nat): nat {
    if n == 0 then 0 else ShellLogouts(trace, n - 1) + if EndsShell(Of(trace, n - 1)) then 1 else 0
  }

  ghost predicate AllTaken(calls: seq<Call>) {
    forall i :: 0 <= i < |calls| ==> calls[i].taken
  }

  ghost predicate AllWritten(s: seq<Entry>) {
    forall i :: 0 <= i < |s| ==> (s[i].written <==> s[i].shell)
  }

  lemma {:induction false} AllWrittenOf(trace: seq<Entry>, serial: nat)
    requires AllWritten(trace)
    ensures AllWritten(Of(trace, serial))
  {
    if trace == [] {
    } else {
      AllWrittenOf(trace[..|trace| - 1], serial);
    }
  }

  lemma {:induction false} ShellsAgree(trace: seq<Entry>, n: nat)
    requires AllWritten(trace) && forall k :: 0 <= k < n ==> Balanced(Of(trace, k))
    ensures ShellsLoggedOut(trace, n) == ShellLogouts(trace, n)
  {
    if n == 0 {
    } else {
      ShellsAgree(trace, n - 1);
      AllWrittenOf(trace, n - 1);
      BalancedShell(Of(trace, n - 1));
      hide Of, Balanced, EndsShell, LeavesDead, AllWritten;
    }
  }

  lemma BalancedShell(s: seq<Entry>)
    requires Balanced(s) && AllWritten(s)
    ensures LeavesDead(s) <==> EndsShell(s)
  {
  }

  /** With wtmp enabled and every write succeeding, wtmp gains exactly one DEAD record for each object whose last login
      was a login shell with a pid, and no other. */
  lemma DeadWhenTaken(trace: seq<Entry>, calls: seq<Call>, site: Site, n: nat)
    requires Written(trace, calls, site) && site.wtmpSupport && AllTaken(calls)
    requires forall k :: 0 <= k < n ==> Balanced(Of(trace, k))
    requires forall k :: k >= n ==> Of(trace, k) == []
    ensures DeadRecords(Appended(trace)) == ShellLogouts(trace, n)
  {
    hide Fill, Of, Balanced, DeadRecords, Appended;
    assert forall i :: 0 <= i < |calls| ==> Records(trace[i], calls[i], site);
    ShellsAgree(trace, n);
    DeadInAll(trace, n);
  }

  lemma NotWritten(e: Entry, c: Call, site: Site)
    requires Records(e, c, site) && (!site.wtmpSupport || !c.taken)
    ensures !e.written
  {
  }

  /** Without wtmp, or with no write succeeding, it gains nothing. */
  lemma {:induction false} NothingWhenRefused(trace: seq<Entry>, calls: seq<Call>, site: Site)
    requires Written(trace, calls, site)
    requires !site.wtmpSupport || forall i :: 0 <= i < |calls| ==> !calls[i].taken
    ensures Appended(trace) == []
  {
    if trace == [] {
    } else {
      var n := |trace| - 1;
      NotWritten(trace[n], calls[n], site);
      hide Records;
      NothingWhenRefused(trace[..n], calls[..n], site);
    }
  }
}
