/** The registry of the helper process as one atomic object: what a history of executed commands amounts to. */
module Registry {

  type ProxyId = nat
  type Address = nat // a pointer value; 0 is the null pointer

  /** The three commands of src/proxy.C. */
  datatype Request =
    | Get
    | Login(id: Address, pid: int, shell: bool, host: string)
    | Destroy(id: Address)

  /** Serial numbers the objects ever created; addresses may be reused, serials are not. */
  datatype Outcome = Created(id: Address, serial: nat) | Failed | Done

  datatype Event = Event(proxy: ProxyId, request: Request, outcome: Outcome)

  /** The position of id, or the length if it is not there: find in src/estl.h. */
  function IndexOf(ptys: seq<Address>, id: Address): (i: nat)
    ensures i <= |ptys| && (i < |ptys| ==> ptys[i] == id)
    ensures id in ptys <==> i < |ptys|
    ensures id !in ptys[..i]
  {
    if ptys == [] || ptys[0] == id then 0
    else
      var i := 1 + IndexOf(ptys[1..], id);
      assert ptys[..i] == [ptys[0]] + ptys[1..][..i - 1];
      i
  }

  /** Erasing id; an unknown id changes nothing. */
  function Remove(ptys: seq<Address>, id: Address): (r: seq<Address>)
    ensures id !in ptys ==> r == ptys
  {
    var i := IndexOf(ptys, id);
    if i < |ptys| then ptys[..i] + ptys[i + 1..] else ptys
  }

  /** The effect of one executed command on the registry. */
  function Execute(ptys: seq<Address>, e: Event): seq<Address> {
    match (e.request, e.outcome)
    case (Get, Created(id, _)) => ptys + [id]
    case (Destroy(id), _) => Remove(ptys, id)
    case _ => ptys
  }

  /** The registry after a history of commands, oldest first. */
  function Replay(history: seq<Event>): seq<Address> {
    if history == [] then []
    else Execute(Replay(history[..|history| - 1]), history[|history| - 1])
  }

  lemma ReplayStep(history: seq<Event>, e: Event)
    ensures Replay(history + [e]) == Execute(Replay(history), e)
  {
    assert (history + [e])[..|history|] == history;
  }

  ghost predicate NoDuplicates(s: seq<Address>) {
    forall i, j :: 0 <= i < j < |s| ==> s[i] != s[j]
  }

  ghost function Elements(s: seq<Address>): set<Address> {
    set x | x in s
  }

  lemma PushKeeps(ptys: seq<Address>, id: Address)
    requires NoDuplicates(ptys) && id !in ptys
    ensures NoDuplicates(ptys + [id]) && Elements(ptys + [id]) == Elements(ptys) + {id}
  {
  }

  /** Erasing keeps the registry free of duplicates and takes out id and nothing else. */
  lemma RemoveKeeps(ptys: seq<Address>, id: Address)
    requires NoDuplicates(ptys)
    ensures NoDuplicates(Remove(ptys, id))
    ensures Elements(Remove(ptys, id)) == Elements(ptys) - {id}
    ensures |Remove(ptys, id)| == |ptys| - if id in ptys then 1 else 0
  {
    var i, r := IndexOf(ptys, id), Remove(ptys, id);
    if i < |ptys| {
      forall x ensures x in r <==> x in ptys && x != id {
        if x in ptys && x != id {
          var k :| 0 <= k < |ptys| && ptys[k] == x;
          assert x == r[if k < i then k else k - 1];
        }
        if x in r {
          var k :| 0 <= k < |r| && r[k] == x;
          assert x == ptys[if k < i then k else k + 1];
        }
      }
    }
  }

  /** Erasing closes the gap: what was before and behind the entry stays, in its order. */
  lemma RemoveSplits(before: seq<Address>, id: Address, after: seq<Address>)
    requires id !in before
    ensures Remove(before + [id] + after, id) == before + after
  {
    var ptys, i := before + [id] + after, IndexOf(before + [id] + after, id);
    assert ptys[|before|] == id;
    assert i == |before|;
  }

  // ----- which object is behind an address -----

  /** After a history, the address of each registered object, with its serial number. */
  function Holdings(history: seq<Event>): map<Address, nat> {
    if history == [] then map[]
    else
      var held, e := Holdings(history[..|history| - 1]), history[|history| - 1];
      match (e.request, e.outcome)
      case (Get, Created(id, serial)) => held[id := serial]
      case (Destroy(id), _) => held - {id}
      case _ => held
  }

  predicate Creates(e: Event) {
    e.request.Get? && e.outcome.Created?
  }

  /** Serials below bound are given out in increasing order, and only to addresses that are free. */
  ghost predicate Fresh(history: seq<Event>, bound: nat) {
    history == [] ||
    var e, before := history[|history| - 1], history[..|history| - 1];
    if Creates(e) then e.outcome.serial < bound && e.outcome.id !in Holdings(before) && Fresh(before, e.outcome.serial)
    else Fresh(before, bound)
  }

  lemma HoldingsStep(history: seq<Event>, e: Event, bound: nat)
    ensures Holdings(history + [e]) ==
              match (e.request, e.outcome)
              case (Get, Created(id, serial)) => Holdings(history)[id := serial]
              case (Destroy(id), _) => Holdings(history) - {id}
              case _ => Holdings(history)
    ensures Fresh(history + [e], bound) <==>
              if Creates(e) then
                e.outcome.serial < bound && e.outcome.id !in Holdings(history) && Fresh(history, e.outcome.serial)
              else Fresh(history, bound)
  {
    assert (history + [e])[..|history|] == history;
  }

  lemma {:induction false} FreshGrows(history: seq<Event>, bound: nat, bound': nat)
    requires Fresh(history, bound) && bound <= bound'
    ensures Fresh(history, bound')
  {
    if history == [] {
    } else if !Creates(history[|history| - 1]) {
      FreshGrows(history[..|history| - 1], bound, bound');
    }
  }

  lemma {:induction false} FreshBelow(history: seq<Event>, bound: nat, i: nat)
    requires Fresh(history, bound) && i < |history| && Creates(history[i])
    ensures history[i].outcome.serial < bound
  {
    var n := |history| - 1;
    if i < n {
      FreshBelow(history[..n], if Creates(history[n]) then history[n].outcome.serial else bound, i);
    }
  }

  lemma {:induction false} FreshIncreases(history: seq<Event>, bound: nat, i: nat, j: nat)
    requires Fresh(history, bound) && i < j < |history| && Creates(history[i]) && Creates(history[j])
    ensures history[i].outcome.serial < history[j].outcome.serial
  {
    var n := |history| - 1;
    var bound' := if Creates(history[n]) then history[n].outcome.serial else bound;
    if j == n {
      FreshBelow(history[..n], bound', i);
    } else {
      FreshIncreases(history[..n], bound', i, j);
    }
  }

  /** The object a get made is still there exactly if no later command destroyed its address. */
  lemma {:induction false} HeldExactly(history: seq<Event>, bound: nat, i: nat)
    requires Fresh(history, bound) && i < |history| && Creates(history[i])
    ensures var id, serial := history[i].outcome.id, history[i].outcome.serial;
            id in Holdings(history) && Holdings(history)[id] == serial
            <==> forall j :: i < j < |history| ==> history[j].request != Destroy(id)
  {
    var n, id, serial := |history| - 1, history[i].outcome.id, history[i].outcome.serial;
    if i < n {
      var before, e := history[..n], history[n];
      var bound' := if Creates(e) then e.outcome.serial else bound;
      HeldExactly(before, bound', i);
      FreshBelow(before, bound', i);
      assert forall j :: i < j < n ==> before[j] == history[j];
    }
  }

  // ----- the order of the registry -----

  /** The registry lists the objects held in the order of their serials, that is, of their creation. */
  ghost predicate InOrder(ptys: seq<Address>, held: map<Address, nat>) {
    && (forall i :: 0 <= i < |ptys| ==> ptys[i] in held)
    && (forall i, j :: 0 <= i < j < |ptys| ==> held[ptys[i]] < held[ptys[j]])
  }

  lemma OrderSame(ptys: seq<Address>, held: map<Address, nat>, held': map<Address, nat>)
    requires InOrder(ptys, held) && forall a :: a in ptys && a in held ==> a in held' && held'[a] == held[a]
    ensures InOrder(ptys, held')
  {
    assert forall i :: 0 <= i < |ptys| ==> ptys[i] in ptys;
  }

  lemma OrderPush(ptys: seq<Address>, held: map<Address, nat>, id: Address, serial: nat)
    requires InOrder(ptys, held) && id !in held && forall a :: a in held ==> held[a] < serial
    ensures InOrder(ptys + [id], held[id := serial])
  {
  }

  lemma OrderGap(before: seq<Address>, id: Address, after: seq<Address>, held: map<Address, nat>)
    requires InOrder(before + [id] + after, held)
    ensures InOrder(before + after, held - {id})
  {
    var ptys, r, n := before + [id] + after, before + after, |before|;
    assert ptys[n] == id;
    assert forall k :: 0 <= k < |r| ==> r[k] == if k < n then ptys[k] else ptys[k + 1];
    forall k | 0 <= k < |r| ensures r[k] in held - {id} {
      assert r[k] == if k < n then ptys[k] else ptys[k + 1];
    }
    forall i, j | 0 <= i < j < |r| ensures held[r[i]] < held[r[j]] {
      var i', j' := if i < n then i else i + 1, if j < n then j else j + 1;
      assert r[i] == ptys[i'] && r[j] == ptys[j'];
    }
  }

  lemma OrderRemove(ptys: seq<Address>, held: map<Address, nat>, id: Address)
    requires InOrder(ptys, held)
    ensures InOrder(Remove(ptys, id), held - {id})
  {
    if id in ptys {
      var i := IndexOf(ptys, id);
      assert ptys == ptys[..i] + [id] + ptys[i + 1..];
      hide Remove, InOrder;
      RemoveSplits(ptys[..i], id, ptys[i + 1..]);
      OrderGap(ptys[..i], id, ptys[i + 1..], held);
    } else {
      hide Remove;
    }
  }

  /** A history that gives out increasing serials, and only free addresses, leaves exactly the objects held in the
      registry, the oldest first. */
  lemma {:induction false} ReplayInOrder(history: seq<Event>, bound: nat)
    requires Fresh(history, bound)
    ensures InOrder(Replay(history), Holdings(history))
    ensures forall a :: a in Holdings(history) ==> Holdings(history)[a] < bound && a in Replay(history)
  {
    if history == [] {
    } else {
      var n := |history| - 1;
      var before, e := history[..n], history[n];
      var bound' := if Creates(e) then e.outcome.serial else bound;
      ReplayInOrder(before, bound');
      hide Remove;
      if Creates(e) {
        OrderPush(Replay(before), Holdings(before), e.outcome.id, e.outcome.serial);
      } else if e.request.Destroy? {
        OrderRemove(Replay(before), Holdings(before), e.request.id);
        RemoveRest(Replay(before), e.request.id);
      }
    }
  }

  lemma RemoveRest(ptys: seq<Address>, id: Address)
    ensures forall a :: a in ptys && a != id ==> a in Remove(ptys, id)
  {
    if id in ptys {
      var i := IndexOf(ptys, id);
      assert ptys == ptys[..i] + [id] + ptys[i + 1..];
    }
  }

  /** The serials held at these addresses, from the last to the first. */
  function FromLast(ptys: seq<Address>, held: map<Address, nat>): (serials: seq<nat>) {
    if ptys == [] then []
    else
      var n := |ptys| - 1;
      (if ptys[n] in held then [held[ptys[n]]] else []) + FromLast(ptys[..n], held)
  }

  lemma {:induction false} FromLastSame(ptys: seq<Address>, held: map<Address, nat>, held': map<Address, nat>)
    requires forall a :: a in ptys ==> (a in held <==> a in held') && (a in held ==> held[a] == held'[a])
    ensures FromLast(ptys, held) == FromLast(ptys, held')
  {
    if ptys == [] {
    } else {
      FromLastSame(ptys[..|ptys| - 1], held, held');
    }
  }

  /** Taking the last one away takes the first serial away. */
  lemma FromLastStep(ptys: seq<Address>, n: nat, held: map<Address, nat>)
    requires 0 < n <= |ptys| && NoDuplicates(ptys) && ptys[n - 1] in held
    ensures FromLast(ptys[..n], held) == [held[ptys[n - 1]]] + FromLast(ptys[..n - 1], held - {ptys[n - 1]})
  {
    assert ptys[..n][..n - 1] == ptys[..n - 1];
    assert ptys[n - 1] !in ptys[..n - 1];
    FromLastSame(ptys[..n - 1], held, held - {ptys[n - 1]});
  }

  lemma {:induction false} FromLastAt(ptys: seq<Address>, held: map<Address, nat>)
    requires forall i :: 0 <= i < |ptys| ==> ptys[i] in held
    ensures |FromLast(ptys, held)| == |ptys|
    ensures forall i :: 0 <= i < |ptys| ==> FromLast(ptys, held)[i] == held[ptys[|ptys| - 1 - i]]
  {
    if ptys == [] {
    } else {
      FromLastAt(ptys[..|ptys| - 1], held);
    }
  }

  /** In a registry in order of creation they are all of them, from the youngest to the oldest. */
  lemma FromLastFalls(ptys: seq<Address>, held: map<Address, nat>)
    requires InOrder(ptys, held)
    ensures var serials := FromLast(ptys, held);
            && |serials| == |ptys|
            && (forall i :: 0 <= i < |ptys| ==> serials[i] == held[ptys[|ptys| - 1 - i]])
            && forall i, j :: 0 <= i < j < |serials| ==> serials[i] > serials[j]
  {
    FromLastAt(ptys, held);
    hide FromLast;
  }
}
