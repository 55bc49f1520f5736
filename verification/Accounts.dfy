/** The entries that the calls of log_session leave, object by object: what every one of them adds up to. */
module Accounts {
  import opened Descriptors
  import opened Registry
  import opened Session
  import opened Wrappers

  /** The entries of a trace that concern one object. */
  function Of(trace: seq<Entry>, serial: nat): seq<Entry> {
    if trace == [] then []
    else
      var e := trace[|trace| - 1];
      Of(trace[..|trace| - 1], serial) + if e.serial == serial then [e] else []
  }

  lemma OfStep(trace: seq<Entry>, es: seq<Entry>, serial: nat)
    requires |es| <= 1
    ensures Of(trace + es, serial) ==
              if es != [] && es[0].serial == serial then Of(trace, serial) + es else Of(trace, serial)
  {
    if es == [] {
      assert trace + es == trace;
    } else {
      assert es == [es[0]];
      assert (trace + es)[..|trace|] == trace;
    }
  }

  ghost predicate OnlyLogins(s: seq<Entry>) {
    forall i :: 0 <= i < |s| ==> s[i].record.kind.UserProcess?
  }

  /** x logs out what e logged in: its own line, id and pid. */
  predicate Closes(e: Entry, x: Entry) {
    && x.record.kind.DeadProcess? && x.shell == e.shell
    && x.record.line == e.record.line && x.record.id == e.record.id && x.record.pid == e.record.pid
  }

  /** What a live object has to remember of its sessions so far: its last login. */
  ghost predicate Tracks(s: seq<Entry>, z: Sizes, o: Fields) {
    && OnlyLogins(s)
    && if s == [] then o.cmdPid == 0
       else
         var e := s[|s| - 1];
         && o.name.Some? && e.record.pid == o.cmdPid && e.shell == o.loginShell
         && e.record.line == StrNCpy(SkipDev(o.name.value), z.line) && e.record.id == FillId(SkipDev(o.name.value), z.id)
  }

  /** The entries of a deleted object: logins, and exactly one logout, of the last login, if that had a pid. */
  ghost predicate Balanced(s: seq<Entry>) {
    if s == [] then true
    else if s[|s| - 1].record.kind.UserProcess? then OnlyLogins(s) && s[|s| - 1].record.pid == 0
    else
      && |s| >= 2 && OnlyLogins(s[..|s| - 1])
      && s[|s| - 2].record.pid != 0 && Closes(s[|s| - 2], s[|s| - 1])
  }

  /** The logout that the destructor of o records. */
  predicate LogsOut(e: Entry, z: Sizes, o: Fields) {
    && o.name.Some? && e.serial == o.serial && e.record.kind.DeadProcess?
    && e.record.pid == o.cmdPid && e.shell == o.loginShell
    && e.record.line == StrNCpy(SkipDev(o.name.value), z.line) && e.record.id == FillId(SkipDev(o.name.value), z.id)
  }

  /** Every object ever made is either live or was deleted, and that only once. */
  ghost predicate SerialsOk(v: Objects, born: nat, deleted: seq<nat>) {
    && (forall a :: a in v ==> v[a].serial < born && v[a].serial !in deleted)
    && (forall a, b :: a in v && b in v && a != b ==> v[a].serial != v[b].serial)
    && (forall k :: k in deleted ==> k < born)
    && (forall k :: 0 <= k < born ==> k in deleted || exists a :: a in v && v[a].serial == k)
    && NoDuplicates(deleted)
  }

  ghost predicate TraceOk(v: Objects, trace: seq<Entry>, z: Sizes, born: nat, deleted: seq<nat>) {
    && (forall a :: a in v ==> Tracks(Of(trace, v[a].serial), z, v[a]))
    && (forall k :: k in deleted ==> Balanced(Of(trace, k)))
    && (forall k :: k >= born ==> Of(trace, k) == [])
  }

  ghost predicate SessionsOk(v: Objects, trace: seq<Entry>, z: Sizes, born: nat, deleted: seq<nat>) {
    SerialsOk(v, born, deleted) && TraceOk(v, trace, z, born, deleted)
  }

  lemma SerialsBorn(v: Objects, born: nat, deleted: seq<nat>, id: Address, o: Fields)
    requires SerialsOk(v, born, deleted) && id !in v && o.serial == born
    ensures SerialsOk(v[id := o], born + 1, deleted)
  {
    var w := v[id := o];
    forall k | 0 <= k < born + 1 ensures k in deleted || exists a :: a in w && w[a].serial == k {
      if k == born {
        assert w[id].serial == k;
      } else if k !in deleted {
        var a :| a in v && v[a].serial == k;
        assert w[a].serial == k;
      }
    }
  }

  lemma SerialsDeleted(v: Objects, born: nat, deleted: seq<nat>, id: Address)
    requires SerialsOk(v, born, deleted) && id in v
    ensures SerialsOk(v - {id}, born, deleted + [v[id].serial])
  {
    var w := v - {id};
    forall k | 0 <= k < born ensures k in deleted + [v[id].serial] || exists a :: a in w && w[a].serial == k {
      if k !in deleted + [v[id].serial] {
        var a :| a in v && v[a].serial == k;
        assert a in w && w[a].serial == k;
      }
    }
  }

  lemma SerialsSame(v: Objects, born: nat, deleted: seq<nat>, id: Address, o: Fields)
    requires SerialsOk(v, born, deleted) && id in v && o.serial == v[id].serial
    ensures SerialsOk(v[id := o], born, deleted)
  {
    var w := v[id := o];
    forall k | 0 <= k < born ensures k in deleted || exists a :: a in w && w[a].serial == k {
      if k !in deleted {
        var a :| a in v && v[a].serial == k;
        assert w[a].serial == k;
      }
    }
  }

  lemma SessionsBorn(v: Objects, trace: seq<Entry>, z: Sizes, born: nat, deleted: seq<nat>, id: Address, o: Fields)
    requires SessionsOk(v, trace, z, born, deleted) && id !in v && o.serial == born && o.cmdPid == 0
    ensures SessionsOk(v[id := o], trace, z, born + 1, deleted)
  {
    hide Of, Balanced, StrNCpy, FillId, SkipDev, SerialsOk;
    SerialsBorn(v, born, deleted, id, o);
    assert Of(trace, born) == [];
  }

  /** An object whose get failed is deleted at once. */
  lemma SessionsStillborn(v: Objects, trace: seq<Entry>, z: Sizes, born: nat, deleted: seq<nat>)
    requires SessionsOk(v, trace, z, born, deleted)
    ensures SessionsOk(v, trace, z, born + 1, deleted + [born])
  {
    assert Of(trace, born) == [] && Balanced(Of(trace, born));
    hide Of, Tracks, Balanced;
    SerialsStillborn(v, born, deleted);
    forall k | k in deleted + [born] ensures Balanced(Of(trace, k)) {
      assert k in deleted || k == born;
    }
  }

  lemma SerialsStillborn(v: Objects, born: nat, deleted: seq<nat>)
    requires SerialsOk(v, born, deleted)
    ensures SerialsOk(v, born + 1, deleted + [born])
  {
    var gone := deleted + [born];
    assert gone[|deleted|] == born;
    assert forall i :: 0 <= i < |deleted| ==> gone[i] in deleted;
    forall k | 0 <= k < born + 1 ensures k in gone || exists a :: a in v && v[a].serial == k {
      if k < born && k !in deleted {
        var a :| a in v && v[a].serial == k;
      }
    }
  }

  lemma SessionsLogin(v: Objects, trace: seq<Entry>, z: Sizes, born: nat, deleted: seq<nat>, id: Address, o: Fields,
                      e: Entry)
    requires SessionsOk(v, trace, z, born, deleted) && id in v
    requires e.serial == o.serial == v[id].serial && Tracks([e], z, o)
    ensures SessionsOk(v[id := o], trace + [e], z, born, deleted)
  {
    SerialsSame(v, born, deleted, id, o);
    TraceLogin(v, trace, z, born, deleted, id, o, e);
  }

  lemma TraceLogin(v: Objects, trace: seq<Entry>, z: Sizes, born: nat, deleted: seq<nat>, id: Address, o: Fields,
                   e: Entry)
    requires SerialsOk(v, born, deleted) && TraceOk(v, trace, z, born, deleted) && id in v
    requires e.serial == o.serial == v[id].serial && Tracks([e], z, o)
    ensures TraceOk(v[id := o], trace + [e], z, born, deleted)
  {
    var w, after := v[id := o], trace + [e];
    hide Of, Tracks, Balanced;
    TracksLogin(Of(trace, o.serial), z, v[id], o, e);
    forall a | a in w ensures Tracks(Of(after, w[a].serial), z, w[a]) {
      OfStep(trace, [e], w[a].serial);
    }
    forall k | k in deleted ensures Balanced(Of(after, k)) {
      OfStep(trace, [e], k);
    }
    forall k | k >= born ensures Of(after, k) == [] {
      OfStep(trace, [e], k);
    }
  }

  lemma TracksLogin(s: seq<Entry>, z: Sizes, was: Fields, o: Fields, e: Entry)
    requires Tracks(s, z, was) && Tracks([e], z, o)
    ensures Tracks(s + [e], z, o)
  {
    hide StrNCpy, FillId, SkipDev;
    assert [e][0].record.kind.UserProcess?;
  }

  lemma SessionsDeleted(v: Objects, trace: seq<Entry>, z: Sizes, born: nat, deleted: seq<nat>, id: Address,
                        es: seq<Entry>)
    requires SessionsOk(v, trace, z, born, deleted) && id in v
    requires if v[id].cmdPid == 0 then es == [] else |es| == 1 && LogsOut(es[0], z, v[id])
    ensures SessionsOk(v - {id}, trace + es, z, born, deleted + [v[id].serial])
  {
    SerialsDeleted(v, born, deleted, id);
    TraceDeleted(v, trace, z, born, deleted, id, es);
  }

  lemma TraceDeleted(v: Objects, trace: seq<Entry>, z: Sizes, born: nat, deleted: seq<nat>, id: Address,
                     es: seq<Entry>)
    requires TraceOk(v, trace, z, born, deleted) && id in v && v[id].serial < born && v[id].serial !in deleted
    requires forall a :: a in v && a != id ==> v[a].serial != v[id].serial
    requires if v[id].cmdPid == 0 then es == [] else |es| == 1 && LogsOut(es[0], z, v[id])
    ensures TraceOk(v - {id}, trace + es, z, born, deleted + [v[id].serial])
  {
    var k0, gone, after := v[id].serial, deleted + [v[id].serial], trace + es;
    assert es != [] ==> es[0].serial == k0;
    hide Of, Tracks, Balanced, LogsOut;
    OfStep(trace, es, k0);
    BalancedAtEnd(Of(trace, k0), z, v[id], es);
    forall a | a in v - {id} ensures Tracks(Of(after, v[a].serial), z, v[a]) {
      OfStep(trace, es, v[a].serial);
    }
    forall k | k in gone ensures Balanced(Of(after, k)) {
      OfStep(trace, es, k);
      assert k == k0 || k in deleted;
    }
    forall k | k >= born ensures Of(after, k) == [] {
      OfStep(trace, es, k);
    }
  }

  lemma BalancedAtEnd(s: seq<Entry>, z: Sizes, o: Fields, es: seq<Entry>)
    requires Tracks(s, z, o)
    requires if o.cmdPid == 0 then es == [] else |es| == 1 && LogsOut(es[0], z, o)
    ensures Balanced(s + es)
  {
    hide StrNCpy, FillId, SkipDev;
    if es == [] {
      assert s + es == s;
    } else {
      assert (s + es)[..|s + es| - 1] == s;
    }
  }

  // ----- what a balanced object leaves in wtmp -----

  function DeadRecords(s: seq<Record>): nat {
    if s == [] then 0
    else DeadRecords(s[..|s| - 1]) + if s[|s| - 1].kind.DeadProcess? then 1 else 0
  }

  lemma {:induction false} LoginsLeaveNoDeadRecord(s: seq<Entry>)
    requires OnlyLogins(s)
    ensures DeadRecords(Appended(s)) == 0
  {
    if s == [] {
    } else {
      var n := |s| - 1;
      LoginsLeaveNoDeadRecord(s[..n]);
      AppendedStep(s[..n], s[n]);
      assert s == s[..n] + [s[n]];
    }
  }

  lemma AppendedStep(s: seq<Entry>, e: Entry)
    ensures DeadRecords(Appended(s + [e])) ==
              DeadRecords(Appended(s)) + if e.shell && e.written && e.record.kind.DeadProcess? then 1 else 0
  {
    assert (s + [e])[..|s|] == s;
    var was := Appended(s);
    if e.shell && e.written {
      assert (was + [e.record])[..|was|] == was;
    } else {
      assert was + [] == was;
    }
  }

  /** A deleted object leaves one DEAD record exactly if its last login had a pid, was a login shell and wtmp took the
      logout; and no other. */
  lemma OneDeadRecord(s: seq<Entry>)
    requires Balanced(s)
    ensures DeadRecords(Appended(s)) ==
              if |s| >= 2 && s[|s| - 1].record.kind.DeadProcess? && s[|s| - 2].shell && s[|s| - 1].written then 1 else 0
  {
    hide DeadRecords, Appended;
    if s == [] || s[|s| - 1].record.kind.UserProcess? {
      LoginsLeaveNoDeadRecord(s);
    } else {
      var n := |s| - 1;
      LoginsLeaveNoDeadRecord(s[..n]);
      AppendedStep(s[..n], s[n]);
      assert s == s[..n] + [s[n]];
    }
  }

  // ----- all of wtmp -----

  /** The entries of a deleted object end in a logout of a login shell that wtmp took. */
  predicate LeavesDead(s: seq<Entry>) {
    |s| >= 2 && s[|s| - 1].record.kind.DeadProcess? && s[|s| - 2].shell && s[|s| - 1].written
  }

  /** How many of the first n objects do. */
  function ShellsLoggedOut(trace: seq<Entry>, n: nat): nat {
    if n == 0 then 0 else ShellsLoggedOut(trace, n - 1) + if LeavesDead(Of(trace, n - 1)) then 1 else 0
  }

  /** The DEAD records of one object. */
  function DeadOf(trace: seq<Entry>, serial: nat): nat {
    DeadRecords(Appended(Of(trace, serial)))
  }

  lemma DeadOfStep(trace: seq<Entry>, e: Entry, serial: nat)
    ensures DeadOf(trace + [e], serial) == DeadOf(trace, serial) +
              if e.serial == serial && e.shell && e.written && e.record.kind.DeadProcess? then 1 else 0
  {
    hide Of, Appended, DeadRecords;
    OfStep(trace, [e], serial);
    AppendedStep(Of(trace, serial), e);
  }

  /** The DEAD records of the first n objects, each counted on its own. */
  function DeadByObject(trace: seq<Entry>, n: nat): nat {
    if n == 0 then 0 else DeadByObject(trace, n - 1) + DeadOf(trace, n - 1)
  }

  lemma {:induction false} DeadByObjectStep(trace: seq<Entry>, e: Entry, n: nat)
    ensures DeadByObject(trace + [e], n) == DeadByObject(trace, n) +
              if e.serial < n && e.shell && e.written && e.record.kind.DeadProcess? then 1 else 0
  {
    hide DeadOf;
    if n == 0 {
    } else {
      DeadByObjectStep(trace, e, n - 1);
      DeadOfStep(trace, e, n - 1);
    }
  }

  lemma {:induction false} DeadOfNothing(n: nat)
    ensures DeadByObject([], n) == 0
  {
    if n == 0 {
    } else {
      DeadOfNothing(n - 1);
    }
  }

  /** Counting object by object counts every record of the file once. */
  lemma {:induction false} DeadAddsUp(trace: seq<Entry>, n: nat)
    requires forall k :: k >= n ==> Of(trace, k) == []
    ensures DeadRecords(Appended(trace)) == DeadByObject(trace, n)
  {
    if trace == [] {
      DeadOfNothing(n);
    } else {
      var m := |trace| - 1;
      var t, e := trace[..m], trace[m];
      assert trace == t + [e];
      hide Of, DeadRecords, Appended, DeadByObject, DeadOf;
      forall k | k >= n ensures Of(t, k) == [] {
        OfStep(t, [e], k);
        assert Of(trace, k) == [];
      }
      OfStep(t, [e], e.serial);
      assert e.serial < n by {
        assert Of(trace, e.serial) != [];
      }
      DeadAddsUp(t, n);
      AppendedStep(t, e);
      DeadByObjectStep(t, e, n);
    }
  }

  lemma {:induction false} DeadOfBalanced(trace: seq<Entry>, n: nat)
    requires forall k :: 0 <= k < n ==> Balanced(Of(trace, k))
    ensures DeadByObject(trace, n) == ShellsLoggedOut(trace, n)
  {
    hide Of, Balanced, DeadOf, LeavesDead;
    if n == 0 {
    } else {
      DeadOfBalanced(trace, n - 1);
      DeadOfOne(trace, n - 1);
    }
  }

  lemma DeadOfOne(trace: seq<Entry>, serial: nat)
    requires Balanced(Of(trace, serial))
    ensures DeadOf(trace, serial) == if LeavesDead(Of(trace, serial)) then 1 else 0
  {
    hide Of, Balanced, Appended, DeadRecords;
    OneDeadRecord(Of(trace, serial));
  }

  /** Once every object is deleted, the DEAD records that wtmp gained are as many as the objects whose last login was a
      login shell with a pid and whose logout was written. */
  lemma DeadInAll(trace: seq<Entry>, n: nat)
    requires forall k :: 0 <= k < n ==> Balanced(Of(trace, k))
    requires forall k :: k >= n ==> Of(trace, k) == []
    ensures DeadRecords(Appended(trace)) == ShellsLoggedOut(trace, n)
  {
    DeadAddsUp(trace, n);
    DeadOfBalanced(trace, n);
  }
}
