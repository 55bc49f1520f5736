/** simplevec of src/estl.h, for element types that are not trivially copyable: raw slots are constructed, assigned and
    destroyed one by one. A slot of the allocation is Dead until an element is constructed in it and after it is destroyed. */
module SimpleVec {
  import opened Powers
  import opened Bits

  const MAX_SIZE := 0x7fff_ffff

  // ---- growth ----

  /** The least power of two above n. */
  function PowerAbove(n: nat): nat {
    if n == 0 then 1 else 2 * PowerAbove(n / 2)
  }

  lemma {:induction false} PowerAboveIs(n: nat, r: nat)
    requires HighestBit(n, r)
    ensures PowerAbove(n) == Pow2(r + 1)
  {
    if r == 0 {
      assert n == 1 && PowerAbove(0) == 1;
    } else {
      PowerAboveIs(n / 2, r - 1);
    }
  }

  /** It is a power of two, lies strictly above n and at most at 2n, and no smaller power of two lies above n. */
  lemma {:induction false} PowerAboveLeast(n: nat, k: nat)
    requires n > 0
    ensures n < PowerAbove(n) <= 2 * n
    ensures n < Pow2(k) ==> PowerAbove(n) <= Pow2(k)
    ensures n <= MAX_SIZE ==> PowerAbove(n) <= 0x8000_0000
    ensures exists r: nat :: HighestBit(n, r) && PowerAbove(n) == Pow2(r + 1)
  {
    var r := TopBit(n);
    PowerAboveIs(n, r);
    if n < Pow2(k) && k < r + 1 {
      Pow2Monotone(k, r);
    } else if k >= r + 1 {
      Pow2Monotone(r + 1, k);
    }
    WordSizes();
    if r > 30 {
      Pow2Monotone(31, r);
    } else {
      Pow2Monotone(r + 1, 31);
    }
  }

  lemma {:induction false} TopBit(n: nat) returns (r: nat)
    requires n > 0
    ensures HighestBit(n, r)
  {
    if n == 1 {
      r := 0;
    } else {
      r := TopBit(n / 2);
      r := r + 1;
    }
  }

  /** good_size: five for the empty request, the power of two above n otherwise. The result is kept in 32 bits, so
      beyond max_size it is zero. */
  method GoodSize(n: nat) returns (size: nat)
    requires n < 0x1_0000_0000
    ensures n == 0 ==> size == 5
    ensures 0 < n <= MAX_SIZE ==> size == PowerAbove(n)
    ensures n > MAX_SIZE ==> size == 0
  {
    if n == 0 {
      size := 5;
    } else {
      var ld := Ld32(n);
      PowerAboveIs(n, ld);
      PowerAboveLeast(n, ld);
      size := Low(Pow2(ld + 1), 32); // 2UL << ld, returned as a 32 bit number
      GoodSizeFits(n, ld);
    }
  }

  lemma GoodSizeFits(n: nat, ld: nat)
    requires 0 < n < 0x1_0000_0000 && HighestBit(n, ld)
    ensures Low(Pow2(ld + 1), 32) == if n <= MAX_SIZE then Pow2(ld + 1) else 0
  {
    hide Low, Shr;
    WordSizes();
    if n <= MAX_SIZE {
      if ld > 30 {
        Pow2Monotone(31, ld);
      }
      Pow2Monotone(ld + 1, 31);
      LowId(Pow2(ld + 1), 32);
    } else {
      if ld < 31 {
        Pow2Monotone(ld + 1, 31);
      } else if ld > 31 {
        Pow2Monotone(32, ld);
      }
      ShiftMask(Pow2(32), 32);
    }
  }

  /** Capacity and number of elements copied so far, after n push_backs onto an empty vector. */
  function Pushed(n: nat): (r: (nat, nat)) {
    if n == 0 then (0, 0) else PushStep(n - 1, Pushed(n - 1))
  }

  /** What one push_back does to the capacity and the copy count of a vector of the given size. */
  function PushStep(size: nat, s: (nat, nat)): (nat, nat) {
    if size + 1 <= s.0 then s else (PowerAbove(size + 1), s.1 + size)
  }

  /** The capacity never exceeds twice the size, and all reallocations together have copied one capacity less two. */
  lemma {:induction false} PushCost(n: nat)
    requires n > 0
    ensures n <= Pushed(n).0 <= 2 * n
    ensures Pushed(n).1 == Pushed(n).0 - 2
    ensures exists r: nat :: r > 0 && Pushed(n).0 == Pow2(r)
  {
    if n == 1 {
      assert Pushed(0) == (0, 0) && PowerAbove(1) == 2 * PowerAbove(0) == 2;
      assert Pow2(1) == 2;
    } else {
      PushCost(n - 1);
      if n > Pushed(n - 1).0 {
        var r: nat :| r > 0 && Pushed(n - 1).0 == Pow2(r);
        assert HighestBit(n, r);
        PowerAboveIs(n, r);
      }
    }
  }

  // ---- slots ----

  datatype Slot<+T> = Dead | Live(value: T)

  /** Slots [0, |xs|) of a hold exactly the elements xs, all others are dead. */
  ghost predicate Holds<T>(a: array<Slot<T>>, xs: seq<T>)
    reads a
  {
    && |xs| <= a.Length
    && (forall i :: 0 <= i < |xs| ==> a[i] == Live(xs[i]))
    && (forall i :: |xs| <= i < a.Length ==> a[i] == Dead)
  }

  /** No element is alive in the allocation: it can be given back. */
  ghost predicate AllDead<T>(a: array<Slot<T>>)
    reads a
  {
    forall i :: 0 <= i < a.Length ==> a[i].Dead?
  }

  /** new (a + i) T (v) on raw memory. */
  method CopNew<T>(a: array<Slot<T>>, i: nat, v: T)
    requires i < a.Length && a[i].Dead?
    modifies a
    ensures a[..] == old(a[..])[i := Live(v)]
  {
    a[i] := Live(v);
  }

  /** a[i] = v, an assignment to an element that exists. */
  method CopSet<T>(a: array<Slot<T>>, i: nat, v: T)
    requires i < a.Length && a[i].Live?
    modifies a
    ensures a[..] == old(a[..])[i := Live(v)]
  {
    a[i] := Live(v);
  }

  /** Reading an element, which must exist. */
  function Read<T>(a: array<Slot<T>>, i: nat): T
    requires i < a.Length && a[i].Live?
    reads a
  {
    a[i].value
  }

  /** construct (a + from, n): n default-constructed elements on raw memory. */
  method Construct<T>(a: array<Slot<T>>, from: nat, n: nat, zero: T)
    requires from + n <= a.Length
    requires forall i :: from <= i < from + n ==> a[i].Dead?
    modifies a
    ensures forall i :: from <= i < from + n ==> a[i] == Live(zero)
    ensures forall i :: 0 <= i < a.Length && !(from <= i < from + n) ==> a[i] == old(a[i])
  {
    var k := 0;
    while k < n
      invariant k <= n
      invariant forall i :: from <= i < from + k ==> a[i] == Live(zero)
      invariant forall i :: 0 <= i < a.Length && !(from <= i < from + k) ==> a[i] == old(a[i])
    {
      CopNew(a, from + k, zero);
      k := k + 1;
    }
  }

  /** destruct (a + from, n): every element is destroyed once. */
  method Destruct<T>(a: array<Slot<T>>, from: nat, n: nat)
    requires from + n <= a.Length
    requires forall i :: from <= i < from + n ==> a[i].Live?
    modifies a
    ensures forall i :: from <= i < from + n ==> a[i].Dead?
    ensures forall i :: 0 <= i < a.Length && !(from <= i < from + n) ==> a[i] == old(a[i])
  {
    var k := 0;
    while k < n
      invariant k <= n
      invariant forall i :: from <= i < from + k ==> a[i].Dead?
      invariant forall i :: 0 <= i < a.Length && !(from <= i < from + k) ==> a[i] == old(a[i])
    {
      assert a[from + k].Live?;
      a[from + k] := Dead;
      k := k + 1;
    }
  }

  /** copy (nbuf, buf, n, cop_new) into a fresh allocation. */
  method CopyNew<T>(nbuf: array<Slot<T>>, buf: array<Slot<T>>, n: nat)
    requires nbuf != buf && n <= nbuf.Length && n <= buf.Length
    requires forall i :: 0 <= i < n ==> buf[i].Live?
    requires forall i :: 0 <= i < nbuf.Length ==> nbuf[i].Dead?
    modifies nbuf
    ensures forall i :: 0 <= i < n ==> nbuf[i] == buf[i]
    ensures forall i :: n <= i < nbuf.Length ==> nbuf[i].Dead?
  {
    var k := 0;
    while k < n
      invariant k <= n
      invariant forall i :: 0 <= i < k ==> nbuf[i] == buf[i]
      invariant forall i :: k <= i < nbuf.Length ==> nbuf[i].Dead?
    {
      CopNew(nbuf, k, Read(buf, k));
      k := k + 1;
    }
  }

  /** The overlapping shift of ins, from the last element to the first: memmove (buf + pos + n, buf + pos, c). */
  method ShiftUp<T>(buf: array<Slot<T>>, pos: nat, n: nat, c: nat)
    requires pos + c + n <= buf.Length
    requires forall i :: pos <= i < pos + c + n ==> buf[i].Live?
    modifies buf
    ensures forall i :: pos + n <= i < pos + n + c ==> buf[i] == old(buf[i - n])
    ensures forall i :: pos <= i < pos + c + n ==> buf[i].Live?
    ensures forall i :: 0 <= i < buf.Length && !(pos + n <= i < pos + c + n) ==> buf[i] == old(buf[i])
  {
    var i := c;
    while i > 0
      invariant 0 <= i <= c
      invariant forall j :: pos + n + i <= j < pos + n + c ==> buf[j] == old(buf[j - n])
      invariant forall j :: pos <= j < pos + c + n ==> buf[j].Live?
      invariant forall j :: 0 <= j < buf.Length && !(pos + n + i <= j < pos + c + n) ==> buf[j] == old(buf[j])
    {
      i := i - 1;
      CopSet(buf, pos + n + i, Read(buf, pos + i));
    }
  }

  /** The overlapping forward copy of erase: memmove (buf + first, buf + first + n, c). */
  method ShiftDown<T>(buf: array<Slot<T>>, first: nat, n: nat, c: nat)
    requires first + n + c <= buf.Length
    requires forall i :: first <= i < first + n + c ==> buf[i].Live?
    modifies buf
    ensures forall i :: first <= i < first + c ==> buf[i] == old(buf[i + n])
    ensures forall i :: first <= i < first + n + c ==> buf[i].Live?
    ensures forall i :: 0 <= i < buf.Length && !(first <= i < first + c) ==> buf[i] == old(buf[i])
  {
    var k := 0;
    while k < c
      invariant k <= c
      invariant forall i :: first <= i < first + k ==> buf[i] == old(buf[i + n])
      invariant forall i :: first <= i < first + n + c ==> buf[i].Live?
      invariant forall i :: 0 <= i < buf.Length && !(first <= i < first + k) ==> buf[i] == old(buf[i])
    {
      assert buf[first + n + k] == old(buf[first + n + k]);
      CopSet(buf, first + k, Read(buf, first + n + k));
      k := k + 1;
    }
  }

  /** The element moves of ins: n elements are constructed behind the last one, then the tail is shifted up. */
  method MoveUp<T>(buf: array<Slot<T>>, size: nat, ghost xs: seq<T>, pos: nat, n: nat, zero: T)
    requires size == |xs| && pos <= size && size + n <= buf.Length && Holds(buf, xs)
    modifies buf
    ensures forall i :: 0 <= i < pos ==> buf[i] == Live(xs[i])
    ensures forall i :: pos <= i < pos + n ==> buf[i].Live?
    ensures forall i :: pos + n <= i < size + n ==> buf[i] == Live(xs[i - n])
    ensures forall i :: size + n <= i < buf.Length ==> buf[i] == Dead
  {
    Construct(buf, size, n, zero);
    ShiftUp(buf, pos, n, size - pos);
  }

  /** The same, with the sequence ys of the elements that are there afterwards. */
  method OpenGap<T>(buf: array<Slot<T>>, size: nat, ghost xs: seq<T>, pos: nat, n: nat, zero: T)
    returns (ghost ys: seq<T>)
    requires size == |xs| && pos <= size && size + n <= buf.Length && Holds(buf, xs)
    modifies buf
    ensures |ys| == size + n && Holds(buf, ys)
    ensures ys[..pos] == xs[..pos] && ys[pos + n..] == xs[pos..]
  {
    MoveUp(buf, size, xs, pos, n, zero);
    ys := Values(buf, size + n);
  }

  /** copy (buf + at, xs, |xs|, cop_set) from a range outside the container. */
  method CopySet<T>(buf: array<Slot<T>>, at: nat, xs: seq<T>)
    requires at + |xs| <= buf.Length
    requires forall i :: at <= i < at + |xs| ==> buf[i].Live?
    modifies buf
    ensures forall i :: at <= i < at + |xs| ==> buf[i] == Live(xs[i - at])
    ensures forall i :: 0 <= i < buf.Length && !(at <= i < at + |xs|) ==> buf[i] == old(buf[i])
  {
    var k := 0;
    while k < |xs|
      invariant k <= |xs|
      invariant forall i :: at <= i < at + k ==> buf[i] == Live(xs[i - at])
      invariant forall i :: 0 <= i < buf.Length && !(at <= i < at + k) ==> buf[i] == old(buf[i])
    {
      assert buf[at + k] == old(buf[at + k]);
      CopSet(buf, at + k, xs[k]);
      k := k + 1;
    }
  }

  /** n assignments of one value, one slot after the other. */
  method FillSet<T>(buf: array<Slot<T>>, at: nat, n: nat, t: T)
    requires at + n <= buf.Length
    requires forall i :: at <= i < at + n ==> buf[i].Live?
    modifies buf
    ensures forall i :: at <= i < at + n ==> buf[i] == Live(t)
    ensures forall i :: 0 <= i < buf.Length && !(at <= i < at + n) ==> buf[i] == old(buf[i])
  {
    var i := at;
    while i < at + n
      invariant at <= i <= at + n
      invariant forall j :: at <= j < i ==> buf[j] == Live(t)
      invariant forall j :: 0 <= j < buf.Length && !(at <= j < i) ==> buf[j] == old(buf[j])
    {
      assert buf[i] == old(buf[i]);
      CopSet(buf, i, t);
      i := i + 1;
    }
  }

  /** The elements in the first n slots. */
  ghost function Values<T>(a: array<Slot<T>>, n: nat): (xs: seq<T>)
    requires n <= a.Length && forall i :: 0 <= i < n ==> a[i].Live?
    reads a
    ensures |xs| == n && forall i :: 0 <= i < n ==> a[i] == Live(xs[i])
  {
    if n == 0 then [] else Values(a, n - 1) + [a[n - 1].value]
  }

  // ---- the container ----

  class SimpleVec<T(==)> {
    var sze: nat
    var res: nat
    var buf: array<Slot<T>> // an allocation of res slots; of none while the source's buf is null
    const zero: T           // the value of T ()

    ghost var elems: seq<T>
    ghost var copied: nat   // elements copied by reallocations so far

    ghost predicate Valid()
      reads this, buf
    {
      sze == |elems| && res == buf.Length && Holds(buf, elems)
    }

    constructor (zero: T)
      ensures Valid() && fresh(buf) && elems == [] && res == 0 && copied == 0 && this.zero == zero
    {
      sze := 0;
      res := 0;
      buf := new Slot<T>[0];
      this.zero := zero;
      elems := [];
      copied := 0;
    }

    /** simplevec (n, t), filled from the last slot to the first. */
    constructor Fill(n: nat, t: T, zero: T)
      requires n <= MAX_SIZE
      ensures Valid() && fresh(buf) && res == n && this.zero == zero
      ensures elems == seq(n, _ => t)
    {
      sze := n;
      res := n;
      buf := new Slot<T>[n](_ => Dead);
      this.zero := zero;
      elems := seq(n, _ => t);
      copied := 0;
      new;
      var k := n;
      while k > 0
        invariant k <= n && buf.Length == n && fresh(buf) && sze == res == n
        invariant forall i :: 0 <= i < k ==> buf[i].Dead?
        invariant forall i :: k <= i < n ==> buf[i] == Live(t)
        modifies buf
      {
        k := k - 1;
        CopNew(buf, k, t);
      }
    }

    /** simplevec (first, last), and with it the copy constructor: the range is elements of another container. */
    constructor FromRange(xs: seq<T>, zero: T)
      requires |xs| <= MAX_SIZE
      ensures Valid() && fresh(buf) && res == |xs| && elems == xs && this.zero == zero
    {
      sze := |xs|;
      res := |xs|;
      buf := new Slot<T>[|xs|](_ => Dead);
      this.zero := zero;
      elems := xs;
      copied := 0;
      new;
      var k := 0;
      while k < |xs|
        invariant k <= |xs| && buf.Length == |xs| && fresh(buf) && sze == res == |xs|
        invariant forall i :: 0 <= i < k ==> buf[i] == Live(xs[i])
        invariant forall i :: k <= i < |xs| ==> buf[i].Dead?
        modifies buf
      {
        CopNew(buf, k, xs[k]);
        k := k + 1;
      }
    }

    /** dealloc: the allocation is given back with no element left alive in it. */
    method Dealloc()
      requires Valid()
      modifies buf
      ensures AllDead(buf)
    {
      Destruct(buf, 0, sze);
    }

    /** Moving to an allocation of r slots, as reserve and ins do it. */
    method Reallocate(r: nat)
      requires Valid() && sze <= r
      modifies this, buf
      ensures Valid() && fresh(buf) && res == r && elems == old(elems)
      ensures AllDead(old(buf))
      ensures copied == old(copied) + sze
    {
      var nbuf := new Slot<T>[r](_ => Dead);
      CopyNew(nbuf, buf, sze);
      Dealloc();
      buf := nbuf;
      res := r;
      copied := copied + sze;
    }

    method Reserve(sz: nat)
      requires Valid() && sz <= MAX_SIZE
      modifies this, buf
      ensures Valid() && (buf == old(buf) || fresh(buf)) && elems == old(elems)
      ensures buf != old(buf) ==> AllDead(old(buf))
      ensures sz <= res
      ensures sz <= old(res) ==> res == old(res) && copied == old(copied)
      ensures sz > old(res) ==> res == PowerAbove(sz) && copied == old(copied) + sze
    {
      if sz <= res {
        return;
      }
      var n := GoodSize(sz);
      PowerAboveLeast(sz, 0);
      Reallocate(n);
    }

    /** ins: makes room for n elements at pos. The room is live, its values are whatever was there. */
    method Ins(pos: nat, n: nat)
      requires Valid() && pos <= sze && sze + n <= MAX_SIZE
      modifies this, buf
      ensures Valid() && (buf == old(buf) || fresh(buf))
      ensures buf != old(buf) ==> AllDead(old(buf))
      ensures |elems| == old(|elems|) + n
      ensures elems[..pos] == old(elems)[..pos] && elems[pos + n..] == old(elems)[pos..]
      ensures old(sze) + n <= old(res) ==> res == old(res) && copied == old(copied)
      ensures old(sze) + n > old(res) ==> res == PowerAbove(old(sze) + n) && copied == old(copied) + old(sze)
    {
      if sze + n > res {
        var r := GoodSize(sze + n);
        PowerAboveLeast(sze + n, 0);
        Reallocate(r);
      }
      elems := OpenGap(buf, sze, elems, pos, n, zero);
      sze := sze + n;
    }

    method PushBack(t: T)
      requires Valid() && sze < MAX_SIZE
      modifies this, buf
      ensures Valid() && (buf == old(buf) || fresh(buf))
      ensures buf != old(buf) ==> AllDead(old(buf))
      ensures elems == old(elems) + [t]
      ensures (res, copied) == PushStep(old(sze), (old(res), old(copied)))
    {
      Reserve(sze + 1);
      CopNew(buf, sze, t);
      sze := sze + 1;
      elems := elems + [t];
    }

    method PopBack()
      requires Valid() && sze > 0
      modifies this, buf
      ensures Valid() && buf == old(buf) && res == old(res) && copied == old(copied)
      ensures elems == old(elems)[..|old(elems)| - 1]
    {
      sze := sze - 1;
      Destruct(buf, sze, 1);
      elems := elems[..sze];
    }

    method Clear()
      requires Valid()
      modifies this, buf
      ensures Valid() && buf == old(buf) && res == old(res) && copied == old(copied) && elems == []
    {
      Destruct(buf, 0, sze);
      sze := 0;
      elems := [];
    }

    method Resize(sz: nat)
      requires Valid() && sz <= MAX_SIZE
      modifies this, buf
      ensures Valid() && (buf == old(buf) || fresh(buf))
      ensures buf != old(buf) ==> AllDead(old(buf))
      ensures elems == if sz <= old(sze) then old(elems)[..sz] else old(elems) + seq(sz - old(sze), _ => zero)
      ensures sz <= old(res) ==> res == old(res) && copied == old(copied)
      ensures sz > old(res) ==> res == PowerAbove(sz) && copied == old(copied) + old(sze)
    {
      Reserve(sz);
      ghost var r, c := res, copied;
      ghost var b := buf;
      while sze < sz
        invariant Valid() && buf == b && res == r && copied == c && sz <= res && old(sze) <= sze
        invariant b != old(buf) ==> AllDead(old(buf))
        invariant elems == old(elems) + seq(sze - old(sze), _ => zero)
        invariant sze <= sz || sze == old(sze)
      {
        Construct(buf, sze, 1, zero);
        sze := sze + 1;
        elems := elems + [zero];
      }
      while sze > sz
        invariant Valid() && buf == b && res == r && copied == c && sz <= sze
        invariant b != old(buf) ==> AllDead(old(buf))
        invariant sz > old(sze) ==> sze == sz && elems == old(elems) + seq(sz - old(sze), _ => zero)
        invariant sz <= old(sze) ==> sze <= old(sze) && elems == old(elems)[..sze]
      {
        sze := sze - 1;
        Destruct(buf, sze, 1);
        elems := elems[..sze];
      }
    }

    method Insert(at: nat, t: T) returns (it: nat)
      requires Valid() && at <= sze && sze < MAX_SIZE
      modifies this, buf
      ensures Valid() && (buf == old(buf) || fresh(buf))
      ensures buf != old(buf) ==> AllDead(old(buf))
      ensures elems == old(elems)[..at] + [t] + old(elems)[at..] && it == at
      ensures old(sze) + 1 <= old(res) ==> res == old(res) && copied == old(copied)
      ensures old(sze) + 1 > old(res) ==> res == PowerAbove(old(sze) + 1) && copied == old(copied) + old(sze)
    {
      Ins(at, 1);
      CopSet(buf, at, t);
      ghost var e := elems;
      elems := elems[at := t];
      assert elems == e[..at] + [t] + e[at + 1..];
      it := at;
    }

    method InsertRange(at: nat, xs: seq<T>) returns (it: nat)
      requires Valid() && at <= sze && sze + |xs| <= MAX_SIZE
      modifies this, buf
      ensures Valid() && (buf == old(buf) || fresh(buf))
      ensures buf != old(buf) ==> AllDead(old(buf))
      ensures elems == old(elems)[..at] + xs + old(elems)[at..] && it == at
      ensures old(sze) + |xs| <= old(res) ==> res == old(res) && copied == old(copied)
      ensures old(sze) + |xs| > old(res) ==> res == PowerAbove(old(sze) + |xs|) && copied == old(copied) + old(sze)
    {
      Ins(at, |xs|);
      CopySet(buf, at, xs);
      elems := elems[..at] + xs + elems[at + |xs|..];
      it := at;
    }

    method InsertFill(at: nat, n: nat, t: T) returns (it: nat)
      requires Valid() && at <= sze && sze + n <= MAX_SIZE
      modifies this, buf
      ensures Valid() && (buf == old(buf) || fresh(buf))
      ensures buf != old(buf) ==> AllDead(old(buf))
      ensures elems == old(elems)[..at] + seq(n, _ => t) + old(elems)[at..] && it == at
      ensures old(sze) + n <= old(res) ==> res == old(res) && copied == old(copied)
      ensures old(sze) + n > old(res) ==> res == PowerAbove(old(sze) + n) && copied == old(copied) + old(sze)
    {
      Ins(at, n);
      FillSet(buf, at, n, t);
      elems := elems[..at] + seq(n, _ => t) + elems[at + n..];
      it := at;
    }

    method EraseRange(first: nat, last: nat) returns (it: nat)
      requires Valid() && first <= last <= sze
      modifies this, buf
      ensures Valid() && buf == old(buf) && res == old(res) && copied == old(copied)
      ensures elems == old(elems)[..first] + old(elems)[last..] && it == first
    {
      var n := last - first;
      var c := sze - last;
      ShiftDown(buf, first, n, c);
      sze := sze - n;
      Destruct(buf, sze, n);
      elems := elems[..first] + elems[last..];
      it := first;
    }

    method Erase(pos: nat) returns (it: nat)
      requires Valid() && pos <= sze
      modifies this, buf
      ensures Valid() && buf == old(buf) && res == old(res) && copied == old(copied)
      ensures elems == if pos < old(sze) then old(elems)[..pos] + old(elems)[pos + 1..] else old(elems)
      ensures it == pos
    {
      if pos != sze {
        var _ := EraseRange(pos, pos + 1);
      }
      it := pos;
    }

    method Swap(v: SimpleVec<T>)
      requires Valid() && v.Valid()
      modifies this, v
      ensures Valid() && v.Valid()
      ensures buf == old(v.buf) && v.buf == old(buf)
      ensures elems == old(v.elems) && v.elems == old(elems)
    {
      var s, r, b := sze, res, buf;
      sze, res, buf := v.sze, v.res, v.buf;
      v.sze, v.res, v.buf := s, r, b;
      elems, v.elems := v.elems, elems;
    }

    /** Both forms of assign and operator =: a new vector is built, swapped in, and destroyed with the old contents. */
    method AssignRange(xs: seq<T>)
      requires Valid() && |xs| <= MAX_SIZE
      modifies this, buf
      ensures Valid() && fresh(buf) && res == |xs| && elems == xs
      ensures AllDead(old(buf))
    {
      var v := new SimpleVec.FromRange(xs, zero);
      Swap(v);
      v.Dealloc();
    }

    method AssignFill(n: nat, t: T)
      requires Valid() && n <= MAX_SIZE
      modifies this, buf
      ensures Valid() && fresh(buf) && res == n && elems == seq(n, _ => t)
      ensures AllDead(old(buf))
    {
      var v := new SimpleVec.Fill(n, t, zero);
      Swap(v);
      v.Dealloc();
    }

    /** find (begin (), end (), value) */
    method Find(value: T) returns (i: nat)
      requires Valid()
      ensures i <= |elems| && value !in elems[..i]
      ensures i < |elems| ==> elems[i] == value
    {
      i := 0;
      while i != sze && Read(buf, i) != value
        invariant i <= sze && value !in elems[..i]
      {
        assert elems[..i + 1] == elems[..i] + [elems[i]];
        i := i + 1;
      }
    }
  }

  /** n push_backs from empty copy at most 2n elements in all and leave at most half of the allocation unused. */
  method PushAll<T(==)>(v: SimpleVec<T>, xs: seq<T>)
    requires v.Valid() && v.elems == [] && v.res == 0 && v.copied == 0 && |xs| <= MAX_SIZE
    modifies v, v.buf
    ensures v.Valid() && v.elems == xs
    ensures (v.res, v.copied) == Pushed(|xs|)
    ensures v.copied <= 2 * |xs| && v.res <= 2 * |xs|
  {
    var k := 0;
    ghost var b := v.buf;
    while k < |xs|
      invariant k <= |xs| && v.Valid() && v.elems == xs[..k]
      invariant v.buf == b || fresh(v.buf)
      invariant (v.res, v.copied) == Pushed(k)
    {
      v.PushBack(xs[k]);
      k := k + 1;
    }
    if |xs| == 0 {
    } else {
      PushCost(|xs|);
    }
  }

  // ---- operator < ----

  /** The lexicographic order, with the element type's own < deciding the first difference. */
  predicate LexLess<T>(lt: (T, T) -> bool, a: seq<T>, b: seq<T>) {
    b != [] && (a == [] || lt(a[0], b[0]) || (!lt(b[0], a[0]) && LexLess(lt, a[1..], b[1..])))
  }

  /** Position i decides for a: nothing before it differs, and there either a has ended and b has not, or a's element is
      the smaller. */
  predicate DecidedAt<T>(lt: (T, T) -> bool, a: seq<T>, b: seq<T>, i: nat) {
    && i <= |a| && i < |b|
    && (forall j :: 0 <= j < i ==> !lt(a[j], b[j]) && !lt(b[j], a[j]))
    && (i < |a| ==> lt(a[i], b[i]))
  }

  /** The first position that differs decides; without one, the shorter is less. */
  lemma {:induction false} LexFirst<T>(lt: (T, T) -> bool, a: seq<T>, b: seq<T>)
    ensures LexLess(lt, a, b) <==> exists i: nat :: DecidedAt(lt, a, b, i)
  {
    if a == [] || b == [] {
      assert b != [] ==> DecidedAt(lt, a, b, 0);
    } else {
      LexFirst(lt, a[1..], b[1..]);
      if i: nat :| DecidedAt(lt, a[1..], b[1..], i) && !lt(a[0], b[0]) && !lt(b[0], a[0]) {
        assert DecidedAt(lt, a, b, i + 1);
      }
      if lt(a[0], b[0]) {
        assert DecidedAt(lt, a, b, 0);
      }
      if i: nat :| DecidedAt(lt, a, b, i) && i > 0 {
        assert !lt(a[0], b[0]) && !lt(b[0], a[0]);
        assert DecidedAt(lt, a[1..], b[1..], i - 1);
      }
    }
  }

  ghost predicate StrictTotal<T(!new)>(lt: (T, T) -> bool) {
    && (forall x :: !lt(x, x))
    && (forall x, y :: x == y || lt(x, y) || lt(y, x))
    && (forall x, y, z :: lt(x, y) && lt(y, z) ==> lt(x, z))
  }

  /** Over a strict total order of elements, vectors are strictly and totally ordered. */
  lemma {:induction false} LexStrictTotal<T(!new)>(lt: (T, T) -> bool, a: seq<T>, b: seq<T>, c: seq<T>)
    requires StrictTotal(lt)
    ensures !LexLess(lt, a, a)
    ensures a == b || LexLess(lt, a, b) || LexLess(lt, b, a)
    ensures LexLess(lt, a, b) && LexLess(lt, b, c) ==> LexLess(lt, a, c)
  {
    if a == [] {
    } else {
      LexStrictTotal(lt, a[1..], if b != [] then b[1..] else [], if c != [] then c[1..] else []);
      if b != [] && a[0] == b[0] && a[1..] == b[1..] {
        assert a == [a[0]] + a[1..] == b;
      }
    }
  }

  /** A proper prefix is less, and what it is a prefix of is not. */
  lemma PrefixLess<T(!new)>(lt: (T, T) -> bool, a: seq<T>, b: seq<T>)
    requires StrictTotal(lt) && a < b
    ensures LexLess(lt, a, b) && !LexLess(lt, b, a)
  {
    assert DecidedAt(lt, a, b, |a|);
    LexFirst(lt, a, b);
    LexStrictTotal(lt, a, b, a);
  }

  method LessThan<T(==)>(lt: (T, T) -> bool, v1: SimpleVec<T>, v2: SimpleVec<T>) returns (r: bool)
    requires v1.Valid() && v2.Valid()
    ensures r == LexLess(lt, v1.elems, v2.elems)
    ensures r <==> exists i: nat :: DecidedAt(lt, v1.elems, v2.elems, i)
  {
    LexFirst(lt, v1.elems, v2.elems);
    var minlast := if v1.sze < v2.sze then v1.sze else v2.sze;
    var i := 0;
    while i < minlast
      invariant i <= minlast
      invariant LexLess(lt, v1.elems, v2.elems) == LexLess(lt, v1.elems[i..], v2.elems[i..])
    {
      if lt(Read(v1.buf, i), Read(v2.buf, i)) {
        return true;
      }
      if lt(Read(v2.buf, i), Read(v1.buf, i)) {
        return false;
      }
      i := i + 1;
    }
    return v1.sze < v2.sze;
  }
}
