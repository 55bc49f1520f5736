/** The bit scans of src/ecb.h that the half conversions and simplevec rely on. */
module Bits {
  import opened Powers

  /** r is the position of the highest set bit of x. */
  ghost predicate HighestBit(x: nat, r: nat) {
    Pow2(r) <= x < Pow2(r + 1)
  }

  lemma HighestBitUnique(x: nat, r: nat, r': nat)
    requires HighestBit(x, r) && HighestBit(x, r')
    ensures r == r'
  {
    if r < r' {
      Pow2Monotone(r + 1, r');
    } else if r' < r {
      Pow2Monotone(r' + 1, r);
    }
  }

  /** If dropping r low bits leaves one, the highest set bit is at r. */
  lemma HighestBitFromShift(x: nat, r: nat)
    requires Shr(x, r) == 1
    ensures HighestBit(x, r)
  {
    hide Shr;
    ShiftMask(x, r);
  }

  /** One line of the binary search: x, below 2^2k, becomes the half that holds its highest bit. */
  lemma Halve(x0: nat, x: nat, r: nat, k: nat)
    requires 0 < x < Pow2(k) * Pow2(k) && x == Shr(x0, r)
    ensures Shr(x, k) == Shr(x0, r + k) && Shr(x, k) < Pow2(k)
    ensures Shr(x, k) == 0 ==> x < Pow2(k)
  {
    hide Shr, Pow2;
    ShrShr(x0, r, k);
    ShrBound(x, Pow2(k), k);
    ShiftMask(x, k);
  }

  /** ecb_ld32; like the compiler builtin it stands in for, it is not asked about zero. */
  method Ld32(x0: nat) returns (r: nat)
    requires 0 < x0 < 0x1_0000_0000
    ensures r < 32 && HighestBit(x0, r)
  {
    assert Pow2(1) == 2 && Pow2(2) == 4 && Pow2(4) == 16 && Pow2(8) == 256 && Pow2(16) == 65536;
    assert Shr(x0, 0) == x0;
    hide Shr, Pow2, HighestBit;
    var x := x0;
    r := 0;
    Halve(x0, x, r, 16);
    if Shr(x, 16) != 0 { x := Shr(x, 16); r := r + 16; }
    Halve(x0, x, r, 8);
    if Shr(x, 8) != 0 { x := Shr(x, 8); r := r + 8; }
    Halve(x0, x, r, 4);
    if Shr(x, 4) != 0 { x := Shr(x, 4); r := r + 4; }
    Halve(x0, x, r, 2);
    if Shr(x, 2) != 0 { x := Shr(x, 2); r := r + 2; }
    Halve(x0, x, r, 1);
    if Shr(x, 1) != 0 { r := r + 1; }
    HighestBitFromShift(x0, r);
  }

  /** a | b */
  function Or(a: nat, b: nat): nat
    decreases a + b
  {
    if a == 0 && b == 0 then 0
    else 2 * Or(a / 2, b / 2) + if a % 2 == 1 || b % 2 == 1 then 1 else 0
  }

  /** Joining bit fields that do not overlap adds them. */
  lemma {:induction false} OrFields(hi: nat, lo: nat, b: nat)
    requires lo < Pow2(b)
    ensures Or(hi * Pow2(b), lo) == hi * Pow2(b) + lo
  {
    hide Or;
    if b == 0 {
      OrZero(hi);
      assert hi * 1 == hi;
    } else {
      var h := Pow2(b - 1);
      OrFields(hi, lo / 2, b - 1);
      assert hi * (2 * h) == 2 * (hi * h);
      OrStep(hi * h, lo);
    }
  }

  lemma OrStep(a: nat, lo: nat)
    ensures Or(2 * a, lo) == 2 * Or(a, lo / 2) + lo % 2
  {
    assert 2 * a / 2 == a && 2 * a % 2 == 0;
  }

  lemma {:induction false} OrZero(a: nat)
    ensures Or(a, 0) == a
  {
    if a == 0 {
    } else {
      OrZero(a / 2);
    }
  }
}
