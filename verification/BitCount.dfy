/** Counting and locating bits in src/ecb.h, the versions without compiler builtins. */
module BitCount {
  import opened Powers
  import opened Bits

  /** The number of one bits. */
  function Count(x: nat): nat {
    if x == 0 then 0 else x % 2 + Count(x / 2)
  }

  /** a & b */
  function And(a: nat, b: nat): (r: nat)
    ensures r <= b
  {
    if a == 0 || b == 0 then 0
    else 2 * And(a / 2, b / 2) + if a % 2 == 1 && b % 2 == 1 then 1 else 0
  }

  lemma AndStep(a: nat, b: nat)
    ensures And(a, b) == 2 * And(a / 2, b / 2) + if a % 2 == 1 && b % 2 == 1 then 1 else 0
  {
  }

  lemma LowStep(x: nat, k: nat)
    requires k > 0
    ensures Low(x, k) / 2 == Low(x / 2, k - 1) && Low(x, k) % 2 == x % 2 && Shr(x, k) == Shr(x / 2, k - 1)
  {
  }

  /** & works on high and low parts separately. */
  lemma {:induction false} AndSplit(a: nat, b: nat, k: nat)
    ensures And(a, b) == And(Low(a, k), Low(b, k)) + Pow2(k) * And(Shr(a, k), Shr(b, k))
  {
    if k == 0 {
      AndStep(0, 0);
    } else {
      AndSplit(a / 2, b / 2, k - 1);
      Combine(Pow2(k - 1), And(Low(a / 2, k - 1), Low(b / 2, k - 1)), And(Shr(a / 2, k - 1), Shr(b / 2, k - 1)));
      assert Pow2(k) == 2 * Pow2(k - 1);
      hide And, Low, Shr, Pow2;
      LowStep(a, k);
      LowStep(b, k);
      AndStep(a, b);
      AndStep(Low(a, k), Low(b, k));
    }
  }

  lemma Combine(h: nat, lo: nat, hi: nat)
    ensures 2 * (lo + h * hi) == 2 * lo + 2 * h * hi
  {
  }

  lemma {:induction false} AndOnes(a: nat, k: nat)
    ensures And(a, Pow2(k) - 1) == Low(a, k)
  {
    if k == 0 {
    } else {
      AndOnes(a / 2, k - 1);
      AndStep(a, Pow2(k) - 1);
      assert (Pow2(k) - 1) / 2 == Pow2(k - 1) - 1 && (Pow2(k) - 1) % 2 == 1;
    }
  }

  lemma LowLow(x: nat, a: nat, b: nat)
    requires a <= b
    ensures Low(Low(x, b), a) == Low(x, a)
  {
    if a > 0 {
      LowLow(x / 2, a - 1, b - 1);
    }
  }

  // ----- words as rows of fields -----

  /** A word from its low field and the rest. */
  lemma Fields(lo: nat, hi: nat, k: nat)
    requires lo < Pow2(k)
    ensures Low(lo + Pow2(k) * hi, k) == lo && Shr(lo + Pow2(k) * hi, k) == hi
  {
    ShiftMask(lo + Pow2(k) * hi, k);
    QuotientUnique(lo + Pow2(k) * hi, Pow2(k), hi, lo);
  }

  lemma Parts(x: nat, k: nat)
    ensures x == Low(x, k) + Pow2(k) * Shr(x, k) && Low(x, k) < Pow2(k)
  {
    hide Low, Shr, Pow2;
    ShiftMask(x, k);
  }

  /** Every other field of width w, n of them: 0x55555555, 0x33333333, 0x0f0f0f0f. */
  function Mask(w: nat, n: nat): nat {
    if n == 0 then 0 else Pow2(w) - 1 + Pow2(2 * w) * Mask(w, n - 1)
  }

  lemma AndMask(x: nat, w: nat, n: nat)
    requires n > 0
    ensures And(x, Mask(w, n)) == Low(x, w) + Pow2(2 * w) * And(Shr(x, 2 * w), Mask(w, n - 1))
  {
    hide And, Shr, Low;
    Pow2Monotone(w, 2 * w);
    Fields(Pow2(w) - 1, Mask(w, n - 1), 2 * w);
    AndSplit(x, Mask(w, n), 2 * w);
    AndOnes(Low(x, 2 * w), w);
    LowLow(x, w, 2 * w);
  }

  /** The sum of n fields of width w. */
  function Total(x: nat, w: nat, n: nat): nat
    decreases n
  {
    if n == 0 then 0 else Low(x, w) + Total(Shr(x, w), w, n - 1)
  }

  ghost predicate AtMost(x: nat, w: nat, n: nat, c: nat)
    decreases n
  {
    n == 0 || (Low(x, w) <= c && AtMost(Shr(x, w), w, n - 1, c))
  }

  /** One round: each pair of fields of width w becomes one field of twice the width that holds their sum. */
  function Round(x: nat, w: nat, n: nat): nat {
    And(Shr(x, w), Mask(w, n)) + And(x, Mask(w, n))
  }

  lemma RoundFields(x: nat, w: nat, n: nat)
    requires n > 0 && w > 0
    ensures Low(Round(x, w, n), 2 * w) == Low(x, w) + Low(Shr(x, w), w)
    ensures Shr(Round(x, w, n), 2 * w) == Round(Shr(x, 2 * w), w, n - 1)
  {
    hide And, Shr, Low, Mask;
    AndMask(x, w, n);
    AndMask(Shr(x, w), w, n);
    ShrShr(x, w, 2 * w);
    ShrShr(x, 2 * w, w);
    ShiftMask(x, w);
    ShiftMask(Shr(x, w), w);
    Pow2Add(w, w);
    var p, a, b := Pow2(w), And(Shr(x, 2 * w), Mask(w, n - 1)), And(Shr(Shr(x, 2 * w), w), Mask(w, n - 1));
    assert 2 * p <= p * p by {
      MulMonotone(2, p, p);
    }
    assert Pow2(2 * w) * a + Pow2(2 * w) * b == Pow2(2 * w) * (a + b);
    Fields(Low(x, w) + Low(Shr(x, w), w), a + b, 2 * w);
  }

  /** A round keeps the total, and at most doubles the fields. */
  lemma {:induction false} RoundKeepsTotal(x: nat, w: nat, n: nat, c: nat)
    requires w > 0 && AtMost(x, w, 2 * n, c)
    ensures Total(Round(x, w, n), 2 * w, n) == Total(x, w, 2 * n)
    ensures AtMost(Round(x, w, n), 2 * w, n, 2 * c)
    decreases n
  {
    hide Low, Shr, Round;
    if n == 0 {
    } else {
      RoundFields(x, w, n);
      ShrShr(x, w, w);
      RoundKeepsTotal(Shr(x, 2 * w), w, n - 1, c);
    }
  }

  /** Where the sums cannot carry, one mask after the addition does what two before it do. */
  lemma {:induction false} MaskAfterAdding(x: nat, w: nat, n: nat, c: nat)
    requires w > 0 && AtMost(x, w, 2 * n, c) && 2 * c < Pow2(w)
    ensures And(Shr(x, w) + x, Mask(w, n)) == Round(x, w, n)
    decreases n
  {
    if n == 0 {
    } else {
      hide And, Shr, Low, Round, Mask, Pow2, AtMost;
      var y, x2, n1 := Shr(x, w) + x, Shr(x, 2 * w), n - 1;
      TwoFields(x, w, n, c);
      RoundFields(x, w, n);
      Parts(Round(x, w, n), 2 * w);
      AndMask(y, w, n);
      AddShifted(x, w);
      if n > 1 {
        TwoFields(x2, w, n1, c);
        AddShifted2(x, w);
        MaskAfterAdding(x2, w, n1, c);
      } else {
        NoMask(Shr(y, 2 * w), x2, w);
      }
    }
  }

  lemma TwoFields(x: nat, w: nat, n: nat, c: nat)
    requires n > 0 && AtMost(x, w, 2 * n, c)
    ensures Low(x, w) <= c && Low(Shr(x, w), w) <= c && AtMost(Shr(x, 2 * w), w, 2 * (n - 1), c)
  {
    hide Shr, Low;
    ShrShr(x, w, w);
  }

  lemma NoMask(y: nat, x: nat, w: nat)
    ensures And(y, Mask(w, 0)) == 0 == Round(x, w, 0)
  {
  }

  /** The two lowest fields of (x >> w) + x, as long as neither sum carries. */
  lemma AddShifted(x: nat, w: nat)
    requires Low(x, w) + Low(Shr(x, w), w) < Pow2(w)
    ensures Low(Shr(x, w) + x, w) == Low(x, w) + Low(Shr(x, w), w)
    ensures Shr(Shr(x, w) + x, w) == Shr(Shr(x, w), w) + Shr(x, w)
  {
    hide Shr, Low, Pow2;
    var p, s := Pow2(w), Shr(x, w);
    ShiftMask(x, w);
    ShiftMask(s, w);
    assert p * (Shr(s, w) + s) == Shr(s, w) * p + s * p;
    Fields(Low(x, w) + Low(s, w), Shr(s, w) + s, w);
  }

  lemma AddShifted2(x: nat, w: nat)
    requires Low(x, w) + Low(Shr(x, w), w) < Pow2(w)
    requires Low(Shr(x, w), w) + Low(Shr(x, 2 * w), w) < Pow2(w)
    ensures Shr(Shr(x, w) + x, 2 * w) == Shr(Shr(x, 2 * w), w) + Shr(x, 2 * w)
  {
    hide Shr, Low;
    AddShifted(x, w);
    ShrShr(x, w, w);
    AddShifted(Shr(x, w), w);
    ShrShr(Shr(x, w) + x, w, w);
  }

  /** A total of single bits is the bit count. */
  lemma {:induction false} TotalOfBits(x: nat, n: nat)
    requires x < Pow2(n)
    ensures Total(x, 1, n) == Count(x) && AtMost(x, 1, n, 1)
  {
    assert Low(x, 1) == x % 2 && Shr(x, 1) == x / 2;
    if n == 0 {
    } else {
      TotalOfBits(x / 2, n - 1);
    }
  }

  /** The first round can subtract: x is its even bits plus twice its odd ones. */
  lemma {:induction false} FirstRound(x: nat, n: nat)
    requires x < Pow2(2 * n)
    ensures And(x / 2, Mask(1, n)) <= x
    ensures x - And(x / 2, Mask(1, n)) == And(x / 2, Mask(1, n)) + And(x, Mask(1, n))
  {
    if n == 0 {
    } else {
      assert x / 4 < Pow2(2 * (n - 1)) by {
        assert Pow2(2 * n) == 2 * Pow2(2 * n - 1) == 4 * Pow2(2 * n - 2);
      }
      hide And, Mask, Pow2;
      TwoBits(x, n);
      TwoBits(x / 2, n);
      FirstRound(x / 4, n - 1);
      assert x / 2 / 4 == x / 4 / 2;
      Quarter(x, And(x / 4 / 2, Mask(1, n - 1)), And(x / 4, Mask(1, n - 1)));
    }
  }

  lemma Quarter(x: nat, odd: nat, even: nat)
    requires x / 4 == 2 * odd + even
    ensures x == 2 * (x / 2 % 2 + 4 * odd) + (x % 2 + 4 * even)
  {
    var half := x / 2;
    assert x == 2 * half + x % 2;
    assert half == 2 * (half / 2) + half % 2;
    assert half / 2 == x / 4;
  }

  lemma TwoBits(x: nat, n: nat)
    requires n > 0
    ensures And(x, Mask(1, n)) == x % 2 + 4 * And(x / 4, Mask(1, n - 1))
  {
    assert Shr(x / 2, 1) == x / 2 / 2;
    assert Shr(x, 2) == x / 4 && Pow2(2) == 4;
    assert Low(x, 1) == x % 2;
    hide Shr, Low, And, Mask, Pow2;
    AndMask(x, 1, n);
  }

  /** The top byte of x * 0x01010101 is the sum of the four bytes of x, if that fits a byte. */
  lemma SumOfBytes(x: nat)
    requires x < 0x1_0000_0000 && Total(x, 8, 4) < 256
    ensures Shr(Low(x * 0x0101_0101, 32), 24) == Total(x, 8, 4)
  {
    hide *;
    Bytes(x);
    var b0, b1, b2, b3 := Low(x, 8), Low(Shr(x, 8), 8), Low(Shr(x, 16), 8), Shr(x, 24);
    LowWord(x * 0x0101_0101);
    Product(b0, b1, b2, b3);
    TopByte(b0 + 0x100 * (b0 + b1) + 0x1_0000 * (b0 + b1 + b2), b0 + b1 + b2 + b3);
  }

  lemma LowWord(x: nat)
    ensures Low(x, 32) == x % 0x1_0000_0000
  {
    WordSizes();
    ShiftMask(x, 32);
  }

  lemma TopByte(rest: nat, top: nat)
    requires rest < 0x100_0000
    ensures Shr(rest + 0x100_0000 * top, 24) == top
  {
    assert Pow2(8) == 256;
    Pow2Add(8, 8);
    Pow2Add(8, 16);
    Fields(rest, top, 24);
  }

  lemma Product(b0: nat, b1: nat, b2: nat, b3: nat)
    requires b0 + b1 + b2 + b3 < 256
    ensures (b0 + 0x100 * b1 + 0x1_0000 * b2 + 0x100_0000 * b3) * 0x0101_0101 % 0x1_0000_0000 ==
              b0 + 0x100 * (b0 + b1) + 0x1_0000 * (b0 + b1 + b2) + 0x100_0000 * (b0 + b1 + b2 + b3)
  {
    var low := b0 + 0x100 * (b0 + b1) + 0x1_0000 * (b0 + b1 + b2) + 0x100_0000 * (b0 + b1 + b2 + b3);
    var over := b1 + b2 + b3 + 0x100 * (b2 + b3) + 0x1_0000 * b3;
    QuotientUnique((b0 + 0x100 * b1 + 0x1_0000 * b2 + 0x100_0000 * b3) * 0x0101_0101, 0x1_0000_0000, over, low);
  }

  lemma Bytes(x: nat)
    requires x < 0x1_0000_0000
    ensures var b0, b1, b2, b3 := Low(x, 8), Low(Shr(x, 8), 8), Low(Shr(x, 16), 8), Shr(x, 24);
            && b0 < 256 && b1 < 256 && b2 < 256 && b3 < 256
            && x == b0 + 0x100 * b1 + 0x1_0000 * b2 + 0x100_0000 * b3
            && Total(x, 8, 4) == b0 + b1 + b2 + b3
  {
    hide Shr, Low;
    assert Pow2(8) == 256;
    ShiftMask(x, 8);
    ShrShr(x, 8, 8);
    ShiftMask(Shr(x, 8), 8);
    ShrShr(x, 16, 8);
    ShiftMask(Shr(x, 16), 8);
    LowId(Shr(x, 24), 8);
    var n3, n2, n1 := Total(Shr(x, 24), 8, 1), Total(Shr(x, 16), 8, 2), Total(Shr(x, 8), 8, 3);
    assert n3 == Low(Shr(x, 24), 8);
  }

  lemma {:induction false} CountBound(x: nat, n: nat)
    requires x < Pow2(n)
    ensures Count(x) <= n
  {
    if n == 0 {
    } else {
      CountBound(x / 2, n - 1);
    }
  }

  lemma {:induction false} CountSplit(x: nat, k: nat)
    ensures Count(x) == Count(Low(x, k)) + Count(Shr(x, k))
  {
    if k == 0 {
    } else {
      CountSplit(x / 2, k - 1);
      hide Low, Shr;
      LowStep(x, k);
    }
  }

  /** Subtracting the odd bits once is the first round. */
  lemma Subtracting(x: nat)
    requires x < 0x1_0000_0000
    ensures x == Round(x, 1, 16) + And(Shr(x, 1), Mask(1, 16))
  {
    assert Shr(x, 1) == x / 2;
    WordSizes();
    hide And, Shr, Mask, Pow2;
    FirstRound(x, 16);
  }

  lemma SingleBits(x: nat)
    requires x < 0x1_0000_0000
    ensures Total(x, 1, 32) == Count(x) <= 32 && AtMost(x, 1, 32, 1)
  {
    WordSizes();
    hide Total, AtMost, Pow2, Count;
    TotalOfBits(x, 32);
    CountBound(x, 32);
  }

  /** The first three rounds, on a 32-bit word. */
  lemma Rounds(x0: nat, x1: nat, x2: nat, x3: nat)
    requires x0 < 0x1_0000_0000
    requires x1 == Round(x0, 1, 16) && x2 == Round(x1, 2, 8) && x3 == Round(x2, 4, 4)
    ensures Total(x3, 8, 4) == Count(x0) <= 32 && x3 == And(Shr(x2, 4) + x2, Mask(4, 4))
  {
    hide *;
    SingleBits(x0);
    RoundKeepsTotal(x0, 1, 16, 1);
    RoundKeepsTotal(x1, 2, 8, 2);
    RoundKeepsTotal(x2, 4, 4, 4);
    NoCarry(x2);
  }

  /** With no field above 4, fields of four bits can be added before they are masked. */
  lemma NoCarry(x: nat)
    requires AtMost(x, 4, 8, 4)
    ensures And(Shr(x, 4) + x, Mask(4, 4)) == Round(x, 4, 4)
  {
    assert Pow2(4) == 16;
    hide Round, And, Shr, Low, Mask, AtMost, Pow2;
    MaskAfterAdding(x, 4, 4, 4);
  }

  /** The weight of the field that follows the first n pairs of fields. */
  function Weight(w: nat, n: nat): nat {
    if n == 0 then 1 else Pow2(2 * w) * Weight(w, n - 1)
  }

  lemma {:induction false} MaskAdd(w: nat, a: nat, b: nat)
    ensures Mask(w, a + b) == Mask(w, a) + Weight(w, a) * Mask(w, b)
  {
    if a == 0 {
    } else {
      MaskAdd(w, a - 1, b);
      Distribute(Pow2(2 * w), Mask(w, a - 1), Weight(w, a - 1), Mask(w, b));
    }
  }

  lemma Distribute(p: nat, x: nat, q: nat, m: nat)
    ensures p * (x + q * m) == p * x + p * q * m
  {
    assert p * (q * m) == p * q * m;
  }

  /** The masks as they stand in the source. */
  lemma Masks()
    ensures Mask(1, 16) == 0x5555_5555 && Mask(2, 8) == 0x3333_3333 && Mask(4, 4) == 0x0f0f_0f0f
    ensures Mask(8, 2) == 0x00ff_00ff && Mask(16, 1) == 0xffff
  {
    assert Pow2(2) == 4 && Pow2(4) == 16 && Pow2(8) == 256 && Pow2(16) == 65536;
    assert Mask(1, 1) == 1 && Mask(2, 1) == 3 && Mask(4, 1) == 15 && Mask(8, 1) == 255 && Mask(16, 1) == 65535;
    assert Weight(1, 1) == 4 && Weight(1, 2) == 16 && Weight(1, 4) == 256 && Weight(1, 8) == 65536;
    assert Weight(2, 1) == 16 && Weight(2, 2) == 256 && Weight(2, 4) == 65536;
    assert Weight(4, 1) == 256 && Weight(4, 2) == 65536 && Weight(8, 1) == 65536;
    hide Mask, Pow2, Weight;
    MaskAdd(1, 1, 1);
    MaskAdd(1, 2, 2);
    MaskAdd(1, 4, 4);
    MaskAdd(1, 8, 8);
    MaskAdd(2, 1, 1);
    MaskAdd(2, 2, 2);
    MaskAdd(2, 4, 4);
    MaskAdd(4, 1, 1);
    MaskAdd(4, 2, 2);
    MaskAdd(8, 1, 1);
  }

  /** ecb_popcount32 on 32-bit words: neither the additions nor the multiplication lose anything that is needed. */
  method Popcount32(x0: nat) returns (r: nat)
    requires x0 < 0x1_0000_0000
    ensures r == Count(x0)
  {
    hide And, Shr, Low, Mask, Total, Pow2, Count;
    Masks();
    WordSizes();
    ghost var x1 := Round(x0, 1, 16);
    ghost var x2 := Round(x1, 2, 8);
    Rounds(x0, x1, x2, Round(x2, 4, 4));
    Subtracting(x0);
    var x := x0 - And(Shr(x0, 1), 0x5555_5555);
    LowId(x2, 32);
    x := Low(And(Shr(x, 2), 0x3333_3333) + And(x, 0x3333_3333), 32);
    assert x == x2 <= 0x6666_6666;
    ShrAtMost(x, 4);
    LowId(Shr(x, 4) + x, 32);
    x := And(Low(Shr(x, 4) + x, 32), 0x0f0f_0f0f);
    SumOfBytes(x);
    x := Low(x * 0x0101_0101, 32);
    r := Shr(x, 24);
  }

  lemma {:induction false} ShrAtMost(x: nat, k: nat)
    ensures Shr(x, k) <= x
  {
    if k == 0 {
    } else {
      ShrAtMost(x / 2, k - 1);
    }
  }

  /** ecb_popcount64 */
  method Popcount64(x: nat) returns (r: nat)
    requires x < Pow2(64)
    ensures r == Count(x)
  {
    hide Count, Low, Shr, Pow2;
    WordSizes();
    Pow2Add(32, 32);
    ShiftMask(x, 32);
    ShrBound(x, Pow2(32), 32);
    CountSplit(x, 32);
    var lo := Popcount32(Low(x, 32));
    LowId(Shr(x, 32), 32);
    var hi := Popcount32(Low(Shr(x, 32), 32));
    r := lo + hi;
  }

  /** ecb_ld64 */
  method Ld64(x: nat) returns (r: nat)
    requires 0 < x < Pow2(64)
    ensures r < 64 && HighestBit(x, r)
  {
    hide Low, Shr, Pow2;
    WordSizes();
    Pow2Add(32, 32);
    ShiftMask(x, 32);
    ShrBound(x, Pow2(32), 32);
    var hi := Shr(x, 32);
    if hi != 0 {
      r := Ld32(hi);
      HighestBitShifted(x, 32, r);
      r := 32 + r;
    } else {
      r := Ld32(x);
    }
  }

  lemma HighestBitShifted(x: nat, k: nat, r: nat)
    requires HighestBit(Shr(x, k), r)
    ensures HighestBit(x, r + k)
  {
    hide Low, Shr, Pow2;
    Parts(x, k);
    Pow2Add(r, k);
    Pow2Add(r + 1, k);
    MulMonotone(Pow2(r), Shr(x, k), Pow2(k));
    MulMonotone(Shr(x, k) + 1, Pow2(r + 1), Pow2(k));
  }

  // ----- trailing zeros -----

  /** r is the position of the lowest set bit of x. */
  ghost predicate LowestBit(x: nat, r: nat) {
    Low(x, r) == 0 && Shr(x, r) % 2 == 1
  }

  /** x & (~x + 1) keeps the lowest set bit alone. */
  lemma {:induction false} Isolate(x: nat, n: nat) returns (r: nat)
    requires 0 < x < Pow2(n)
    ensures r < n && LowestBit(x, r) && And(x, Pow2(n) - x) == Pow2(r)
  {
    var h := Pow2(n - 1);
    AndStep(x, 2 * h - x);
    if x % 2 == 1 {
      r := 0;
      Complement(x / 2, n - 1);
      assert (2 * h - x) / 2 == h - 1 - x / 2 && (2 * h - x) % 2 == 1;
    } else {
      assert (2 * h - x) / 2 == h - x / 2 && (2 * h - x) % 2 == 0;
      r := Isolate(x / 2, n - 1);
      r := r + 1;
    }
  }

  /** A number and its complement have no bit in common. */
  lemma {:induction false} Complement(x: nat, n: nat)
    requires x < Pow2(n)
    ensures And(x, Pow2(n) - 1 - x) == 0
  {
    if n == 0 {
    } else {
      var h := Pow2(n - 1);
      Complement(x / 2, n - 1);
      AndStep(x, 2 * h - 1 - x);
      assert (2 * h - 1 - x) / 2 == h - 1 - x / 2 && (2 * h - 1 - x) % 2 == 1 - x % 2;
    }
  }

  /** A power of two meets a mask in its one bit. */
  lemma {:induction false} AndPow2(t: nat, m: nat)
    ensures And(Pow2(t), m) != 0 <==> Shr(m, t) % 2 == 1
  {
    if t > 0 {
      AndStep(Pow2(t), m);
      AndPow2(t - 1, m / 2);
    } else {
      AndStep(1, m);
      AndStep(0, m / 2);
    }
  }

  /** One bit of a word that is put together from two parts. */
  lemma {:induction false} BitOf(lo: nat, hi: nat, k: nat, t: nat)
    requires lo < Pow2(k)
    ensures Shr(lo + Pow2(k) * hi, t) % 2 == if t < k then Shr(lo, t) % 2 else Shr(hi, t - k) % 2
  {
    if k == 0 {
      assert Pow2(k) * hi == hi;
    } else {
      var x, h := lo + Pow2(k) * hi, Pow2(k - 1);
      assert Pow2(k) * hi == 2 * (h * hi);
      assert x % 2 == lo % 2 && x / 2 == lo / 2 + h * hi;
      if t > 0 {
        BitOf(lo / 2, hi, k - 1, t - 1);
      }
    }
  }

  lemma {:induction false} BitOfOnes(w: nat, t: nat)
    ensures Shr(Pow2(w) - 1, t) % 2 == if t < w then 1 else 0
  {
    if w > 0 && t > 0 {
      assert (Pow2(w) - 1) / 2 == Pow2(w - 1) - 1;
      BitOfOnes(w - 1, t - 1);
    } else if t > 0 {
      BitOfOnes(w, t - 1);
    }
  }

  /** The number of bits of n pairs of fields. */
  function Span(w: nat, n: nat): nat {
    if n == 0 then 0 else 2 * w + Span(w, n - 1)
  }

  lemma {:induction false} SpanProduct(w: nat, n: nat)
    ensures Span(w, n) == 2 * w * n
  {
    if n == 0 {
    } else {
      SpanProduct(w, n - 1);
      assert 2 * w * n == 2 * w * (n - 1) + 2 * w;
    }
  }

  /** Position t lies in an odd field of width w. */
  predicate OddField(t: nat, w: nat)
    requires w > 0
  {
    t / w % 2 == 1
  }

  /** The ones of a mask are the even fields. */
  lemma {:induction false} BitOfMask(w: nat, n: nat, t: nat)
    requires w > 0 && t < Span(w, n)
    ensures Shr(Mask(w, n), t) % 2 == 1 <==> !OddField(t, w)
    decreases n
  {
    if n == 0 {
    } else {
      hide Shr, Mask, OddField;
      MaskFirst(w, n, t);
      FieldNumber(t, w);
      if t >= 2 * w {
        BitOfMask(w, n - 1, t - 2 * w);
      }
    }
  }

  lemma MaskFirst(w: nat, n: nat, t: nat)
    requires n > 0
    ensures Shr(Mask(w, n), t) % 2 ==
              if t < 2 * w then if t < w then 1 else 0 else Shr(Mask(w, n - 1), t - 2 * w) % 2
  {
    hide Shr, Pow2;
    Pow2Monotone(w, 2 * w);
    BitOf(Pow2(w) - 1, Mask(w, n - 1), 2 * w, t);
    BitOfOnes(w, t);
  }

  lemma FieldNumber(t: nat, w: nat)
    requires w > 0
    ensures t < w ==> !OddField(t, w)
    ensures w <= t < 2 * w ==> OddField(t, w)
    ensures t >= 2 * w ==> OddField(t, w) == OddField(t - 2 * w, w)
  {
    if t < 2 * w {
      QuotientUnique(t, w, if t < w then 0 else 1, if t < w then t else t - w);
    } else {
      DivAddMultiple(2, w, t - 2 * w);
    }
  }

  /** The mask of the odd fields asks for one bit of the position. */
  lemma Probe(t: nat, w: nat, n: nat)
    requires w > 0 && t < Span(w, n)
    ensures And(Pow2(t), Pow2(w) * Mask(w, n)) != 0 <==> OddField(t, w)
  {
    hide And, Shr, Pow2, Mask, OddField;
    AndPow2(t, Pow2(w) * Mask(w, n));
    BitOf(0, Mask(w, n), w, t);
    FieldNumber(t, w);
    if t < w {
      ShrAtMost(0, t);
    } else {
      BitOfMask(w, n, t - w);
      NextField(t, w);
    }
  }

  lemma NextField(t: nat, w: nat)
    requires 0 < w <= t
    ensures OddField(t, w) <==> !OddField(t - w, w)
  {
    DivAddMultiple(1, w, t - w);
  }

  lemma Probes(t: nat)
    requires t < 32
    ensures And(Pow2(t), 0xaaaa_aaaa) != 0 <==> t % 2 == 1
    ensures And(Pow2(t), 0xcccc_cccc) != 0 <==> t / 2 % 2 == 1
    ensures And(Pow2(t), 0xf0f0_f0f0) != 0 <==> t / 4 % 2 == 1
    ensures And(Pow2(t), 0xff00_ff00) != 0 <==> t / 8 % 2 == 1
    ensures And(Pow2(t), 0xffff_0000) != 0 <==> t / 16 % 2 == 1
  {
    assert Pow2(1) == 2 && Pow2(2) == 4 && Pow2(4) == 16 && Pow2(8) == 256 && Pow2(16) == 65536;
    hide And, Pow2, Mask, Span;
    SpanProduct(1, 16);
    SpanProduct(2, 8);
    SpanProduct(4, 4);
    SpanProduct(8, 2);
    SpanProduct(16, 1);
    Masks();
    Probe(t, 1, 16);
    Probe(t, 2, 8);
    Probe(t, 4, 4);
    Probe(t, 8, 2);
    Probe(t, 16, 1);
  }

  /** ecb_ctz32; like the compiler builtin, it is not asked about zero. */
  method Ctz32(x0: nat) returns (r: nat)
    requires 0 < x0 < 0x1_0000_0000
    ensures r < 32 && LowestBit(x0, r)
  {
    hide And, Low, Shr, Pow2, LowestBit;
    WordSizes();
    ghost var t := Isolate(x0, 32);
    Probes(t);
    LowId(0x1_0000_0000 - x0, 32);
    var x := And(x0, Low(0x1_0000_0000 - x0, 32));
    r := 0;
    if And(x, 0xaaaa_aaaa) != 0 { r := r + 1; }
    if And(x, 0xcccc_cccc) != 0 { r := r + 2; }
    if And(x, 0xf0f0_f0f0) != 0 { r := r + 4; }
    if And(x, 0xff00_ff00) != 0 { r := r + 8; }
    if And(x, 0xffff_0000) != 0 { r := r + 16; }
    assert r == t;
  }

  /** ecb_ctz64 */
  method Ctz64(x: nat) returns (r: nat)
    requires 0 < x < Pow2(64)
    ensures r < 64 && LowestBit(x, r)
  {
    assert Shr(x, 0) == x;
    hide And, Low, Shr, Pow2, LowestBit;
    WordSizes();
    Pow2Add(32, 32);
    AndOnes(x, 32);
    Parts(x, 32);
    var shift := if And(x, 0xffff_ffff) != 0 then 0 else 32;
    if shift == 0 {
      r := Ctz32(Low(Shr(x, shift), 32));
      LowestBitOfLow(x, 32, r);
    } else {
      ShrBound(x, Pow2(32), 32);
      LowId(Shr(x, 32), 32);
      r := Ctz32(Low(Shr(x, shift), 32));
      LowestBitOfHigh(x, 32, r);
    }
    r := r + shift;
  }

  lemma {:induction false} LowestBitOfLow(x: nat, k: nat, r: nat)
    requires r < k && LowestBit(Low(x, k), r)
    ensures LowestBit(x, r)
  {
    if r == 0 {
    } else {
      LowStep(x, k);
      LowestBitOfLow(x / 2, k - 1, r - 1);
    }
  }

  lemma {:induction false} LowestBitOfHigh(x: nat, k: nat, r: nat)
    requires Low(x, k) == 0 && LowestBit(Shr(x, k), r)
    ensures LowestBit(x, r + k)
  {
    if k == 0 {
    } else {
      LowStep(x, k);
      LowestBitOfHigh(x / 2, k - 1, r);
      LowStep(x, r + k);
    }
  }
}
