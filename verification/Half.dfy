/** The binary16 / binary32 conversions of src/ecb.h against the formats and the rounding of IEEE 754-2008.
    Encodings are unsigned words; without its sign bit, a half encoding is 0..0x7fff, a single 0..0x7fffffff. */
module Half {
  import opened Powers
  import opened Bits
  import opened Wrappers

  const INF16 := 0x7c00
  const INF32 := 0x7f80_0000

  // ---- the formats (section 3.4) ----

  /** The magnitude of half encoding k, in units of 2^-24. For the encoding of infinity it is 2^16, the value an
      unbounded exponent range would continue with. */
  function Mag16(k: nat): nat {
    if k < 1024 then k else (1024 + k % 1024) * Pow2(k / 1024 - 1)
  }

  /** The magnitude of single encoding y, in units of 2^-149. */
  function Mag32(y: nat): nat {
    if y < 0x80_0000 then y else (0x80_0000 + y % 0x80_0000) * Pow2(y / 0x80_0000 - 1)
  }

  /** The magnitude of half encoding k in units of 2^-149, those of Mag32. */
  function Value16(k: nat): nat {
    Mag16(k) * Pow2(125)
  }

  /** One is 0x3c00 and 0x3f800000; the least half is 2^-24, the greatest finite one 65504. */
  lemma Landmarks()
    ensures Mag16(1) == 1 && Mag16(0x3c00) == Pow2(24) && Mag16(0x7bff) == 65504 * Pow2(24)
    ensures Mag32(1) == 1 && Mag32(0x3f80_0000) == Pow2(149)
    ensures Value16(0x3c00) == Mag32(0x3f80_0000)
  {
    assert Pow2(5) == 32;
    Pow2Add(5, 5);
    Pow2Add(10, 14);
    Pow2Add(10, 5);
    Pow2Add(15, 9);
    Pow2Add(24, 5);
    Pow2Add(10, 13);
    Pow2Add(23, 126);
    Pow2Add(24, 125);
    assert Pow2(3) == 8 && Pow2(4) == 16 && Pow2(9) == 2 * Pow2(8) && Pow2(8) == 16 * Pow2(4) by {
      Pow2Add(4, 4);
    }
    hide Pow2;
    MagFields();
  }

  lemma MagFields()
    ensures 0x3c00 / 1024 - 1 == 14 && 0x3c00 % 1024 == 0 && 0x7bff / 1024 - 1 == 29 && 0x7bff % 1024 == 1023
    ensures 0x3f80_0000 / 0x80_0000 - 1 == 126 && 0x3f80_0000 % 0x80_0000 == 0
  {
  }

  function Distance(a: int, b: int): nat {
    if a <= b then b - a else a - b
  }

  /** roundTiesToEven (section 4.3.1): among all half magnitudes up to infinity's place, k is nearest to v,
      and even where another one is equally near. */
  ghost predicate RoundsTo(v: nat, k: nat) {
    && k <= INF16
    && forall j: nat :: j <= INF16 && j != k ==>
         || Distance(v, Value16(k)) < Distance(v, Value16(j))
         || (Distance(v, Value16(k)) == Distance(v, Value16(j)) && k % 2 == 0 && j % 2 == 1)
  }

  /** Adjacent half magnitudes differ by one unit of the smaller one's exponent. */
  lemma Mag16Step(k: nat)
    ensures Mag16(k + 1) == Mag16(k) + if k < 1024 then 1 else Pow2(k / 1024 - 1)
  {
    if k >= 1024 {
      var e, m := k / 1024, k % 1024;
      assert Pow2(e) == 2 * Pow2(e - 1);
      hide Pow2;
      if m == 1023 {
        assert (k + 1) / 1024 == e + 1 && (k + 1) % 1024 == 0;
      } else {
        assert (k + 1) / 1024 == e && (k + 1) % 1024 == m + 1;
      }
    } else if k == 1023 {
      assert Pow2(0) == 1;
    }
  }

  lemma {:induction false} Mag16Monotone(j: nat, k: nat)
    requires j < k
    ensures Mag16(j) < Mag16(k)
  {
    hide Mag16, Pow2;
    Mag16Step(k - 1);
    if j < k - 1 {
      Mag16Monotone(j, k - 1);
    }
  }

  lemma ScaledMonotone(j: nat, k: nat)
    requires j < k
    ensures Value16(j) < Value16(k)
  {
    hide Mag16, Pow2;
    Mag16Monotone(j, k);
    MulStrict(Mag16(j), Mag16(k), Pow2(125));
  }

  /** Between two adjacent magnitudes, r of 2h parts above the lower one: the rounding decision is local. */
  lemma RoundsBetween(v: nat, q: nat, k: nat, r: nat, h: nat, part: nat)
    requires q + 1 <= INF16 && part > 0 && r < 2 * h
    requires v == Value16(q) + r * part
    requires Value16(q + 1) == Value16(q) + 2 * h * part
    requires k == if r > h || (r == h && q % 2 == 1) then q + 1 else q
    ensures RoundsTo(v, k)
  {
    hide Value16;
    var up := 2 * h * part - r * part;
    assert up == (2 * h - r) * part;
    if r < h {
      MulStrict(r, 2 * h - r, part);
    } else if r > h {
      MulStrict(2 * h - r, r, part);
    }
    MulStrict(r, 2 * h, part);
    MulMonotone(0, r, part);
    NearestOfTwo(v, q, k, r * part, up);
  }

  lemma NearestOfTwo(v: nat, q: nat, k: nat, down: nat, up: nat)
    requires q + 1 <= INF16 && v == Value16(q) + down && Value16(q + 1) == v + up && up > 0
    requires k == if down > up || (down == up && q % 2 == 1) then q + 1 else q
    ensures RoundsTo(v, k)
  {
    hide Value16;
    forall j: nat | j <= INF16 && j != k
      ensures Distance(v, Value16(k)) < Distance(v, Value16(j))
              || (Distance(v, Value16(k)) == Distance(v, Value16(j)) && k % 2 == 0 && j % 2 == 1)
    {
      if j < q {
        ScaledMonotone(j, q);
      } else if j > q + 1 {
        ScaledMonotone(q + 1, j);
      }
    }
  }

  /** The rounding of a number is unique. */
  lemma RoundsUnique(v: nat, k: nat, k': nat)
    requires RoundsTo(v, k) && RoundsTo(v, k')
    ensures k == k'
  {
    hide Value16, Distance;
    ghost var a, b := Value16(k), Value16(k');
  }

  /** A representable magnitude rounds to itself only. */
  lemma RoundsExact(k: nat, k': nat)
    requires k <= INF16 && RoundsTo(Value16(k), k')
    ensures k' == k
  {
    hide Value16;
    if k < k' {
      ScaledMonotone(k, k');
    } else if k' < k {
      ScaledMonotone(k', k);
    }
  }

  // ---- round, shift ----

  /** (m + half + even) >> bits, as the subnormal path computes it, is m / 2^bits rounded to nearest, ties to even. */
  lemma RoundShift(m: nat, bits: nat)
    requires bits >= 1
    ensures var q, r, h := Shr(m, bits), Low(m, bits), Pow2(bits - 1);
            && Pow2(bits) == 2 * h && m == q * Pow2(bits) + r && r < 2 * h
            && Shr(m + (h - 1) + q % 2, bits) == if r > h || (r == h && q % 2 == 1) then q + 1 else q
  {
    hide Shr, Low;
    var q, r, h := Shr(m, bits), Low(m, bits), Pow2(bits - 1);
    ShiftMask(m, bits);
    ShiftMask(m + (h - 1) + q % 2, bits);
    RoundQuotient(q, r, h, Pow2(bits));
  }

  lemma RoundQuotient(q: nat, r: nat, h: nat, d: nat)
    requires d == 2 * h && r < d && h > 0
    ensures (q * d + r + (h - 1) + q % 2) / d == if r > h || (r == h && q % 2 == 1) then q + 1 else q
  {
    var s := r + (h - 1) + q % 2;
    if s < d {
      QuotientUnique(q * d + s, d, q, s);
    } else {
      assert (q + 1) * d == q * d + d;
      QuotientUnique(q * d + s, d, q + 1, s - d);
    }
  }

  // ---- binary32 to binary16 ----

  /** The guard of the carry branch: rounding the mantissa of a number in the range of the normal halves overflows it. */
  predicate Carries(y: nat) {
    0x3880_0000 <= y <= 0x477f_efff && y % 0x80_0000 + 0xfff + y / 0x2000 % 2 >= 0x80_0000
  }

  /** Adding 0xfff and the last kept bit, then dropping thirteen bits. */
  lemma RoundThirteen(top: nat, r: nat)
    requires r < 0x2000
    ensures (top * 0x2000 + r + 0xfff + top % 2) / 0x2000 ==
              if r > 0x1000 || (r == 0x1000 && top % 2 == 1) then top + 1 else top
  {
  }

  /** In the range of the normal halves, adding 0xfff and the last kept bit rounds the mantissa to nearest even. */
  lemma NormalRounds(y: nat)
    requires 0x3880_0000 <= y < 0x4780_0000
    ensures var e, m := y / 0x80_0000 - 112, y % 0x80_0000;
            RoundsTo(Mag32(y), e * 1024 + (m + 0xfff + m / 0x2000 % 2) / 0x2000)
  {
    hide RoundsTo, Pow2, Value16;
    var e, m := y / 0x80_0000 - 112, y % 0x80_0000;
    var top, r, part := m / 0x2000, m % 0x2000, Pow2(e + 111);
    assert m == top * 0x2000 + r;
    RoundThirteen(top, r);
    NormalValues(e, top);
    NormalParts(1024 + top, r, part);
    RoundsBetween(Mag32(y), e * 1024 + top, e * 1024 + (m + 0xfff + top % 2) / 0x2000, r, 0x1000, part);
  }

  /** A normal half and its successor, in the units of the single with the same exponent. */
  lemma NormalValues(e: nat, top: nat)
    requires 1 <= e && top < 1024
    ensures Value16(e * 1024 + top) == (1024 + top) * (0x2000 * Pow2(e + 111))
    ensures Value16(e * 1024 + top + 1) == Value16(e * 1024 + top) + 0x2000 * Pow2(e + 111)
  {
    var q, half := e * 1024 + top, Pow2(e - 1);
    assert q / 1024 == e && q % 1024 == top;
    hide Pow2;
    Pow2Add(e - 1, 125);
    Pow2Add(e + 111, 13);
    PowerThirteen();
    Mag16Step(q);
    assert Mag16(q) == (1024 + top) * half && Mag16(q + 1) == (1024 + top) * half + half;
    ValueParts(1024 + top, half, Pow2(125));
  }

  lemma ValueParts(a: nat, half: nat, unit: nat)
    ensures a * half * unit == a * (half * unit)
    ensures (a * half + half) * unit == a * half * unit + half * unit
  {
  }

  lemma NormalParts(a: nat, r: nat, part: nat)
    ensures (a * 0x2000 + r) * part == a * (0x2000 * part) + r * part
  {
  }

  lemma PowerThirteen()
    ensures Pow2(13) == 0x2000
  {
  }

  /** Below the normal halves, shifting the full mantissa right by 126 - exponent rounds to a multiple of 2^-24. */
  lemma SubnormalRounds(y: nat)
    requires 102 * 0x80_0000 <= y < 0x3880_0000
    ensures var m, bits := y % 0x80_0000 + 0x80_0000, 126 - y / 0x80_0000;
            RoundsTo(Mag32(y), Shr(m + (Pow2(bits - 1) - 1) + Shr(m, bits) % 2, bits))
            && Shr(m + (Pow2(bits - 1) - 1) + Shr(m, bits) % 2, bits) <= 1024
  {
    hide RoundsTo, Pow2, Shr, Low;
    var e, m := y / 0x80_0000, y % 0x80_0000 + 0x80_0000;
    var bits, part := 126 - e, Pow2(e - 1);
    var q, r, h := Shr(m, bits), Low(m, bits), Pow2(bits - 1);
    RoundShift(m, bits);
    assert q < 1024 by {
      Pow2Monotone(14, bits);
      assert Pow2(14) == 0x4000 by { PowerFourteen(); }
      ShrBound(m, 1024, bits);
    }
    assert Pow2(bits) * part == Pow2(125) by { Pow2Add(bits, e - 1); }
    Mag16Step(q);
    SubnormalParts(q, r, 2 * h, part);
    RoundsBetween(Mag32(y), q, Shr(m + (h - 1) + q % 2, bits), r, h, part);
  }

  lemma PowerFourteen()
    ensures Pow2(14) == 0x4000
  {
  }

  lemma SubnormalParts(q: nat, r: nat, d: nat, part: nat)
    ensures (q * d + r) * part == q * (d * part) + r * part
    ensures (q + 1) * (d * part) == q * (d * part) + d * part
  {
    assert q * d * part == q * (d * part);
  }

  /** Below half the least subnormal everything rounds to zero. */
  lemma TinyRounds(y: nat)
    requires y < 102 * 0x80_0000
    ensures RoundsTo(Mag32(y), 0)
  {
    hide RoundsTo, Pow2;
    var e := y / 0x80_0000;
    assert Pow2(23) == 0x80_0000 && Pow2(24) == 0x100_0000 by { PowerTwentyThree(); }
    if e == 0 {
      Pow2Monotone(23, 124);
    } else {
      Pow2Add(24, e - 1);
      Pow2Monotone(23 + e, 124);
      MulStrict(0x80_0000 + y % 0x80_0000, 0x100_0000, Pow2(e - 1));
    }
    assert Pow2(125) == 2 * Pow2(124) by { Pow2Double(124); }
    assert Mag16(0) == 0 && Mag16(1) == 1;
    RoundsBetween(Mag32(y), 0, 0, Mag32(y), Pow2(124), 1);
  }

  lemma PowerTwentyThree()
    ensures Pow2(23) == 0x80_0000 && Pow2(24) == 0x100_0000
  {
    assert Pow2(12) == 0x1000 && Pow2(11) == 0x800;
    Pow2Add(12, 11);
    Pow2Add(12, 12);
  }

  lemma Pow2Double(k: nat)
    ensures Pow2(k + 1) == 2 * Pow2(k)
  {
  }

  /** From 2^16 on everything rounds to infinity. */
  lemma LargeRounds(y: nat)
    requires 0x4780_0000 <= y
    ensures RoundsTo(Mag32(y), INF16)
  {
    hide Pow2;
    var e, part := y / 0x80_0000, Pow2(142);
    Pow2Monotone(142, e - 1);
    MulMonotone(part, Pow2(e - 1), 0x80_0000);
    MulMonotone(0, y % 0x80_0000, Pow2(e - 1));
    assert (0x80_0000 + y % 0x80_0000) * Pow2(e - 1) == 0x80_0000 * Pow2(e - 1) + y % 0x80_0000 * Pow2(e - 1);
    assert Value16(INF16) == 0x80_0000 * part by {
      Pow2Add(30, 125);
      Pow2Add(142, 13);
      PowerThirteen();
      assert Mag16(INF16) == 1024 * Pow2(30);
      assert 1024 * Pow2(30) * Pow2(125) == 1024 * (Pow2(30) * Pow2(125));
    }
    forall j: nat | j < INF16
      ensures Value16(j) < Value16(INF16)
    {
      ScaledMonotone(j, INF16);
    }
    hide Value16, Mag32;
  }

  /** Sign, exponent and mantissa joined by |, for an exponent field of eb bits and a mantissa field of mb bits. */
  lemma JoinHalf(s: nat, e: nat, m: nat)
    requires s <= 1 && e < 32 && m < 1024
    ensures Or(Or(s * 0x8000, e * 0x400), m) == s * 0x8000 + e * 0x400 + m
    ensures Or(s * 0x8000, e * 0x400 + m) == s * 0x8000 + e * 0x400 + m
  {
    hide Or;
    assert Pow2(15) == 0x8000 && Pow2(10) == 0x400 by { PowerFields(); }
    OrFields(s, e * 0x400, 15);
    OrFields(s, e * 0x400 + m, 15);
    OrFields(s * 32 + e, m, 10);
  }

  lemma PowerFields()
    ensures Pow2(15) == 0x8000 && Pow2(10) == 0x400 && Pow2(31) == 0x8000_0000 && Pow2(23) == 0x80_0000
  {
    PowerTwentyThree();
    assert Pow2(8) == 256;
    Pow2Add(23, 8);
  }

  /** What binary32_to_binary16 must make of the magnitude encoding y, k being the magnitude encoding of the result. */
  ghost predicate NarrowsTo(y: nat, k: nat) {
    if y > INF32 then
      // the leftmost bits of the NaN are kept, and it stays a NaN
      k - INF16 == if (y - INF32) / 0x2000 == 0 then 1 else (y - INF32) / 0x2000
    else
      RoundsTo(Mag32(y), k)
  }

  /** The fast path, before and after the mantissa overflows. */
  lemma NarrowNormal(y: nat)
    requires 0x3880_0000 <= y <= 0x477f_efff
    ensures var e, m := y / 0x80_0000 - 112, y % 0x80_0000 + 0xfff + y % 0x80_0000 / 0x2000 % 2;
            && 1 <= e <= 30 && (Carries(y) <==> m >= 0x80_0000)
            && (!Carries(y) ==> m / 0x2000 < 0x400 && NarrowsTo(y, e * 0x400 + m / 0x2000))
            && (Carries(y) ==>
                  && e + 1 <= 30 && m / 2 / 0x2000 == 0x200
                  && NarrowsTo(y, (e + 1) * 0x400) && !NarrowsTo(y, (e + 1) * 0x400 + 0x200))
  {
    hide RoundsTo, Mag32;
    NormalRounds(y);
    var e, m := y / 0x80_0000 - 112, y % 0x80_0000;
    assert y / 0x2000 % 2 == m / 0x2000 % 2;
    if Carries(y) {
      assert (m + 0xfff + m / 0x2000 % 2) / 0x2000 == 0x400;
      if RoundsTo(Mag32(y), (e + 1) * 0x400 + 0x200) {
        RoundsUnique(Mag32(y), (e + 1) * 0x400, (e + 1) * 0x400 + 0x200);
      }
    }
  }

  lemma NarrowLarge(y: nat)
    requires 0x477f_efff < y <= INF32
    ensures NarrowsTo(y, INF16) && !Carries(y)
  {
    hide RoundsTo, Mag32;
    if y < 0x4780_0000 {
      NormalRounds(y);
      assert (y % 0x80_0000 + 0xfff + y % 0x80_0000 / 0x2000 % 2) / 0x2000 == 0x400;
    } else {
      LargeRounds(y);
    }
  }

  lemma NarrowSmall(y: nat)
    requires y < 0x3880_0000
    ensures !Carries(y)
    ensures y < 102 * 0x80_0000 ==> NarrowsTo(y, 0)
    ensures y >= 102 * 0x80_0000 ==>
              var m, bits := y % 0x80_0000 + 0x80_0000, 126 - y / 0x80_0000;
              var r := Shr(m + (Pow2(bits - 1) - 1) + Shr(m, bits) % 2, bits);
              r <= 1024 && NarrowsTo(y, r)
  {
    hide RoundsTo, Mag32, Shr, Pow2;
    if y < 102 * 0x80_0000 {
      TinyRounds(y);
    } else {
      SubnormalRounds(y);
    }
  }

  lemma SplitHalf(s: nat, k: nat)
    requires s <= 1 && k < 0x8000
    ensures (s * 0x8000 + k) / 0x8000 == s && (s * 0x8000 + k) % 0x8000 == k
  {
  }

  /** ecb_binary32_to_binary16. It rounds to nearest even for every number and infinity off the carry branch; on the
      carry branch, where the implicit bit is not there to be shifted in, the result is 0x200 too large. */
  method Narrow(x0: U32) returns (h: U16)
    ensures h / 0x8000 == x0 / 0x8000_0000
    ensures var y, k := x0 % 0x8000_0000, h % 0x8000;
            && (y <= INF32 ==> (NarrowsTo(y, k) <==> !Carries(y)))
            && (y > INF32 ==> NarrowsTo(y, k))
            && (Carries(y) ==> k >= 0x200 && NarrowsTo(y, k - 0x200))
  {
    hide NarrowsTo, Carries, Or, Pow2, Shr;
    var sign := x0 / 0x8000_0000;
    var s := sign * 0x8000;
    var e := x0 / 0x80_0000 % 256 - (127 - 15);
    var m := x0 % 0x80_0000;
    var x := x0 % 0x8000_0000;
    SplitFields(x0);

    if 0x3880_0000 <= x <= 0x477f_efff {
      NarrowNormal(x);
      m := m + 0xfff + m / 0x2000 % 2;
      if m >= 0x80_0000 {
        m := m / 2;
        e := e + 1;
      }
      h := JoinFields(sign, e, m / 0x2000);
    } else if 0x477f_efff < x <= INF32 {
      NarrowLarge(x);
      h := JoinFields(sign, 31, 0);
    } else if x < 0x3880_0000 {
      NarrowSmall(x);
      if x == 0 || e < 14 - 24 {
        SplitHalf(sign, 0);
        h := s;
      } else {
        m := RoundSubnormal(e, m, x);
        h := JoinFields(sign, 0, m);
      }
    } else {
      NarrowNaN(x);
      m := m / 0x2000;
      h := JoinFields(sign, 31, if m == 0 then 1 else m); // m | !m
    }
  }

  lemma CarryWitness(y: nat)
    requires y == 0x3fff_ffff
    ensures Carries(y) && NarrowsTo(y, 0x4000)
  {
    assert Carries(y);
    hide NarrowsTo, Carries;
    NarrowNormal(y);
  }

  lemma NarrowsToOne(y: nat, k: nat, k': nat)
    requires y <= INF32 && NarrowsTo(y, k) && NarrowsTo(y, k')
    ensures k == k'
  {
    hide RoundsTo, Mag32;
    RoundsUnique(Mag32(y), k, k');
  }

  /** The carry branch on one input: the half nearest to 0x3fffffff is 0x4000, and it becomes 0x4200. */
  method CarryInstance(x: U32) returns (h: U16)
    requires x == 0x3fff_ffff
    ensures Carries(x) && NarrowsTo(x, 0x4000) && h == 0x4200
  {
    hide NarrowsTo, Carries;
    CarryWitness(x);
    h := Narrow(x);
    NarrowsToOne(x, 0x4000, h % 0x8000 - 0x200);
  }

  lemma NarrowNaN(y: nat)
    requires INF32 < y < 0x8000_0000
    ensures var m := y % 0x80_0000 / 0x2000;
            m < 0x400 && NarrowsTo(y, INF16 + if m == 0 then 1 else m) && !Carries(y)
  {
    assert y % 0x80_0000 == y - INF32;
  }

  lemma SplitFields(x0: U32)
    ensures x0 / 0x80_0000 % 256 == x0 % 0x8000_0000 / 0x80_0000 && x0 % 0x80_0000 == x0 % 0x8000_0000 % 0x80_0000
    ensures x0 % 0x8000_0000 / 0x80_0000 < 256 && x0 / 0x8000_0000 <= 1
  {
  }

  /** The tricky part of the subnormal path. */
  method RoundSubnormal(e: int, m0: nat, ghost y: nat) returns (m: nat)
    requires 102 * 0x80_0000 <= y < 0x3880_0000 && e == y / 0x80_0000 - 112 && m0 == y % 0x80_0000
    ensures m <= 0x400 && NarrowsTo(y, m)
  {
    hide NarrowsTo, Pow2, Shr;
    NarrowSmall(y);
    m := m0 + 0x80_0000; // the implicit bit, m |= 0x800000
    var bits := 14 - e;
    var half := Pow2(bits - 1) - 1;
    var even := Shr(m, bits) % 2;
    m := Shr(m + half + even, bits);
  }

  /** s | (e << 10) | m, where a subnormal that rounds up to 0x400 is the least normal. */
  method JoinFields(sign: nat, e: nat, m: nat) returns (h: U16)
    requires sign <= 1 && e < 32 && (m < 0x400 || (e == 0 && m == 0x400))
    ensures h / 0x8000 == sign && h % 0x8000 == e * 0x400 + m
  {
    hide Or;
    SplitHalf(sign, e * 0x400 + m);
    if m < 0x400 {
      JoinHalf(sign, e, m);
    } else {
      JoinHalf(sign, 1, 0);
      OrZero(sign * 0x8000);
    }
    h := Or(Or(sign * 0x8000, e * 0x400), m);
  }

  // ---- binary16 to binary32 ----

  /** What binary16_to_binary32 must make of the magnitude encoding k: the same number, infinity, or the same NaN. */
  ghost predicate WidensTo(k: nat, y: nat) {
    if k < INF16 then y < INF32 && Mag32(y) == Value16(k)
    else y == INF32 + (k - INF16) * 0x2000
  }

  /** ecb_binary16_to_binary32; the upper half of its argument is ignored. */
  method Widen(x: U32) returns (w: U32)
    ensures w / 0x8000_0000 == x / 0x8000 % 2
    ensures w % 0x2000 == 0
    ensures WidensTo(x % 0x8000, w % 0x8000_0000)
  {
    hide Or, Pow2, Mag32, Value16, Low;
    var sign := x / 0x8000 % 2;
    var e := x / 0x400 % 32;
    var m := x % 0x400;
    ghost var k := x % 0x8000;
    HalfFields(x);

    if e == 31 {
      e := 255 - (127 - 15);
    } else if e == 0 {
      if m == 0 {
        e := 0 - (127 - 15);
        assert Mag32(0) == Value16(0) by { ZeroValues(); }
      } else {
        var ld := Ld32(m);
        SubnormalHalf(m, ld);
        var s := 10 - ld;
        m := Low(m * Pow2(s), 10);
        e := e - (s - 1);
      }
    } else {
      NormalHalf(e, m);
    }

    e := e + 127 - 15;
    JoinSingle(sign, e, m);
    w := Or(Or(sign * 0x8000_0000, e * 0x80_0000), m * 0x2000);
    SplitSingle(sign, e, m);
  }

  lemma HalfFields(x: U32)
    ensures x % 0x8000 == x / 0x400 % 32 * 0x400 + x % 0x400
  {
  }

  lemma ZeroValues()
    ensures Mag32(0) == Value16(0) == 0
  {
  }

  lemma JoinSingle(s: nat, e: nat, m: nat)
    requires s <= 1 && e < 256 && m < 1024
    ensures Or(Or(s * 0x8000_0000, e * 0x80_0000), m * 0x2000) == s * 0x8000_0000 + e * 0x80_0000 + m * 0x2000
  {
    hide Or;
    assert Pow2(31) == 0x8000_0000 && Pow2(23) == 0x80_0000 by { PowerFields(); }
    OrFields(s, e * 0x80_0000, 31);
    OrFields(s * 256 + e, m * 0x2000, 23);
  }

  lemma SplitSingle(s: nat, e: nat, m: nat)
    requires s <= 1 && e < 256 && m < 1024
    ensures var w := s * 0x8000_0000 + e * 0x80_0000 + m * 0x2000;
            w / 0x8000_0000 == s && w % 0x8000_0000 == e * 0x80_0000 + m * 0x2000 && w % 0x2000 == 0
  {
  }

  lemma NormalHalf(e: nat, m: nat)
    requires 1 <= e < 31 && m < 1024
    ensures Mag32((e + 112) * 0x80_0000 + m * 0x2000) == Value16(e * 1024 + m)
  {
    hide Pow2, Value16;
    var y, part := (e + 112) * 0x80_0000 + m * 0x2000, Pow2(e + 111);
    NormalValues(e, m);
    assert y / 0x80_0000 == e + 112 && y % 0x80_0000 == m * 0x2000;
    NormalParts(1024 + m, 0, part);
  }

  /** A subnormal half, shifted until its highest bit becomes the implicit one. */
  lemma SubnormalHalf(m: nat, ld: nat)
    requires 0 < m < 1024 && HighestBit(m, ld)
    ensures ld < 10
    ensures var shifted := Low(m * Pow2(10 - ld), 10);
            shifted < 1024 && Mag32((103 + ld) * 0x80_0000 + shifted * 0x2000) == Value16(m)
  {
    hide Pow2, Low;
    assert Pow2(10) == 1024 && Pow2(11) == 2048 && Pow2(13) == 0x2000 by { PowersSmall(); }
    if ld >= 10 {
      Pow2Monotone(10, ld);
    }
    var s := 10 - ld;
    var n := m * Pow2(s);
    Pow2Add(ld, s);
    Pow2Add(ld + 1, s);
    MulMonotone(Pow2(ld), m, Pow2(s));
    MulStrict(m, Pow2(ld + 1), Pow2(s));
    assert 1024 <= n < 2048;
    ShiftMask(n, 10);
    QuotientUnique(n, 1024, 1, n - 1024);
    var y := (103 + ld) * 0x80_0000 + (n - 1024) * 0x2000;
    assert y / 0x80_0000 == 103 + ld && y % 0x80_0000 == (n - 1024) * 0x2000;
    Pow2Add(13, 102 + ld);
    Pow2Add(s, 115 + ld);
    SubnormalProduct(m, Pow2(s), Pow2(102 + ld), 0x2000);
  }

  lemma PowersSmall()
    ensures Pow2(10) == 1024 && Pow2(11) == 2048 && Pow2(13) == 0x2000
  {
  }

  lemma SubnormalProduct(m: nat, a: nat, b: nat, c: nat)
    ensures m * a * c * b == m * (a * (c * b))
  {
  }

  /** Widening and narrowing gives back every one of the 65536 encodings: subnormals, zeros, infinities, NaN payloads. */
  method WidenNarrow(h: U16) returns (g: U16)
    ensures g == h
  {
    hide WidensTo, NarrowsTo, Carries;
    var w := Widen(h);
    g := Narrow(w);
    assert !Carries(w % 0x8000_0000) by { AlignedDoesNotCarry(w % 0x8000_0000); }
    SameMagnitude(h % 0x8000, w % 0x8000_0000, g % 0x8000);
  }

  lemma AlignedDoesNotCarry(y: nat)
    requires y % 0x2000 == 0
    ensures !Carries(y)
  {
  }

  lemma SameMagnitude(k: nat, y: nat, k': nat)
    requires k < 0x8000 && WidensTo(k, y) && NarrowsTo(y, k')
    ensures k' == k
  {
    hide RoundsTo, Mag32, Value16;
    if k < INF16 {
      RoundsExact(k, k');
    } else if k == INF16 {
      LargeRounds(INF32);
      RoundsUnique(Mag32(INF32), INF16, k');
    }
  }
}
