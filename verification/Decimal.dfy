/** Decimal numerals as byte strings: the reference the integer printers of src/ecb.h are compared with. */
module Decimal {
  import opened Powers

  type Byte = b: int | 0 <= b < 256

  const ZERO: Byte := 48   // '0'
  const MINUS: Byte := 45  // '-'

  /** The shortest numeral of v, most significant digit first. */
  function Numeral(v: nat): (s: seq<Byte>)
    ensures |s| >= 1
  {
    if v < 10 then [ZERO + v] else Numeral(v / 10) + [ZERO + v % 10]
  }

  /** Exactly k digits of v, leading zeros included. */
  function Padded(v: nat, k: nat): (s: seq<Byte>)
    ensures |s| == k
  {
    if k == 0 then [] else Padded(v / 10, k - 1) + [ZERO + v % 10]
  }

  function Signed(v: int): (s: seq<Byte>) {
    if v < 0 then [MINUS] + Numeral(-v) else Numeral(v)
  }

  ghost predicate AllDigits(s: seq<Byte>) {
    forall i :: 0 <= i < |s| ==> ZERO <= s[i] <= ZERO + 9
  }

  /** The number a digit string denotes. */
  function Parse(s: seq<Byte>): int {
    if s == [] then 0 else 10 * Parse(s[..|s| - 1]) + (s[|s| - 1] - ZERO)
  }

  function ParseSigned(s: seq<Byte>): int {
    if s != [] && s[0] == MINUS then -Parse(s[1..]) else Parse(s)
  }

  /** A numeral in canonical form: digits only, and no leading zero unless it is the only digit. */
  ghost predicate Canonical(s: seq<Byte>) {
    s != [] && AllDigits(s) && (|s| > 1 ==> s[0] != ZERO)
  }

  lemma {:induction false} NumeralCanonical(v: nat)
    ensures Canonical(Numeral(v)) && Parse(Numeral(v)) == v
    ensures v > 0 ==> Numeral(v)[0] != ZERO
  {
    if v >= 10 {
      NumeralCanonical(v / 10);
      assert Numeral(v)[..|Numeral(v)| - 1] == Numeral(v / 10);
    }
  }

  /** As characters: an ASCII minus sign exactly for a negative number, and then digits from '0' to '9'; the numeral of a
      digit is that digit. */
  lemma SignedIsAscii(v: int)
    ensures v < 0 <==> Signed(v)[0] == '-' as int
    ensures forall i :: 0 <= i < |Signed(v)| ==>
              '0' as int <= Signed(v)[i] <= '9' as int || (i == 0 && v < 0 && Signed(v)[i] == '-' as int)
    ensures 0 <= v < 10 ==> Signed(v) == ["0123456789"[v] as int]
  {
    NumeralCanonical(if v < 0 then -v else v);
    if 0 <= v < 10 {
      assert Numeral(v) == [ZERO + v];
    }
  }

  /** Reading a signed numeral back gives the number, for every integer. */
  lemma SignedRoundTrip(v: int)
    ensures ParseSigned(Signed(v)) == v
  {
    NumeralCanonical(if v < 0 then -v else v);
    if v < 0 {
      assert Signed(v)[1..] == Numeral(-v);
    }
  }

  lemma {:induction false} ParseBound(s: seq<Byte>)
    requires AllDigits(s)
    ensures 0 <= Parse(s) < Pow10(|s|)
    ensures s != [] && s[0] != ZERO ==> Parse(s) >= Pow10(|s| - 1)
  {
    if s == [] {
    } else {
      ParseBound(s[..|s| - 1]);
      if |s| == 1 {
        assert s[..0] == [];
      }
    }
  }

  /** The canonical numeral of a number is unique. */
  lemma {:induction false} CanonicalUnique(s: seq<Byte>)
    requires Canonical(s)
    ensures Parse(s) >= 0 && s == Numeral(Parse(s))
  {
    ParseBound(s);
    var t, d := s[..|s| - 1], s[|s| - 1] - ZERO;
    assert s == t + [ZERO + d];
    if |s| == 1 {
      assert t == [];
    } else {
      ParseBound(t);
      assert Parse(t) >= Pow10(|t| - 1) >= 1;
      CanonicalUnique(t);
      assert Parse(s) / 10 == Parse(t) && Parse(s) % 10 == d;
    }
  }

  lemma {:induction false} PaddedParse(v: nat, k: nat)
    ensures AllDigits(Padded(v, k)) && Parse(Padded(v, k)) == v % Pow10(k)
  {
    if k == 0 {
      assert v % 1 == 0;
    } else {
      PaddedParse(v / 10, k - 1);
      assert Padded(v, k)[..k - 1] == Padded(v / 10, k - 1);
      ModTen(v, Pow10(k - 1));
    }
  }

  /** A numeral has at most k digits iff the number is below 10^k. */
  lemma {:induction false} NumeralLength(v: nat, k: nat)
    requires k >= 1
    ensures |Numeral(v)| <= k <==> v < Pow10(k)
  {
    assert Pow10(k) == 10 * Pow10(k - 1);
    if k == 1 {
      assert Pow10(0) == 1;
    } else if v >= 10 {
      NumeralLength(v / 10, k - 1);
      assert v / 10 < Pow10(k - 1) <==> v < 10 * Pow10(k - 1);
    } else {
      Pow10Monotone(1, k);
      assert Pow10(1) == 10;
    }
  }

  /** Splitting a number at a power of ten splits its numeral. */
  lemma {:induction false} NumeralSplit(q: nat, r: nat, k: nat)
    requires q > 0 && r < Pow10(k)
    ensures Numeral(q * Pow10(k) + r) == Numeral(q) + Padded(r, k)
    decreases k
  {
    if k == 0 {
      assert r == 0 && Numeral(q) + [] == Numeral(q);
    } else {
      var v := q * Pow10(k) + r;
      assert v == (q * Pow10(k - 1) + r / 10) * 10 + r % 10;
      QuotientUnique(v, 10, q * Pow10(k - 1) + r / 10, r % 10);
      assert v >= 10 by {
        assert q * Pow10(k - 1) >= 1;
      }
      NumeralSplit(q, r / 10, k - 1);
      assert Numeral(q) + Padded(r / 10, k - 1) + [ZERO + r % 10] == Numeral(q) + Padded(r, k);
    }
  }
}
