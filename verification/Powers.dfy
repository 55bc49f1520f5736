/** Powers of two and ten, shifts and masks of unsigned words, and the few facts about division they need. */
module Powers {

  function Pow2(k: nat): (p: nat)
    ensures p > 0
  {
    if k == 0 then 1 else 2 * Pow2(k - 1)
  }

  function Pow10(k: nat): (p: nat)
    ensures p > 0
  {
    if k == 0 then 1 else 10 * Pow10(k - 1)
  }

  lemma {:induction false} Pow2Add(a: nat, b: nat)
    ensures Pow2(a + b) == Pow2(a) * Pow2(b)
  {
    if a == 0 {
    } else {
      Pow2Add(a - 1, b);
      assert Pow2(a) * Pow2(b) == 2 * (Pow2(a - 1) * Pow2(b));
    }
  }

  lemma WordSizes()
    ensures Pow2(31) == 0x8000_0000 && Pow2(32) == 0x1_0000_0000
  {
    assert Pow2(4) == 16;
    Pow2Add(4, 4);
    Pow2Add(8, 8);
    Pow2Add(16, 16);
  }

  lemma {:induction false} Pow2Monotone(a: nat, b: nat)
    requires a <= b
    ensures Pow2(a) <= Pow2(b)
  {
    if a < b {
      Pow2Monotone(a, b - 1);
    }
  }

  lemma {:induction false} Pow10Add(a: nat, b: nat)
    ensures Pow10(a + b) == Pow10(a) * Pow10(b)
  {
    if a == 0 {
    } else {
      Pow10Add(a - 1, b);
      assert Pow10(a) * Pow10(b) == 10 * (Pow10(a - 1) * Pow10(b));
    }
  }

  lemma {:induction false} Pow10Monotone(a: nat, b: nat)
    requires a <= b
    ensures Pow10(a) <= Pow10(b)
  {
    if a < b {
      Pow10Monotone(a, b - 1);
    }
  }

  lemma MulMonotone(a: int, b: int, c: nat)
    requires a <= b
    ensures a * c <= b * c
  {
  }

  lemma MulStrict(a: int, b: int, c: int)
    requires a < b && 0 < c
    ensures a * c < b * c
  {
  }

  /** A quotient is the only number whose multiple leaves a remainder in range. */
  lemma QuotientUnique(n: int, d: int, q: int, r: int)
    requires 0 < d && 0 <= r < d && n == q * d + r
    ensures n / d == q && n % d == r
  {
    var e := n / d - q;
    assert n == (n / d) * d + n % d;
    assert e * d == r - n % d;
    assert e >= 1 ==> e * d >= d;
    assert e <= -1 ==> e * d <= -d;
  }

  /** The remainder by 10p keeps the last digit and takes the rest by p. */
  lemma ModTen(v: nat, p: nat)
    requires p > 0
    ensures v % (10 * p) == 10 * (v / 10 % p) + v % 10
  {
    var q, r := v / 10, v % 10;
    var a, b := q / p, q % p;
    assert q == a * p + b;
    assert v == 10 * (a * p + b) + r;
    assert 10 * (a * p) == a * (10 * p);
    QuotientUnique(v, 10 * p, a, 10 * b + r);
  }

  /** Whole multiples of the divisor come out of a quotient. */
  lemma DivAddMultiple(q: int, d: int, r: int)
    requires 0 < d
    ensures (q * d + r) / d == q + r / d
  {
    assert q * d + r == (q + r / d) * d + r % d;
    QuotientUnique(q * d + r, d, q + r / d, r % d);
  }

  /** A common factor cancels in a quotient. */
  lemma DivCancel(c: int, n: int, d: int)
    requires 0 < c && 0 < d
    ensures 0 < c * d && (c * n) / (c * d) == n / d
  {
    var q, r := n / d, n % d;
    assert n == q * d + r;
    assert c * n == q * (c * d) + c * r;
    assert 0 <= c * r < c * d;
    QuotientUnique(c * n, c * d, q, c * r);
  }

  lemma QuotientBound(a: nat, b: nat, d: nat)
    requires d > 0 && a < b * d
    ensures a / d < b
  {
    var q := a / d;
    assert a == q * d + a % d;
    assert q >= b ==> q * d >= b * d;
  }

  /** Splitting at a divisor bounds the quotient. */
  lemma DivModBound(a: nat, b: nat, d: nat)
    requires d > 0 && a < b * d
    ensures a == a / d * d + a % d && a / d < b && a % d < d
  {
    QuotientBound(a, b, d);
  }

  lemma SmallMod(x: nat, m: nat)
    requires x < m
    ensures x % m == x && x / m == 0
  {
    QuotientUnique(x, m, 0, x);
  }

  // ---- shifts and masks ----

  /** x >> b */
  function Shr(x: nat, b: nat): nat {
    if b == 0 then x else Shr(x / 2, b - 1)
  }

  /** x & ((1 << b) - 1): the low b bits, which is also what a b-bit word keeps of x. */
  function Low(x: nat, b: nat): nat {
    if b == 0 then 0 else 2 * Low(x / 2, b - 1) + x % 2
  }

  lemma {:induction false} ShiftMask(x: nat, b: nat)
    ensures x == Shr(x, b) * Pow2(b) + Low(x, b) && Low(x, b) < Pow2(b)
    ensures Shr(x, b) == x / Pow2(b) && Low(x, b) == x % Pow2(b)
  {
    if b == 0 {
    } else {
      var q, h := Shr(x / 2, b - 1), Pow2(b - 1);
      ShiftMask(x / 2, b - 1);
      assert 2 * (q * h) == q * (2 * h);
    }
    QuotientUnique(x, Pow2(b), Shr(x, b), Low(x, b));
  }

  lemma LowId(x: nat, b: nat)
    requires x < Pow2(b)
    ensures Low(x, b) == x && Shr(x, b) == 0
  {
    ShiftMask(x, b);
    SmallMod(x, Pow2(b));
  }

  /** Shifting a value below n * 2^b leaves a value below n. */
  lemma ShrBound(x: nat, n: nat, b: nat)
    requires x < n * Pow2(b)
    ensures Shr(x, b) < n
  {
    ShiftMask(x, b);
    QuotientBound(x, n, Pow2(b));
  }

  lemma {:induction false} ShrShr(x: nat, a: nat, b: nat)
    ensures Shr(Shr(x, a), b) == Shr(x, a + b)
  {
    if a == 0 {
    } else {
      ShrShr(x / 2, a - 1, b);
    }
  }
}
