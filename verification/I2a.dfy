/** The integer-to-ASCII printers of src/ecb.h: fixed-point digit generation by "times 5, shift the point". */
module I2a {
  import opened Powers
  import opened Decimal
  import opened Wrappers

  /** The parameters of one expansion of ecb_i2a_def: the word type, the bits behind the point,
      digitmask = 10^n (so n + 1 digits) and whether leading zeros are printed. */
  datatype Printer = Printer(width: nat, bits: nat, n: nat, lz: bool)

  const X5 := Printer(32, 26, 4, false)
  const X10 := Printer(64, 60, 9, false)
  const P2 := Printer(32, 10, 1, false)
  const P3 := Printer(32, 12, 2, false)
  const P4 := Printer(32, 26, 3, false)
  const P5 := Printer(64, 30, 4, false)
  const P6 := Printer(64, 36, 5, false)
  const P7 := Printer(64, 44, 6, false)
  const P8 := Printer(64, 50, 7, false)
  const P9 := Printer(64, 56, 8, false)

  /** The leading-zero version of a printer: 02..09 are made from 2..9. */
  function Zeros(p: Printer): Printer {
    p.(lz := true)
  }

  const MAX_X5 := 59074
  const MAX_X10 := 2932500665

  /** All digits fit behind the point, and five times a fraction fits the word. */
  ghost predicate WellFormed(p: Printer) {
    p.n + 1 <= p.bits && p.bits + 3 <= p.width
  }

  /** The scale factor (2^bits - 1 + 10^n) / 10^n, that is, 2^bits / 10^n rounded up. */
  function Scale(p: Printer): nat {
    (Pow2(p.bits) - 1 + Pow10(p.n)) / Pow10(p.n)
  }

  /** What rounding the scale factor up adds, for u = 1, in units of 2^-bits. */
  function Excess(p: Printer): int {
    Scale(p) * Pow10(p.n) - Pow2(p.bits)
  }

  // ---- what the macros compute ----

  /** The k digits peeled from x, the point standing b bits up; a digit is stored in a char. */
  function Peel(width: nat, x: nat, b: nat, k: nat): (ds: seq<Byte>)
    requires k <= b
    ensures |ds| == k
    decreases k
  {
    if k == 0 then []
    else [Shr(x, b) % 256] + Peel(width, Low(Low(x, b) * 5, width), b - 1, k - 1)
  }

  /** The characters that stay in the buffer: leading zeros are overwritten, the last digit never. */
  function Emit(ds: seq<Byte>, nz: bool): (s: seq<Byte>)
    ensures ds != [] ==> 1 <= |s| <= |ds|
    ensures ds == [] ==> s == []
    ensures nz ==> |s| == |ds|
  {
    if ds == [] then []
    else if |ds| == 1 || nz || ds[0] != 0 then [(ds[0] + ZERO) % 256] + Emit(ds[1..], true)
    else Emit(ds[1..], false)
  }

  /** Everything a printer outputs for u. */
  function Output(p: Printer, u: U32): (s: seq<Byte>)
    requires p.n + 1 <= p.bits
    ensures 1 <= |s| <= p.n + 1
    ensures p.lz ==> |s| == p.n + 1
  {
    Emit(Peel(p.width, Low(u * Scale(p), p.width), p.bits, p.n + 1), p.lz)
  }

  // ---- the generic digit-generation theorem ----

  /** k decimal digits of v, as numbers. */
  function Digits(v: nat, k: nat): (ds: seq<Byte>)
    ensures |ds| == k && forall i :: 0 <= i < k ==> ds[i] < 10
  {
    if k == 0 then [] else Digits(v / 10, k - 1) + [v % 10]
  }

  lemma {:induction false} DigitsCons(q: nat, r: nat, k: nat)
    requires q < 10 && r < Pow10(k)
    ensures Digits(q * Pow10(k) + r, k + 1) == [q] + Digits(r, k)
    decreases k
  {
    var v := q * Pow10(k) + r;
    assert Digits(v, k + 1) == Digits(v / 10, k) + [v % 10];
    if k == 0 {
      assert v == q;
    } else {
      assert Digits(r, k) == Digits(r / 10, k - 1) + [r % 10];
      assert Pow10(k) == 10 * Pow10(k - 1);
      hide Digits, Pow10;
      DropDigit(q, r, Pow10(k - 1));
      DigitsCons(q, r / 10, k - 1);
      assert [q] + Digits(r / 10, k - 1) + [r % 10] == [q] + Digits(r, k);
    }
  }

  lemma DropDigit(q: nat, r: nat, t: nat)
    requires r < 10 * t
    ensures (q * (10 * t) + r) / 10 == q * t + r / 10 && (q * (10 * t) + r) % 10 == r % 10 && r / 10 < t
  {
    assert q * (10 * t) + r == (q * t + r / 10) * 10 + r % 10;
    QuotientUnique(q * (10 * t) + r, 10, q * t + r / 10, r % 10);
  }

  /** One digit down, one bit down: the arithmetic of a single step, r being the fraction behind the point. */
  lemma StepValue(x: nat, b: nat, t: nat, ten: nat)
    requires 1 <= b && ten == 10 * t
    ensures Shr(x * ten, b) == Shr(x, b) * ten + Shr(Low(x, b) * 5 * t, b - 1)
  {
    hide Shr, Low;
    var q, r, half := Shr(x, b), Low(x, b), Pow2(b - 1);
    var y := r * 5 * t;
    ShiftMask(x, b);
    ShiftMask(x * ten, b);
    ShiftMask(y, b - 1);
    StepProduct(q, r, half, t);
    DivAddMultiple(q * ten, 2 * half, 2 * y);
    DivCancel(2, y, half);
  }

  lemma StepProduct(q: nat, r: nat, half: nat, t: nat)
    ensures (q * (2 * half) + r) * (10 * t) == q * (10 * t) * (2 * half) + 2 * (r * 5 * t)
  {
    assert q * (2 * half) * (10 * t) == q * (10 * t) * (2 * half);
  }

  /** Less than n units before scaling by t is less than n * t units after it. */
  lemma ScaledBound(x: nat, n: nat, b: nat, t: nat)
    requires t > 0 && x < n * Pow2(b)
    ensures Shr(x * t, b) < n * t
  {
    hide Shr, Pow2;
    MulStrict(x, n * Pow2(b), t);
    assert n * Pow2(b) * t == n * t * Pow2(b);
    ShrBound(x * t, n * t, b);
  }

  /** Five times a fraction below 2^b fits every word of at least b + 3 bits. */
  lemma FiveFits(width: nat, b: nat, y: nat)
    requires b + 3 <= width && y < 5 * Pow2(b)
    ensures Low(y, width) == y
  {
    hide Low;
    Pow2Monotone(b + 3, width);
    assert Pow2(b + 3) == 2 * Pow2(b + 2) == 4 * Pow2(b + 1) == 8 * Pow2(b);
    LowId(y, width);
  }

  /** Peeling yields the decimal digits of the scaled-up fixed-point number, however many bits are in use. */
  lemma {:induction false} PeelDigits(width: nat, x: nat, b: nat, k: nat)
    requires 1 <= k <= b && b + 3 <= width && x < 10 * Pow2(b)
    ensures Peel(width, x, b, k) == Digits(Shr(x * Pow10(k - 1), b), k)
    decreases k
  {
    hide Peel, Shr, Low, Digits;
    PeelCons(width, x, b, k);
    if k == 1 {
      LastDigit(Shr(x, b));
      assert x * 1 == x && Peel(width, Low(x, b) * 5, b - 1, 0) == [];
    } else {
      var y, t := Low(x, b) * 5, Pow10(k - 2);
      ShiftMask(x, b);
      StepValue(x, b, t, Pow10(k - 1));
      ScaledBound(y, 10, b - 1, t);
      PeelDigits(width, y, b - 1, k - 1);
      DigitsCons(Shr(x, b), Shr(y * t, b - 1), k - 1);
    }
  }

  /** One peeled digit, when nothing overflows. */
  lemma PeelCons(width: nat, x: nat, b: nat, k: nat)
    requires 1 <= k <= b && b + 3 <= width && x < 10 * Pow2(b)
    ensures Shr(x, b) < 10
    ensures Peel(width, x, b, k) == [Shr(x, b)] + Peel(width, Low(x, b) * 5, b - 1, k - 1)
  {
    hide Shr, Low, Pow2;
    ShrBound(x, 10, b);
    ShiftMask(x, b);
    FiveFits(width, b, Low(x, b) * 5);
  }

  lemma LastDigit(q: nat)
    requires q < 10
    ensures Digits(q, 1) == [q]
  {
    assert Digits(q, 1) == Digits(q / 10, 0) + [q];
  }

  lemma {:induction false} EmitPadded(v: nat, k: nat)
    ensures Emit(Digits(v, k), true) == Padded(v, k)
  {
    if k == 0 {
    } else {
      EmitPadded(v / 10, k - 1);
      EmitAppend(Digits(v / 10, k - 1), v % 10);
    }
  }

  lemma {:induction false} EmitAppend(ds: seq<Byte>, d: Byte)
    requires d < 10
    ensures Emit(ds + [d], true) == Emit(ds, true) + [ZERO + d]
  {
    if ds == [] {
    } else {
      EmitAppend(ds[1..], d);
      assert (ds + [d])[1..] == ds[1..] + [d];
    }
  }

  /** Suppressing the leading zeros of the k digits of v leaves its canonical numeral. */
  lemma {:induction false} EmitNumeral(v: nat, k: nat)
    requires k >= 1 && v < Pow10(k)
    ensures Emit(Digits(v, k), false) == Numeral(v)
    decreases k
  {
    hide Digits, Numeral;
    if k == 1 {
      LastDigit(v);
      assert Numeral(v) == [ZERO + v] by {
        SingleDigit(v);
      }
    } else {
      var t := Pow10(k - 1);
      DivModBound(v, 10, t);
      EmitSplit(v, v / t, v % t, k - 1);
      if v / t == 0 {
        EmitNumeral(v, k - 1);
      }
    }
  }

  lemma SingleDigit(v: nat)
    requires v < 10
    ensures Numeral(v) == [ZERO + v]
  {
  }

  /** The first of k + 1 digits: suppressed if zero, kept with everything behind it otherwise. */
  lemma EmitSplit(v: nat, q: nat, r: nat, k: nat)
    requires k >= 1 && v == q * Pow10(k) + r && q < 10 && r < Pow10(k)
    ensures Emit(Digits(v, k + 1), false) == if q == 0 then Emit(Digits(v, k), false) else Numeral(v)
  {
    hide Pow10, Digits, Padded;
    DigitsCons(q, r, k);
    assert Digits(v, k + 1)[0] == q && Digits(v, k + 1)[1..] == Digits(r, k);
    if q == 0 {
      assert v == r;
    } else {
      EmitPadded(r, k);
      NumeralSplit(q, r, k);
    }
  }

  /** The number a printer prints instead of u, when no word overflows. */
  function Printed(p: Printer, u: U32): nat {
    ExcessBound(p);
    u + Shr(u * Excess(p), p.bits)
  }

  lemma ExcessBound(p: Printer)
    ensures 0 <= Excess(p) < Pow10(p.n)
  {
    var a, t := Pow2(p.bits) - 1 + Pow10(p.n), Pow10(p.n);
    assert a == a / t * t + a % t;
  }

  lemma ScaledProduct(p: Printer, u: U32)
    ensures 0 <= u * Excess(p)
    ensures Shr(u * Scale(p) * Pow10(p.n), p.bits) == Printed(p, u)
  {
    hide Shr, Pow2, Pow10, Scale, Excess;
    ExcessBound(p);
    var e := u * Excess(p);
    ExcessIs(p);
    ProductExpand(u, Scale(p), Pow10(p.n), Pow2(p.bits), Excess(p));
    ShiftMask(e, p.bits);
    ShiftMask(u * Scale(p) * Pow10(p.n), p.bits);
    DivAddMultiple(u, Pow2(p.bits), e);
  }

  lemma ExcessIs(p: Printer)
    ensures Scale(p) * Pow10(p.n) == Pow2(p.bits) + Excess(p)
  {
  }

  lemma ProductExpand(u: nat, s: nat, t: nat, d: nat, e: nat)
    requires s * t == d + e
    ensures 0 <= u * e && u * s * t == u * d + u * e
  {
    assert u * s * t == u * (s * t) == u * (d + e);
  }

  /** What every printer outputs, for every input whose product fits the word and whose first digit is below ten:
      the digits of u plus the accumulated rounding of the scale factor. */
  lemma PrinterOutput(p: Printer, u: U32)
    requires WellFormed(p) && u * Scale(p) < Pow2(p.width) && u * Scale(p) < 10 * Pow2(p.bits)
    ensures Printed(p, u) < Pow10(p.n + 1)
    ensures Output(p, u) == if p.lz then Padded(Printed(p, u), p.n + 1) else Numeral(Printed(p, u))
  {
    hide Peel, Shr, Low, Digits, Scale, Pow2, Printed, Numeral, Padded, Emit;
    var x := u * Scale(p);
    LowId(x, p.width);
    PeelDigits(p.width, x, p.bits, p.n + 1);
    ScaledProduct(p, u);
    ScaledBound(x, 10, p.bits, Pow10(p.n));
    if p.lz {
      EmitPadded(Printed(p, u), p.n + 1);
    } else {
      EmitNumeral(Printed(p, u), p.n + 1);
    }
  }

  /** The exact error bound: the printed number is u iff u times the excess stays below one unit. */
  lemma PrintedExact(p: Printer, u: U32)
    ensures Printed(p, u) == u <==> u * Excess(p) < Pow2(p.bits)
  {
    hide Shr, Pow2, Excess;
    ExcessBound(p);
    var e, d := u * Excess(p), Pow2(p.bits);
    ShiftMask(e, p.bits);
    if e < d {
      SmallMod(e, d);
    } else {
      assert Shr(e, p.bits) != 0;
    }
  }

  // ---- the generated functions ----

  /** What a printer is meant to print: the shortest numeral, or exactly n + 1 digits. */
  function Text(p: Printer, u: nat): (s: seq<Byte>) {
    if p.lz then Padded(u, p.n + 1) else Numeral(u)
  }

  /** Up to limit nothing overflows, the first digit is a digit and the error stays below one unit. */
  predicate Covers(p: Printer, limit: nat) {
    && p.n + 1 <= p.bits && p.bits + 3 <= p.width
    && limit * Scale(p) < Pow2(p.width)
    && limit * Scale(p) < 10 * Pow2(p.bits)
    && limit * Excess(p) < Pow2(p.bits)
  }

  lemma ExactUpTo(p: Printer, limit: nat, u: U32)
    requires Covers(p, limit) && u <= limit
    ensures Output(p, u) == Text(p, u) && u < Pow10(p.n + 1)
  {
    ExcessBound(p);
    MulMonotone(u, limit, Scale(p));
    MulMonotone(u, limit, Excess(p));
    PrinterOutput(p, u);
    PrintedExact(p, u);
  }

  /** A string of at most n + 1 characters is too short for the numeral of a larger number. */
  lemma TooLong(p: Printer, u: U32)
    requires p.n + 1 <= p.bits && Pow10(p.n + 1) <= u
    ensures Output(p, u) != Numeral(u)
    ensures AllDigits(Output(p, u)) ==> Parse(Output(p, u)) != u
  {
    NumeralLength(u, p.n + 1);
    if AllDigits(Output(p, u)) {
      ParseBound(Output(p, u));
      Pow10Monotone(|Output(p, u)|, p.n + 1);
    }
  }

  ghost predicate FullRange(p: Printer) {
    p.(lz := false) in {P2, P3, P4, P5, P6, P7, P8, P9}
  }

  lemma PowerConstants()
    ensures Pow2(10) == 1024 && Pow2(12) == 4096 && Pow2(26) == 67108864 && Pow2(30) == 1073741824
    ensures Pow2(32) == 4294967296 && Pow2(36) == 68719476736 && Pow2(44) == 17592186044416
    ensures Pow2(50) == 1125899906842624 && Pow2(56) == 72057594037927936 && Pow2(60) == 1152921504606846976
    ensures Pow2(64) == 18446744073709551616
    ensures Pow10(1) == 10 && Pow10(2) == 100 && Pow10(3) == 1000 && Pow10(4) == 10000 && Pow10(5) == 100000
    ensures Pow10(6) == 1000000 && Pow10(7) == 10000000 && Pow10(8) == 100000000 && Pow10(9) == 1000000000
    ensures Pow10(10) == 10000000000
  {
  }

  /** The constants the macros are expanded with, and the excess each rounded scale factor carries. */
  lemma ScaleConstants()
    ensures Scale(X5) == 6711 && Excess(X5) == 1136
    ensures Scale(X10) == 1152921505 && Excess(X10) == 393153024
    ensures Scale(P2) == 103 && Excess(P2) == 6
    ensures Scale(P3) == 41 && Excess(P3) == 4
    ensures Scale(P4) == 67109 && Excess(P4) == 136
    ensures Scale(P5) == 107375 && Excess(P5) == 8176
    ensures Scale(P6) == 687195 && Excess(P6) == 23264
    ensures Scale(P7) == 17592187 && Excess(P7) == 955584
    ensures Scale(P8) == 112589991 && Excess(P8) == 3157376
    ensures Scale(P9) == 720575941 && Excess(P9) == 62072064
  {
    PowerConstants();
    ScaleIs(X5, 67108864, 10000, 6711);
    ScaleIs(X10, 1152921504606846976, 1000000000, 1152921505);
    ScaleIs(P2, 1024, 10, 103);
    ScaleIs(P3, 4096, 100, 41);
    ScaleIs(P4, 67108864, 1000, 67109);
    ScaleIs(P5, 1073741824, 10000, 107375);
    ScaleIs(P6, 68719476736, 100000, 687195);
    ScaleIs(P7, 17592186044416, 1000000, 17592187);
    ScaleIs(P8, 1125899906842624, 10000000, 112589991);
    ScaleIs(P9, 72057594037927936, 100000000, 720575941);
  }

  lemma ScaleIs(p: Printer, two: nat, ten: nat, scale: nat)
    requires Pow2(p.bits) == two && Pow10(p.n) == ten && 0 <= scale * ten - two < ten
    ensures Scale(p) == scale && Excess(p) == scale * ten - two
  {
    QuotientUnique(two - 1 + ten, ten, scale, two - 1 + ten - scale * ten);
  }

  lemma FullRangeCovers(p: Printer)
    requires FullRange(p)
    ensures Covers(p, Pow10(p.n + 1) - 1)
  {
    PowerConstants();
    ScaleConstants();
    var q := p.(lz := false);
    assert Scale(p) == Scale(q) && Excess(p) == Excess(q);
    assert Covers(P2, 99) && Covers(P3, 999) && Covers(P4, 9999) && Covers(P5, 99999);
    assert Covers(P6, 999999) && Covers(P7, 9999999) && Covers(P8, 99999999) && Covers(P9, 999999999);
  }

  /** The sixteen printers 2..9 and 02..09 print their argument iff it has at most that many digits. */
  lemma FullRangeExact(p: Printer, u: U32)
    requires FullRange(p)
    ensures p.n + 1 <= p.bits
    ensures !p.lz ==> (Output(p, u) == Numeral(u) <==> u < Pow10(p.n + 1))
    ensures p.lz ==> (AllDigits(Output(p, u)) && Parse(Output(p, u)) == u <==> u < Pow10(p.n + 1))
    ensures u < Pow10(p.n + 1) ==> Output(p, u) == Text(p, u)
  {
    hide Pow10, Output, Numeral, Padded, Parse, Scale, Excess, FullRange;
    FullRangeCovers(p);
    if u < Pow10(p.n + 1) {
      ExactUpTo(p, Pow10(p.n + 1) - 1, u);
      PaddedExact(p, u);
    } else {
      TooLong(p, u);
    }
  }

  lemma PaddedExact(p: Printer, u: nat)
    requires u < Pow10(p.n + 1)
    ensures p.lz ==> AllDigits(Text(p, u)) && Parse(Text(p, u)) == u
  {
    PaddedParse(u, p.n + 1);
    SmallMod(u, Pow10(p.n + 1));
  }

  /** 59074 is the greatest bound for x5: among all 32-bit inputs it prints exactly those up to it. */
  lemma X5Exact(u: U32)
    ensures Output(X5, u) == Numeral(u) <==> u <= MAX_X5
  {
    PowerConstants();
    ScaleConstants();
    if u <= MAX_X5 {
      ExactUpTo(X5, MAX_X5, u);
    } else if u < 99999 {
      Overshoot(X5, 99998, u);
    } else if u == 99999 {
      X5FirstDigitTen();
      NumeralCanonical(u);
    } else {
      TooLong(X5, u);
    }
  }

  /** For the last five-digit number the first "digit" is ten, and the character is not a digit. */
  lemma X5FirstDigitTen()
    ensures Output(X5, 99999)[0] == ZERO + 10
  {
    hide Shr, Low, Numeral, Scale;
    PowerConstants();
    ScaleConstants();
    QuotientUnique(671093289, 67108864, 10, 4649);
    ShiftMask(671093289, 26);
    LowId(671093289, 32);
    assert Peel(32, 671093289, 26, 5)[0] == 10;
  }

  /** 2932500665 is the greatest bound for x10: among all 32-bit inputs it prints exactly those up to it. */
  lemma X10Exact(u: U32)
    ensures Output(X10, u) == Numeral(u) <==> u <= MAX_X10
  {
    PowerConstants();
    ScaleConstants();
    if u <= MAX_X10 {
      ExactUpTo(X10, MAX_X10, u);
    } else {
      Overshoot(X10, 0xffff_ffff, u);
    }
  }

  /** Past the error bound the printer prints another number. */
  lemma Overshoot(p: Printer, limit: nat, u: U32)
    requires WellFormed(p) && !p.lz && u <= limit
    requires limit * Scale(p) < Pow2(p.width) && limit * Scale(p) < 10 * Pow2(p.bits)
    requires u * Excess(p) >= Pow2(p.bits)
    ensures Output(p, u) != Numeral(u)
  {
    MulMonotone(u, limit, Scale(p));
    PrinterOutput(p, u);
    PrintedExact(p, u);
    NumeralCanonical(u);
    NumeralCanonical(Printed(p, u));
  }
}
