/** The printers of src/ecb.h as they run: a buffer, an advancing pointer, scratch bytes that are overwritten. */
module Printers {
  import opened Powers
  import opened Decimal
  import opened I2a
  import opened Wrappers

  const I32_DIGITS := 11
  const U32_DIGITS := 10
  const I64_DIGITS := 20
  const U64_DIGITS := 21

  /** The buffer b after writing s at ptr; every byte outside [ptr, ptr + |s|) is as it was. */
  function Splice(b: seq<Byte>, ptr: nat, s: seq<Byte>): (r: seq<Byte>)
    requires ptr + |s| <= |b|
    ensures |r| == |b|
  {
    b[..ptr] + s + b[ptr + |s|..]
  }

  lemma SpliceSplice(b: seq<Byte>, ptr: nat, s: seq<Byte>, t: seq<Byte>)
    requires ptr + |s| + |t| <= |b|
    ensures Splice(Splice(b, ptr, s), ptr + |s|, t) == Splice(b, ptr, s + t)
  {
  }

  // ---- ecb_i2a_digit and ecb_i2a_def ----

  /** One expansion of ecb_i2a_digit, digitidx running; last says digitmask == maskvalue. */
  method Digit(buf: array<Byte>, ptr: nat, width: nat, b: nat, x: nat, nz: bool, last: bool)
    returns (ptr': nat, x': nat, nz': bool)
    requires ptr < buf.Length
    modifies buf
    ensures buf[..] == old(buf[..])[ptr := (Shr(x, b) % 256 + ZERO) % 256]
    ensures nz' == (last || nz || Shr(x, b) % 256 != 0)
    ensures ptr' == if nz' then ptr + 1 else ptr
    ensures x' == Low(Low(x, b) * 5, width)
  {
    var digit: Byte := Shr(x, b) % 256;
    buf[ptr] := (digit + ZERO) % 256;
    nz' := last || nz || digit != 0;
    ptr' := if nz' then ptr + 1 else ptr;
    x' := Low(Low(x, b) * 5, width);
  }

  /** A generated function. It needs room for its output only: the zeros it suppresses are written inside it. */
  method Print(p: Printer, buf: array<Byte>, ptr: nat, u: U32) returns (end: nat)
    requires p.n + 1 <= p.bits
    requires ptr + |Output(p, u)| <= buf.Length
    modifies buf
    ensures end == ptr + |Output(p, u)|
    ensures buf[..] == Splice(old(buf[..]), ptr, Output(p, u))
  {
    var nz := p.lz;
    var x := Low(u * Scale(p), p.width);
    end := ptr;
    ghost var out, before := Output(p, u), buf[..];
    assert out == Rest(p, x, 0, nz);
    hide Output, Rest, Shr, Low, Scale, Splice;
    // the macro's guard digitmask >= maskvalue keeps the digits 0..n
    var digitidx := 0;
    while digitidx <= p.n
      invariant digitidx <= p.n + 1
      invariant ptr <= end <= ptr + |out| && |buf[..]| == |before|
      invariant out == buf[ptr..end] + Rest(p, x, digitidx, nz)
      invariant buf[..ptr] == before[..ptr]
      invariant buf[ptr + |out|..] == before[ptr + |out|..]
    {
      RestCons(p, x, digitidx, nz);
      ghost var was, at, rest := buf[..], end, Rest(p, x, digitidx, nz);
      end, x, nz := Digit(buf, end, p.width, p.bits - digitidx, x, nz, digitidx == p.n);
      digitidx := digitidx + 1;
      AfterDigit(was, ptr, at, buf[at], out, rest, Rest(p, x, digitidx, nz), nz);
    }
    SpliceIs(before, buf[..], ptr, out);
  }

  lemma SpliceIs(before: seq<Byte>, now: seq<Byte>, ptr: nat, s: seq<Byte>)
    requires ptr + |s| <= |before| == |now|
    requires now[..ptr] == before[..ptr] && now[ptr..ptr + |s|] == s && now[ptr + |s|..] == before[ptr + |s|..]
    ensures now == Splice(before, ptr, s)
  {
  }

  /** Writing one character at the pointer keeps the output prefix and everything outside the output. */
  lemma AfterDigit(was: seq<Byte>, ptr: nat, end: nat, c: Byte, out: seq<Byte>, rest: seq<Byte>, rest': seq<Byte>,
                   nz: bool)
    requires ptr <= end < ptr + |out| <= |was|
    requires out == was[ptr..end] + rest
    requires rest == if nz then [c] + rest' else rest'
    ensures var now, next := was[end := c], if nz then end + 1 else end;
            && now[..ptr] == was[..ptr] && now[ptr + |out|..] == was[ptr + |out|..]
            && next <= ptr + |out| && out == now[ptr..next] + rest'
  {
    var now := was[end := c];
    assert now[ptr..end] == was[ptr..end];
    if nz {
      assert now[ptr..end + 1] == was[ptr..end] + [c];
      assert was[ptr..end] + rest == was[ptr..end] + [c] + rest';
    }
  }

  /** What the digits from idx on will still emit. */
  ghost function Rest(p: Printer, x: nat, idx: nat, nz: bool): (s: seq<Byte>)
    requires idx <= p.n + 1 <= p.bits
    ensures idx == p.n + 1 ==> s == []
  {
    Emit(Peel(p.width, x, p.bits - idx, p.n + 1 - idx), nz)
  }

  lemma RestCons(p: Printer, x: nat, idx: nat, nz: bool)
    requires idx <= p.n && p.n + 1 <= p.bits
    ensures Rest(p, x, idx, nz) != []
    ensures var b := p.bits - idx;
            var nz' := idx == p.n || nz || Shr(x, b) % 256 != 0;
            var rest := Rest(p, Low(Low(x, b) * 5, p.width), idx + 1, nz');
            Rest(p, x, idx, nz) == if nz' then [(Shr(x, b) % 256 + ZERO) % 256] + rest else rest
  {
    var ds := Peel(p.width, x, p.bits - idx, p.n + 1 - idx);
    assert ds[1..] == Peel(p.width, Low(Low(x, p.bits - idx) * 5, p.width), p.bits - idx - 1, p.n - idx);
  }

  // ---- the composite printers, 64-bit build ----

  /** Splitting off nine digits twice covers every 64-bit number. */
  lemma SplitNine(u: nat)
    ensures u == u / 1000000000 * 1000000000 + u % 1000000000
    ensures u / 1000000000 > 0 ==>
              Numeral(u) == Numeral(u / 1000000000) + Padded(u % 1000000000, 9)
    ensures u / 1000000000 / 1000000000 > 0 ==>
              Numeral(u) == Numeral(u / 1000000000 / 1000000000)
                            + (Padded(u / 1000000000 % 1000000000, 9) + Padded(u % 1000000000, 9))
  {
    hide Numeral, Padded;
    PowerConstants();
    var ua := u / 1000000000;
    if ua > 0 {
      NumeralSplit(ua, u % 1000000000, 9);
    }
    if ua / 1000000000 > 0 {
      NumeralSplit(ua / 1000000000, ua % 1000000000, 9);
    }
  }

  lemma NineDigits(u: U32)
    requires u < 1000000000
    ensures Output(Zeros(P9), u) == Padded(u, 9)
  {
    PowerConstants();
    FullRangeExact(Zeros(P9), u);
  }

  lemma TwoDigits(u: U32)
    requires u < 100
    ensures Output(P2, u) == Numeral(u)
  {
    PowerConstants();
    FullRangeExact(P2, u);
  }

  /** The middle branch of ecb_i2a_u64 and ecb_i2a_i64. */
  method TenAndNine(buf: array<Byte>, ptr0: nat, u: U64) returns (ptr: nat)
    requires MAX_X10 < u <= MAX_X10 * 1000000000
    requires ptr0 + |Numeral(u)| <= buf.Length
    modifies buf
    ensures ptr == ptr0 + |Numeral(u)|
    ensures buf[..] == Splice(old(buf[..]), ptr0, Numeral(u))
  {
    hide Output, Numeral, Padded, Splice, Pow10;
    SplitNine(u);
    var u1 := u % 1000000000;
    var u2 := u / 1000000000;
    X10Exact(u2);
    NineDigits(u1);
    ptr := Print(X10, buf, ptr0, u2);
    ptr := Print(Zeros(P9), buf, ptr, u1);
    SpliceSplice(old(buf[..]), ptr0, Numeral(u2), Padded(u1, 9));
  }

  /** The two trailing groups of nine digits in the last branch of ecb_i2a_u64 and ecb_i2a_i64. */
  method Eighteen(buf: array<Byte>, ptr0: nat, u2: U32, u1: U32) returns (ptr: nat)
    requires u2 < 1000000000 && u1 < 1000000000 && ptr0 + 18 <= buf.Length
    modifies buf
    ensures ptr == ptr0 + 18
    ensures buf[..] == Splice(old(buf[..]), ptr0, Padded(u2, 9) + Padded(u1, 9))
  {
    hide Output, Padded, Splice, Pow10;
    NineDigits(u2);
    NineDigits(u1);
    ptr := Print(Zeros(P9), buf, ptr0, u2);
    ptr := Print(Zeros(P9), buf, ptr, u1);
    SpliceSplice(old(buf[..]), ptr0, Padded(u2, 9), Padded(u1, 9));
  }

  /** ecb_i2a_u64 on a 64-bit build: the canonical numeral of every 64-bit number, and nothing else touched. */
  method U64Native(buf: array<Byte>, ptr0: nat, u: U64) returns (ptr: nat)
    requires ptr0 + |Numeral(u)| <= buf.Length
    modifies buf
    ensures ptr == ptr0 + |Numeral(u)|
    ensures buf[..] == Splice(old(buf[..]), ptr0, Numeral(u))
  {
    hide Output, Numeral, Padded, Splice, Pow10;
    if u <= MAX_X10 {
      X10Exact(u);
      ptr := Print(X10, buf, ptr0, u);
    } else if u <= MAX_X10 * 1000000000 {
      ptr := TenAndNine(buf, ptr0, u);
    } else {
      SplitNine(u);
      var u1 := u % 1000000000;
      var ua := u / 1000000000;
      var u2 := ua % 1000000000;
      var u3 := ua / 1000000000;
      TwoDigits(u3);
      ptr := Print(P2, buf, ptr0, u3);
      ptr := Eighteen(buf, ptr, u2, u1);
      SpliceSplice(old(buf[..]), ptr0, Numeral(u3), Padded(u2, 9) + Padded(u1, 9));
    }
  }

  /** ecb_i2a_u32 on a 64-bit build. */
  method U32Native(buf: array<Byte>, ptr0: nat, u: U32) returns (ptr: nat)
    requires ptr0 + |Numeral(u)| <= buf.Length
    modifies buf
    ensures ptr == ptr0 + |Numeral(u)|
    ensures buf[..] == Splice(old(buf[..]), ptr0, Numeral(u))
  {
    SplitNine(u);
    SingleDigit(u / 1000000000);
    hide Output, Numeral, Padded, Pow10;
    ptr := ptr0;
    if u <= MAX_X10 {
      X10Exact(u);
      ptr := Print(X10, buf, ptr, u);
    } else {
      var u1 := u % 1000000000;
      var u2 := u / 1000000000;
      buf[ptr] := u2 + ZERO;
      ptr := ptr + 1;
      assert buf[..] == Splice(old(buf[..]), ptr0, Numeral(u2));
      NineDigits(u1);
      ptr := Print(Zeros(P9), buf, ptr, u1);
      SpliceSplice(old(buf[..]), ptr0, Numeral(u2), Padded(u1, 9));
    }
  }

  /** v < 0 ? -(uintN_t)v : v, modulus being 2^N: the conversion adds the modulus, the negation subtracts from it. */
  function UnsignedMagnitude(v: int, modulus: nat): (u: nat)
    requires 0 < v + modulus && v < modulus
    ensures u == Abs(v)
  {
    if v < 0 then
      var converted := v + modulus;
      modulus - converted
    else v
  }

  /** The speculative '-' is kept for negative numbers and overwritten by the first digit otherwise. */
  lemma SpeculativeMinus(before: seq<Byte>, ptr: nat, v: int, u: nat)
    requires u == Abs(v) && ptr + |Signed(v)| <= |before|
    ensures ptr < |before|
    ensures var from := if v < 0 then ptr + 1 else ptr;
            && from + |Numeral(u)| == ptr + |Signed(v)|
            && Splice(before[ptr := MINUS], from, Numeral(u)) == Splice(before, ptr, Signed(v))
  {
  }

  /** ecb_i2a_i32 on a 64-bit build. */
  method I32Native(buf: array<Byte>, ptr0: nat, v: I32) returns (ptr: nat)
    requires ptr0 + |Signed(v)| <= buf.Length
    modifies buf
    ensures ptr == ptr0 + |Signed(v)|
    ensures buf[..] == Splice(old(buf[..]), ptr0, Signed(v))
  {
    var u: U32 := UnsignedMagnitude(v, 0x1_0000_0000);
    SpeculativeMinus(buf[..], ptr0, v, u);
    hide Output, Numeral, Splice, Signed;
    buf[ptr0] := MINUS;
    ptr := if v < 0 then ptr0 + 1 else ptr0;
    X10Exact(u);
    ptr := Print(X10, buf, ptr, u);
  }

  /** ecb_i2a_i64 on a 64-bit build: every 64-bit number, -2^63 included. */
  method I64Native(buf: array<Byte>, ptr0: nat, v: I64) returns (ptr: nat)
    requires ptr0 + |Signed(v)| <= buf.Length
    modifies buf
    ensures ptr == ptr0 + |Signed(v)|
    ensures buf[..] == Splice(old(buf[..]), ptr0, Signed(v))
  {
    var u: U64 := UnsignedMagnitude(v, 0x1_0000_0000_0000_0000);
    SpeculativeMinus(buf[..], ptr0, v, u);
    hide Output, Numeral, Padded, Splice, Signed, Pow10;
    buf[ptr0] := MINUS;
    ptr := if v < 0 then ptr0 + 1 else ptr0;
    if u <= MAX_X10 {
      X10Exact(u);
      ptr := Print(X10, buf, ptr, u);
    } else if u <= MAX_X10 * 1000000000 {
      ptr := TenAndNine(buf, ptr, u);
    } else {
      ptr := OneAndEighteen(buf, ptr, u);
    }
  }

  /** The last branch of ecb_i2a_i64: the top part is exactly one digit, written as *ptr++ = u3 + '0'. */
  method OneAndEighteen(buf: array<Byte>, ptr0: nat, u: U64) returns (ptr: nat)
    requires MAX_X10 * 1000000000 < u <= 0x8000_0000_0000_0000
    requires ptr0 + |Numeral(u)| <= buf.Length
    modifies buf
    ensures ptr == ptr0 + |Numeral(u)|
    ensures buf[..] == Splice(old(buf[..]), ptr0, Numeral(u))
  {
    var u1 := u % 1000000000;
    var ua := u / 1000000000;
    var u2 := ua % 1000000000;
    var u3 := ua / 1000000000;
    SplitNine(u);
    SingleDigit(u3);
    hide Numeral, Padded;
    ptr := ptr0;
    buf[ptr] := u3 + ZERO;
    ptr := ptr + 1;
    assert buf[..] == Splice(old(buf[..]), ptr0, Numeral(u3));
    ptr := Eighteen(buf, ptr, u2, u1);
    SpliceSplice(old(buf[..]), ptr0, Numeral(u3), Padded(u2, 9) + Padded(u1, 9));
  }

  // ---- the composite printers, 32-bit build ----

  lemma FourDigits(u: U32)
    requires u < 10000
    ensures Output(Zeros(P4), u) == Padded(u, 4)
  {
    PowerConstants();
    FullRangeExact(Zeros(P4), u);
  }

  lemma SplitFour(u: nat)
    requires u >= 10000
    ensures u == u / 10000 * 10000 + u % 10000
    ensures Numeral(u) == Numeral(u / 10000) + Padded(u % 10000, 4)
  {
    hide Numeral, Padded;
    PowerConstants();
    NumeralSplit(u / 10000, u % 10000, 4);
  }

  /** ecb_i2a_u64 on a 32-bit build peels four digits at a time, recursively; its result is the one of U64Native,
      byte for byte. */
  method U64Narrow(buf: array<Byte>, ptr0: nat, u: U64) returns (ptr: nat)
    requires ptr0 + |Numeral(u)| <= buf.Length
    modifies buf
    ensures ptr == ptr0 + |Numeral(u)|
    ensures buf[..] == Splice(old(buf[..]), ptr0, Numeral(u))
    decreases u
  {
    hide Output, Numeral, Padded, Splice, Pow10;
    ptr := ptr0;
    if u <= MAX_X5 {
      X5Exact(u);
      ptr := Print(X5, buf, ptr, u);
    } else {
      SplitFour(u);
      var u1 := u % 10000;
      var u2 := u / 10000;
      FourDigits(u1);
      ptr := U64Narrow(buf, ptr, u2);
      ptr := Print(Zeros(P4), buf, ptr, u1);
      SpliceSplice(old(buf[..]), ptr0, Numeral(u2), Padded(u1, 4));
    }
  }

  /** ecb_i2a_i64 on a 32-bit build. */
  method I64Narrow(buf: array<Byte>, ptr0: nat, v: I64) returns (ptr: nat)
    requires ptr0 + |Signed(v)| <= buf.Length
    modifies buf
    ensures ptr == ptr0 + |Signed(v)|
    ensures buf[..] == Splice(old(buf[..]), ptr0, Signed(v))
  {
    var u: U64 := UnsignedMagnitude(v, 0x1_0000_0000_0000_0000);
    SpeculativeMinus(buf[..], ptr0, v, u);
    hide Numeral, Splice, Signed;
    buf[ptr0] := MINUS;
    ptr := if v < 0 then ptr0 + 1 else ptr0;
    ptr := U64Narrow(buf, ptr, u);
  }

  /** ecb_i2a_u32 on a 32-bit build. The bytes are right for every input, but the first branch drops the pointer
      x5 returns, so the end is right iff u is beyond the limit of x5. */
  method U32Narrow(buf: array<Byte>, ptr0: nat, u: U32) returns (ptr: nat)
    requires ptr0 + |Numeral(u)| <= buf.Length
    modifies buf
    ensures buf[..] == Splice(old(buf[..]), ptr0, Numeral(u))
    ensures ptr == ptr0 + |Numeral(u)| <==> u > MAX_X5
    ensures u <= MAX_X5 ==> ptr == ptr0
  {
    hide Output, Numeral, Padded, Splice, Pow10;
    ptr := ptr0;
    if u <= MAX_X5 {
      X5Exact(u);
      var dropped := Print(X5, buf, ptr, u);
    } else if u <= MAX_X5 * 10000 {
      SplitFour(u);
      var u1 := u % 10000;
      var u2 := u / 10000;
      X5Exact(u2);
      FourDigits(u1);
      ptr := Print(X5, buf, ptr, u2);
      ptr := Print(Zeros(P4), buf, ptr, u1);
      SpliceSplice(old(buf[..]), ptr0, Numeral(u2), Padded(u1, 4));
    } else {
      var u1 := u % 10000;
      var ua := u / 10000;
      var u2 := ua % 10000;
      var u3 := ua / 10000;
      SplitFour(u);
      SplitFour(ua);
      TwoDigits(u3);
      FourDigits(u2);
      FourDigits(u1);
      ptr := Print(P2, buf, ptr, u3);
      ptr := Print(Zeros(P4), buf, ptr, u2);
      ptr := Print(Zeros(P4), buf, ptr, u1);
      SpliceSplice(old(buf[..]), ptr0, Numeral(u3), Padded(u2, 4));
      SpliceSplice(old(buf[..]), ptr0, Numeral(u3) + Padded(u2, 4), Padded(u1, 4));
    }
  }

  /** ecb_i2a_i32 on a 32-bit build inherits the dropped pointer for magnitudes up to the limit of x5. */
  method I32Narrow(buf: array<Byte>, ptr0: nat, v: I32) returns (ptr: nat)
    requires ptr0 + |Signed(v)| <= buf.Length
    modifies buf
    ensures buf[..] == Splice(old(buf[..]), ptr0, Signed(v))
    ensures ptr == ptr0 + |Signed(v)| <==> v > MAX_X5 || v < -MAX_X5
    ensures -MAX_X5 <= v <= MAX_X5 ==> ptr == if v < 0 then ptr0 + 1 else ptr0
  {
    var u: U32 := UnsignedMagnitude(v, 0x1_0000_0000);
    SpeculativeMinus(buf[..], ptr0, v, u);
    hide Numeral, Splice, Signed;
    buf[ptr0] := MINUS;
    ptr := if v < 0 then ptr0 + 1 else ptr0;
    ptr := U32Narrow(buf, ptr, u);
  }

  // ---- what the written text is worth ----

  function Abs(v: int): nat {
    if v < 0 then -v else v
  }

  /** The buffer sizes the header promises are enough for every value. */
  lemma DigitLimits(u: U64, v: I64, u': U32, v': I32)
    ensures |Numeral(u)| <= U64_DIGITS - 1 && |Signed(v)| <= I64_DIGITS
    ensures |Numeral(u')| <= U32_DIGITS && |Signed(v')| <= I32_DIGITS
  {
    PowerConstants();
    Pow10Add(10, 9);
    Pow10Add(10, 10);
    hide Numeral, Pow10;
    NumeralLength(u, 20);
    NumeralLength(Abs(v), 19);
    NumeralLength(u', 10);
    NumeralLength(Abs(v'), 10);
  }

  /** Reading what was spliced in gives the number back. */
  lemma ReadBack(before: seq<Byte>, after: seq<Byte>, ptr: nat, v: int)
    requires ptr + |Signed(v)| <= |before| && after == Splice(before, ptr, Signed(v))
    ensures ParseSigned(after[ptr..ptr + |Signed(v)|]) == v
    ensures v >= 0 ==> Canonical(after[ptr..ptr + |Signed(v)|])
    ensures v < 0 ==> after[ptr] == MINUS && Canonical(after[ptr + 1..ptr + |Signed(v)|]) && after[ptr + 1] != ZERO
  {
    assert after[ptr..ptr + |Signed(v)|] == Signed(v);
    SignedRoundTrip(v);
    NumeralCanonical(Abs(v));
    if v < 0 {
      assert after[ptr + 1..ptr + |Signed(v)|] == Numeral(-v);
    }
  }
}
