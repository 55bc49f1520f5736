/** The rounding divisions and the two definitions of ecb_mod in src/ecb.h, over integers that do not overflow. */
module Division {
  import opened Powers

  /** The division of C: towards zero. */
  function Quotient(a: int, b: int): int
    requires b > 0
  {
    if a < 0 then -(-a / b) else a / b
  }

  /** The remainder of C99: it has the sign of the dividend. */
  function Remainder(a: int, b: int): int
    requires b > 0
  {
    a - b * Quotient(a, b)
  }

  function DivRd(val: int, div: int): int
    requires div > 0
  {
    if val < 0 then -Quotient(-val + div - 1, div) else Quotient(val, div)
  }

  function DivRu(val: int, div: int): int
    requires div > 0
  {
    if val < 0 then -Quotient(-val, div) else Quotient(val + div - 1, div)
  }

  function Mod(m: int, n: int): int
    requires n > 0
  {
    Remainder(m, n) + if Remainder(m, n) < 0 then n else 0
  }

  /** The version for compilers that leave the sign of % open: it divides nothing negative. */
  function PortableMod(m: int, n: int): int
    requires n > 0
  {
    if m < 0 then n - 1 - Remainder(-1 - m, n) else Remainder(m, n)
  }

  lemma DivMod(a: int, b: int)
    requires b > 0
    ensures a == a / b * b + a % b && 0 <= a % b < b
  {
  }

  /** ecb_div_rd is the floor and ecb_mod the remainder that goes with it; the portable version agrees. */
  lemma FloorAndMod(val: int, div: int)
    requires div > 0
    ensures 0 <= Mod(val, div) < div
    ensures val == div * DivRd(val, div) + Mod(val, div)
    ensures PortableMod(val, div) == Mod(val, div)
  {
    if val < 0 {
      var q, r := (-1 - val) / div, (-1 - val) % div;
      DivMod(-1 - val, div);
      assert val == (-q - 1) * div + (div - 1 - r);
      Negative(val, div, -q - 1, div - 1 - r);
      assert Remainder(-1 - val, div) == r;
    } else {
      DivMod(val, div);
    }
  }

  /** A negative number with its floored quotient q and remainder r. */
  lemma Negative(val: int, div: int, q: int, r: int)
    requires div > 0 && val < 0 && val == q * div + r && 0 <= r < div
    ensures DivRd(val, div) == q && Mod(val, div) == r
  {
    var p := -q;
    assert val == r - p * div;
    assert (-val + div - 1) / div == p by {
      QuotientUnique(-val + div - 1, div, p, div - 1 - r);
    }
    if r == 0 {
      Truncated(val, div, p, 0);
    } else {
      assert (p - 1) * div == p * div - div;
      Truncated(val, div, p - 1, div - r);
    }
  }

  /** The remainder of a negative number is the negated rest. */
  lemma Truncated(val: int, div: int, p: int, rest: int)
    requires div > 0 && val < 0 && -val == p * div + rest && 0 <= rest < div
    ensures Remainder(val, div) == -rest
  {
    QuotientUnique(-val, div, p, rest);
    assert div * -p == -(p * div);
  }

  /** ecb_div_ru is the ceiling: rounding up is rounding down from the other side. */
  lemma Ceiling(val: int, div: int)
    requires div > 0
    ensures DivRu(val, div) == -DivRd(-val, div)
    ensures div * (DivRu(val, div) - 1) < val <= div * DivRu(val, div)
  {
    FloorAndMod(-val, div);
    var d := DivRd(-val, div);
    assert div * -d == -(div * d) && div * (-d - 1) == -(div * d) - div;
    if val == 0 {
      QuotientUnique(div - 1, div, 0, div - 1);
      QuotientUnique(0, div, 0, 0);
    }
  }
}
