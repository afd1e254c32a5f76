/** Unsigned machine arithmetic on natural numbers: wrapping add and subtract, bitwise and/or. */
module Bits {

  type U8 = x: nat | x < 0x100
  type U16 = x: nat | x < 0x1_0000
  type U32 = x: nat | x < 0x1_0000_0000
  type U64 = x: nat | x < 0x1_0000_0000_0000_0000

  function Pow2(k: nat): (p: nat)
    ensures p >= 1
  {
    if k == 0 then 1 else 2 * Pow2(k - 1)
  }

  /** `a & b`, one bit at a time. */
  function BitAnd(a: nat, b: nat): (r: nat)
    ensures r <= a && r <= b
  {
    if a == 0 || b == 0 then 0
    else (if a % 2 == 1 && b % 2 == 1 then 1 else 0) + 2 * BitAnd(a / 2, b / 2)
  }

  /** `a | b`, one bit at a time. */
  function BitOr(a: nat, b: nat): nat
  {
    if a == 0 then b
    else if b == 0 then a
    else (if a % 2 == 1 || b % 2 == 1 then 1 else 0) + 2 * BitOr(a / 2, b / 2)
  }

  lemma {:induction false} BitOrBound(a: nat, b: nat, k: nat)
    requires a < Pow2(k) && b < Pow2(k)
    ensures BitOr(a, b) < Pow2(k)
  {
    if a != 0 && b != 0 {
      BitOrBound(a / 2, b / 2, k - 1);
    }
  }

  /** The low k bits of a bitwise result depend on the low k bits of the operands only. */
  lemma {:induction false} BitwiseLow(a: nat, b: nat, k: nat)
    ensures BitAnd(a, b) % Pow2(k) == BitAnd(a % Pow2(k), b % Pow2(k))
    ensures BitOr(a, b) % Pow2(k) == BitOr(a % Pow2(k), b % Pow2(k))
  {
    if k != 0 {
      var p := Pow2(k - 1);
      HalvesOfMod(a, p);
      HalvesOfMod(b, p);
      HalvesOfMod(BitAnd(a, b), p);
      HalvesOfMod(BitOr(a, b), p);
      BitwiseLow(a / 2, b / 2, k - 1);
      BitwiseHalves(a, b);
      BitwiseHalves(a % (2 * p), b % (2 * p));
    }
  }

  /** The step equations without the special cases for zero. */
  lemma BitwiseHalves(a: nat, b: nat)
    ensures BitAnd(a, b) / 2 == BitAnd(a / 2, b / 2)
    ensures BitAnd(a, b) % 2 == if a % 2 == 1 && b % 2 == 1 then 1 else 0
    ensures BitOr(a, b) / 2 == BitOr(a / 2, b / 2)
    ensures BitOr(a, b) % 2 == if a % 2 == 1 || b % 2 == 1 then 1 else 0
  {
  }

  lemma HalvesOfMod(a: nat, p: nat)
    requires p >= 1
    ensures (a % (2 * p)) / 2 == (a / 2) % p
    ensures (a % (2 * p)) % 2 == a % 2
  {
    var q, r := a / (2 * p), a % (2 * p);
    assert a == (2 * p) * q + r;
    assert (2 * p) * q == 2 * (p * q);
    assert a / 2 == p * q + r / 2;
    ModUnique(a / 2, p, q, r / 2);
  }

  lemma ModUnique(x: int, p: int, q: int, r: int)
    requires x == p * q + r && 0 <= r < p
    ensures x % p == r
  {
    var q', r' := x / p, x % p;
    assert x == p * q' + r';
    assert p * (q - q') == r' - r;
    MultipleBelow(p, q - q');
  }

  lemma DivUnique(x: int, p: int, q: int, r: int)
    requires x == p * q + r && 0 <= r < p
    ensures x / p == q
  {
    var q', r' := x / p, x % p;
    assert x == p * q' + r';
    assert p * (q - q') == r' - r;
    MultipleBelow(p, q - q');
  }

  lemma SameRemainder(x: int, y: int, p: int, k: int)
    requires p >= 1 && x == y + p * k
    ensures x % p == y % p
  {
    assert x == p * (y / p + k) + y % p;
    ModUnique(x, p, y / p + k, y % p);
  }

  /** A multiple of p strictly between -p and p is zero. */
  lemma MultipleBelow(p: int, m: int)
    requires p >= 1 && -p < p * m < p
    ensures m == 0
  {
    assert m > 0 ==> p * m >= p;
    assert m < 0 ==> p * m <= -p;
  }

  // ---------------------------------------------------------------- single bits

  /** Bit k of a number. */
  predicate BitOf(x: nat, k: nat)
  {
    x / Pow2(k) % 2 == 1
  }

  lemma BitOfHalf(x: nat, k: nat)
    requires k > 0
    ensures BitOf(x, k) == BitOf(x / 2, k - 1)
  {
    var p := Pow2(k - 1);
    var q, r := x / 2 / p, x / 2 % p;
    assert x / 2 == p * q + r;
    assert x == (2 * p) * q + (2 * r + x % 2);
    DivUnique(x, 2 * p, q, 2 * r + x % 2);
  }

  /** Every bit of the results is the conjunction or disjunction of the bits of the operands. */
  lemma {:induction false} BitwiseBits(a: nat, b: nat, k: nat)
    ensures BitOf(BitAnd(a, b), k) <==> BitOf(a, k) && BitOf(b, k)
    ensures BitOf(BitOr(a, b), k) <==> BitOf(a, k) || BitOf(b, k)
  {
    BitwiseHalves(a, b);
    if k != 0 {
      BitOfHalf(a, k);
      BitOfHalf(b, k);
      BitOfHalf(BitAnd(a, b), k);
      BitOfHalf(BitOr(a, b), k);
      BitwiseBits(a / 2, b / 2, k - 1);
    }
  }

  lemma Pow2Values()
    ensures Pow2(32) == 0x1_0000_0000 && Pow2(64) == 0x1_0000_0000_0000_0000
  {
    assert Pow2(8) == 0x100;
    assert Pow2(16) == 0x1_0000;
    assert Pow2(24) == 0x100_0000;
    assert Pow2(32) == 0x1_0000_0000;
    assert Pow2(40) == 0x100_0000_0000;
    assert Pow2(48) == 0x1_0000_0000_0000;
    assert Pow2(56) == 0x100_0000_0000_0000;
  }

  /** The low half of a 64-bit register. */
  function Low32(x: U64): U32
  {
    x % 0x1_0000_0000
  }

  /** Reducing first modulo 2^64 does not change the remainder modulo 2^32. */
  lemma LowOfWrapped(x: int)
    ensures x % 0x1_0000_0000_0000_0000 % 0x1_0000_0000 == x % 0x1_0000_0000
  {
    var q := x / 0x1_0000_0000_0000_0000;
    SameRemainder(x, x % 0x1_0000_0000_0000_0000, 0x1_0000_0000, 0x1_0000_0000 * q);
  }

  lemma WrapLow32(a: U64, b: U64)
    ensures (a + b) % 0x1_0000_0000_0000_0000 % 0x1_0000_0000 == (Low32(a) + Low32(b)) % 0x1_0000_0000
    ensures (a - b) % 0x1_0000_0000_0000_0000 % 0x1_0000_0000 == (Low32(a) - Low32(b)) % 0x1_0000_0000
  {
    var qa, qb := a / 0x1_0000_0000, b / 0x1_0000_0000;
    LowOfWrapped(a + b);
    LowOfWrapped(a - b);
    SameRemainder(a + b, Low32(a) + Low32(b), 0x1_0000_0000, qa + qb);
    SameRemainder(a - b, Low32(a) - Low32(b), 0x1_0000_0000, qa - qb);
  }

  lemma BitwiseFits(a: U64, b: U64)
    ensures BitAnd(a, b) < 0x1_0000_0000_0000_0000 && BitOr(a, b) < 0x1_0000_0000_0000_0000
  {
    Pow2Values();
    BitOrBound(a, b, 64);
  }

  lemma BitwiseFits32(a: U32, b: U32)
    ensures BitAnd(a, b) < 0x1_0000_0000 && BitOr(a, b) < 0x1_0000_0000
  {
    Pow2Values();
    BitOrBound(a, b, 32);
  }

  lemma BitwiseLow32(a: U64, b: U64)
    ensures BitAnd(a, b) % 0x1_0000_0000 == BitAnd(Low32(a), Low32(b))
    ensures BitOr(a, b) % 0x1_0000_0000 == BitOr(Low32(a), Low32(b))
  {
    Pow2Values();
    BitwiseLow(a, b, 32);
  }
}
