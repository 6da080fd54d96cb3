/** JavaScript's 32-bit operators on numbers. Operands are integers; every result that JavaScript
    would coerce with ToInt32 is coerced here too, so wrap-around and the sign bit are modelled. */
module JsInt32 {
  import opened Arith
  import opened Radix

  const MODULUS: int := 0x1_0000_0000

  /** The signed 32-bit integer congruent to `x` modulo 2^32. */
  function ToInt32(x: int): (r: int)
    ensures -0x8000_0000 <= r < 0x8000_0000
  {
    (x + 0x8000_0000) % MODULUS - 0x8000_0000
  }

  /** x << n */
  function Shl(x: int, n: nat): int
    requires n < 32
  {
    ToInt32(x * Pow2(n))
  }

  /** x >> n: the sign-propagating right shift, that is, division rounding down. */
  function Sar(x: int, n: nat): int
    requires n < 32
  {
    PowPositive(2, n);
    x / Pow2(n)
  }

  /** x & mask, bit by bit, for a non-negative mask. */
  function BitAnd(x: int, mask: nat): nat
    decreases mask
  {
    if mask == 0 then 0
    else 2 * BitAnd(x / 2, mask / 2) + (if x % 2 == 1 && mask % 2 == 1 then 1 else 0)
  }

  /** x | y, bit by bit, for a non-negative right operand. */
  function BitOr(x: int, y: nat): int
    decreases y
  {
    if y == 0 then x
    else 2 * BitOr(x / 2, y / 2) + (if x % 2 == 1 || y % 2 == 1 then 1 else 0)
  }

  // ---- What the operators compute ----

  /** Masking with 2^k - 1 keeps the residue modulo 2^k, also of a negative number. */
  lemma {:induction false} BitAndLowMask(x: int, k: nat)
    ensures Pow2(k) > 0 && BitAnd(x, Pow2(k) - 1) == x % Pow2(k)
    decreases k
  {
    PowPositive(2, k);
    if k > 0 {
      PowPositive(2, k - 1);
      var half := Pow2(k - 1);
      BitAndLowMask(x / 2, k - 1);
      assert (Pow2(k) - 1) / 2 == half - 1 && (Pow2(k) - 1) % 2 == 1;
      ResidueByHalves(x, half);
    }
  }

  /** Or-ing a value into cleared low bits adds it, also to a negative number. */
  lemma {:induction false} BitOrDisjoint(y: int, k: nat, v: nat)
    requires v < Pow2(k)
    ensures BitOr(y * Pow2(k), v) == y * Pow2(k) + v
  {
    if v > 0 {
      var half := Pow2(k - 1);
      assert y * Pow2(k) == 2 * (y * half);
      BitOrDisjoint(y, k - 1, v / 2);
    }
  }

  lemma ToInt32Congruent(x: int)
    returns (k: int)
    ensures x == ToInt32(x) + k * MODULUS
  {
    k := (x + 0x8000_0000) / MODULUS;
  }

  lemma InRange(x: int)
    requires -0x8000_0000 <= x < 0x8000_0000
    ensures ToInt32(x) == x
  {
  }

  lemma ToInt32Unique(x: int, y: int, k: int)
    requires x == y + k * MODULUS
    ensures ToInt32(x) == ToInt32(y)
  {
  }

  /** A multiple of 2^k that wraps stays a multiple of 2^k, with room for a k-bit digit. */
  lemma WrappedMultiple(acc: int, k: nat)
    returns (y: int)
    requires k <= 31
    ensures Shl(acc, k) == y * Pow2(k)
    ensures Shl(acc, k) + Pow2(k) <= 0x8000_0000
  {
    var p, rest := Pow2(k), Pow2(31 - k);
    PowPositive(2, k);
    PowAdd(2, k, 31 - k);
    PowOf31();
    var wraps := ToInt32Congruent(acc * p);
    y := acc - wraps * (2 * rest);
    Commute(rest, p);
    Commute(2, rest);
    Associate(p, rest, 2);
    MultipleMinus(acc, p, wraps, 2 * rest, MODULUS);
    RoomBelow(y, p, rest);
  }

  lemma RoomBelow(y: int, p: int, rest: int)
    requires p > 0 && y * p < rest * p
    ensures y * p + p <= rest * p
  {
    if y >= rest {
      MulMono(rest, y, p);
    }
    MulMono(y + 1, rest, p);
    assert (y + 1) * p == y * p + p;
  }

  lemma PowOf31()
    ensures Pow2(31) == 0x8000_0000 && Pow2(32) == MODULUS
  {
    assert Pow2(8) == 0x100;
    PowAdd(2, 8, 8);
    PowAdd(2, 16, 15);
    assert Pow2(15) == 0x8000;
  }

  lemma MultipleMinus(acc: int, p: int, wraps: int, c: int, m: int)
    requires m == p * c
    ensures (acc - wraps * c) * p == acc * p - wraps * m
  {
    assert (acc - wraps * c) * p == acc * p - wraps * c * p;
    assert wraps * c * p == wraps * (p * c);
  }

  /** Wrapping before a multiply-add changes nothing once the result is wrapped. */
  lemma WrapEarly(v: int, p: int, d: int)
    ensures ToInt32(ToInt32(v) * p + d) == ToInt32(v * p + d)
  {
    var wraps := ToInt32Congruent(v);
    Distribute(wraps, MODULUS, ToInt32(v), p);
    Commute(p, MODULUS);
    Associate(wraps, p, MODULUS);
    ToInt32Unique(v * p + d, ToInt32(v) * p + d, wraps * p);
  }

  lemma WrapSum(x: int, d: int)
    ensures ToInt32(ToInt32(x) + d) == ToInt32(x + d)
  {
  }

  lemma OrAfterShift(acc: int, k: nat, d: nat)
    requires k <= 31 && d < Pow2(k)
    ensures BitOr(Shl(acc, k), d) == ToInt32(Shl(acc, k) + d)
  {
    var y := WrappedMultiple(acc, k);
    BitOrDisjoint(y, k, d);
    InRange(Shl(acc, k) + d);
  }

  /** Shifting left and or-ing in a digit acts on the low 32 bits of the unbounded number. */
  lemma ShiftInDigit(v: int, k: nat, d: nat)
    requires k <= 31 && d < Pow2(k)
    ensures BitOr(Shl(ToInt32(v), k), d) == ToInt32(v * Pow2(k) + d)
  {
    OrAfterShift(ToInt32(v), k, d);
    WrapSum(ToInt32(v) * Pow2(k), d);
    WrapEarly(v, Pow2(k), d);
  }

  /** A window of bits inside the low 32 reads the same from the wrapped number. */
  lemma WindowOfInt32(v: int, low: nat, width: nat)
    requires low < 32 && low + width <= 32
    ensures Pow2(low) > 0 && Pow2(width) > 0
    ensures Sar(ToInt32(v), low) % Pow2(width) == (v / Pow2(low)) % Pow2(width)
  {
    PowPositive(2, low);
    PowPositive(2, width);
    var p, w, high := Pow2(low), Pow2(width), Pow2(32 - low - width);
    PowAdd(2, low + width, 32 - low - width);
    PowAdd(2, low, width);
    PowOf31();
    var k := ToInt32Congruent(v);
    Commute(p * w, high);
    Associate(k, high, p * w);
    DigitShift(ToInt32(v), p, w, k * high);
  }
}
