/** Exclusive or of non-negative integers, bit by bit, and the algebra it obeys. */
module Xor {
  import opened Arith
  import opened Radix

  /** x ^ y of two non-negative 32-bit integers. */
  function BitXor(x: nat, y: nat): nat
    decreases x + y
  {
    if x == 0 && y == 0 then 0
    else 2 * BitXor(x / 2, y / 2) + (if x % 2 != y % 2 then 1 else 0)
  }

  lemma {:induction false} XorNothing(x: nat)
    ensures BitXor(x, 0) == x && BitXor(0, x) == x
  {
    if x > 0 {
      XorNothing(x / 2);
    }
  }

  lemma {:induction false} XorItself(x: nat)
    ensures BitXor(x, x) == 0
  {
    if x > 0 {
      XorItself(x / 2);
    }
  }

  lemma {:induction false} XorCommutes(x: nat, y: nat)
    ensures BitXor(x, y) == BitXor(y, x)
    decreases x + y
  {
    if x > 0 || y > 0 {
      XorCommutes(x / 2, y / 2);
    }
  }

  lemma {:induction false} XorAssociates(x: nat, y: nat, z: nat)
    ensures BitXor(BitXor(x, y), z) == BitXor(x, BitXor(y, z))
    decreases x + y + z
  {
    if x > 0 || y > 0 || z > 0 {
      XorAssociates(x / 2, y / 2, z / 2);
      XorHalves(x, y);
      XorHalves(y, z);
      XorHalves(BitXor(x, y), z);
      XorHalves(x, BitXor(y, z));
    }
  }

  lemma XorHalves(x: nat, y: nat)
    ensures BitXor(x, y) / 2 == BitXor(x / 2, y / 2)
    ensures BitXor(x, y) % 2 == (if x % 2 != y % 2 then 1 else 0)
  {
  }

  /** The lowest bit and the rest do not mix. */
  lemma XorDouble(u: nat, v: nat, r: nat, t: nat)
    requires r < 2 && t < 2
    ensures BitXor(2 * u + r, 2 * v + t) == 2 * BitXor(u, v) + (if r != t then 1 else 0)
  {
    XorHalves(2 * u + r, 2 * v + t);
    assert (2 * u + r) / 2 == u && (2 * v + t) / 2 == v;
  }

  lemma XorCancels(x: nat, y: nat)
    ensures BitXor(BitXor(x, y), y) == x
    ensures BitXor(x, y) == 0 <==> x == y
  {
    XorAssociates(x, y, y);
    XorItself(y);
    XorNothing(x);
    XorNothing(y);
  }

  lemma XorInterleave(a: nat, b: nat, c: nat, d: nat)
    ensures BitXor(BitXor(a, b), BitXor(c, d)) == BitXor(BitXor(a, c), BitXor(b, d))
  {
    XorAssociates(a, b, BitXor(c, d));
    XorAssociates(b, c, d);
    XorCommutes(b, c);
    XorAssociates(c, b, d);
    XorAssociates(a, c, BitXor(b, d));
  }

  /** a shifted left by k, kept linear for the proofs. */
  function Shifted(a: nat, k: nat): nat {
    if k == 0 then a else 2 * Shifted(a, k - 1)
  }

  lemma {:induction false} ShiftedIsProduct(a: nat, k: nat)
    ensures Shifted(a, k) == a * Pow2(k)
  {
    if k > 0 {
      ShiftedIsProduct(a, k - 1);
      Associate(a, Pow2(k - 1), 2);
      Commute(Pow2(k - 1), 2);
    }
  }

  lemma XorOneUp(a: nat, b: nat, c: nat, u: nat, v: nat, p: nat, q: nat)
    requires BitXor(a + u / 2, b + v / 2) == c + BitXor(u / 2, v / 2)
    requires p == 2 * a && q == 2 * b
    ensures BitXor(p + u, q + v) == 2 * c + BitXor(u, v)
  {
    hide BitXor;
    var x, y, r, t := u / 2, v / 2, u % 2, v % 2;
    XorDouble(x, y, r, t);
    XorDouble(a + x, b + y, r, t);
    assert 2 * (a + x) + r == p + u && 2 * (b + y) + t == q + v;
  }

  lemma {:induction false} XorFits(u: nat, v: nat, k: nat)
    requires u < Pow2(k) && v < Pow2(k)
    ensures BitXor(u, v) < Pow2(k)
    decreases k
  {
    if k == 0 {
      XorNothing(0);
    } else {
      assert Pow2(k) == 2 * Pow2(k - 1);
      hide BitXor, Pow2;
      XorFits(u / 2, v / 2, k - 1);
      XorHalves(u, v);
    }
  }

  lemma Unshifted(a: nat, u: nat)
    requires u < Pow2(0)
    ensures Shifted(a, 0) == a && u == 0
  {
  }

  lemma ShiftedOnce(a: nat, k: nat, u: nat)
    requires k > 0 && u < Pow2(k)
    ensures Shifted(a, k) == 2 * Shifted(a, k - 1) && u / 2 < Pow2(k - 1)
  {
  }

  lemma {:induction false} XorShifted(a: nat, b: nat, k: nat, u: nat, v: nat)
    requires u < Pow2(k) && v < Pow2(k)
    ensures BitXor(Shifted(a, k) + u, Shifted(b, k) + v) == Shifted(BitXor(a, b), k) + BitXor(u, v)
    decreases k
  {
    hide BitXor, Shifted, Pow2;
    if k == 0 {
      Unshifted(a, u);
      Unshifted(b, v);
      Unshifted(BitXor(a, b), u);
      XorNothing(0);
    } else {
      ShiftedOnce(a, k, u);
      ShiftedOnce(b, k, v);
      ShiftedOnce(BitXor(a, b), k, u);
      var sa, sb, sx := Shifted(a, k - 1), Shifted(b, k - 1), Shifted(BitXor(a, b), k - 1);
      XorShifted(a, b, k - 1, u / 2, v / 2);
      XorOneUp(sa, sb, sx, u, v, Shifted(a, k), Shifted(b, k));
    }
  }

  /** High and low parts do not mix. */
  lemma XorSplit(a: nat, b: nat, k: nat, u: nat, v: nat)
    requires u < Pow2(k) && v < Pow2(k)
    ensures BitXor(u, v) < Pow2(k)
    ensures a * Pow2(k) >= 0 && b * Pow2(k) >= 0
    ensures BitXor(a * Pow2(k) + u, b * Pow2(k) + v) == BitXor(a, b) * Pow2(k) + BitXor(u, v)
  {
    ShiftedIsProduct(a, k);
    ShiftedIsProduct(b, k);
    ShiftedIsProduct(BitXor(a, b), k);
    XorFits(u, v, k);
    XorShifted(a, b, k, u, v);
  }

  lemma XorBelow(u: nat, v: nat, k: nat)
    requires u < Pow2(k) && v < Pow2(k)
    ensures BitXor(u, v) < Pow2(k)
  {
    XorFits(u, v, k);
  }

  /** Filling cleared low bits is adding. */
  lemma XorDisjoint(a: nat, k: nat, v: nat)
    requires v < Pow2(k)
    ensures a * Pow2(k) >= 0 && BitXor(a * Pow2(k), v) == a * Pow2(k) + v
  {
    XorSplit(a, 0, k, 0, v);
    XorNothing(a);
    XorNothing(v);
  }

  /** Exclusive or commutes with cutting a number into high and low bits. */
  lemma {:induction false} XorDivMod(x: nat, y: nat, k: nat)
    ensures Pow2(k) > 0
    ensures x / Pow2(k) >= 0 && y / Pow2(k) >= 0
    ensures BitXor(x, y) / Pow2(k) == BitXor(x / Pow2(k), y / Pow2(k))
    ensures BitXor(x, y) % Pow2(k) == BitXor(x % Pow2(k), y % Pow2(k))
    decreases k
  {
    if k == 0 {
      NothingCut(x);
      NothingCut(y);
      NothingCut(BitXor(x, y));
      XorNothing(0);
    } else {
      hide BitXor, Pow, Pow2;
      XorHalves(x, y);
      XorDivMod(x / 2, y / 2, k - 1);
      HighBits(x, k);
      HighBits(y, k);
      HighBits(BitXor(x, y), k);
      XorDouble((x / 2) % Pow2(k - 1), (y / 2) % Pow2(k - 1), x % 2, y % 2);
    }
  }

  lemma NothingCut(x: nat)
    ensures Pow2(0) == 1 && x / Pow2(0) == x && x % Pow2(0) == 0
  {
  }

  lemma HighBits(x: nat, k: nat)
    requires k > 0
    ensures Pow2(k - 1) > 0 && Pow2(k) == 2 * Pow2(k - 1)
    ensures 0 <= x / Pow2(k) == (x / 2) / Pow2(k - 1)
    ensures x % Pow2(k) == 2 * ((x / 2) % Pow2(k - 1)) + x % 2
  {
    PowPositive(2, k - 1);
    DivNonNegative(x, Pow2(k));
    DivDiv(x, 2, Pow2(k - 1));
    ResidueByHalves(x, Pow2(k - 1));
  }

  // ---- Sequences ----

  function XorAll(s: seq<nat>, t: seq<nat>): (d: seq<nat>)
    requires |s| == |t|
    ensures |d| == |s|
    ensures forall i :: 0 <= i < |s| ==> d[i] == BitXor(s[i], t[i])
  {
    seq<nat>(|s|, i requires 0 <= i < |s| => BitXor(s[i], t[i]))
  }
}
