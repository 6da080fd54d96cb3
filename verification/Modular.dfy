/** Integers modulo a prime: just enough number theory for secret sharing. */
module Modular {
  import opened Arith

  /** `x` is zero modulo `q`. */
  predicate Zero(x: int, q: nat)
    requires q > 0
  {
    x % q == 0
  }

  /** `x` and `y` are equal modulo `q`. */
  predicate Same(x: int, y: int, q: nat)
    requires q > 0
  {
    Zero(x - y, q)
  }

  predicate DividesEvenly(d: int, x: int) {
    d > 0 && x % d == 0
  }

  ghost predicate Prime(q: nat) {
    q > 1 && forall d: nat :: 1 < d < q ==> !DividesEvenly(d, q)
  }

  // ---- Multiples ----

  lemma Multiple(k: int, q: nat)
    requires q > 0
    ensures Zero(k * q, q)
  {
    DivModUnique(k * q, q, k, 0);
  }

  lemma ZeroSum(x: int, y: int, q: nat)
    requires q > 0 && Zero(x, q) && Zero(y, q)
    ensures Zero(x + y, q) && Zero(x - y, q)
  {
    var k, l := x / q, y / q;
    DivModIdentity(x, q);
    DivModIdentity(y, q);
    assert (k + l) * q == k * q + l * q && (k - l) * q == k * q - l * q;
    Multiple(k + l, q);
    Multiple(k - l, q);
  }

  lemma ZeroTimes(x: int, c: int, q: nat)
    requires q > 0 && Zero(x, q)
    ensures Zero(c * x, q) && Zero(x * c, q)
  {
    DivModIdentity(x, q);
    Associate(c, x / q, q);
    Multiple(c * (x / q), q);
    Commute(c, x);
  }

  lemma ResidueIsSame(x: int, q: nat)
    requires q > 0
    ensures Same(x, x % q, q) && Same(x % q, x, q)
  {
    DivModIdentity(x, q);
    Multiple(x / q, q);
    assert -(x / q) * q == -((x / q) * q);
    Multiple(-(x / q), q);
  }

  /** Equal modulo q means one residue. */
  lemma SameResidue(x: int, y: int, q: nat)
    requires q > 0
    ensures Same(x, y, q) <==> x % q == y % q
  {
    if Same(x, y, q) {
      var k := (x - y) / q;
      DivModIdentity(x - y, q);
      DivModShift(y, q, k);
      assert x == y + k * q;
    }
    if x % q == y % q {
      DivModIdentity(x, q);
      DivModIdentity(y, q);
      assert x - y == (x / q) * q - (y / q) * q == (x / q - y / q) * q;
      Multiple(x / q - y / q, q);
    }
  }

  lemma SmallResidue(x: int, q: nat)
    requires 0 <= x < q
    ensures x % q == x
  {
    DivModUnique(x, q, 0, x);
  }

  // ---- Inverses ----

  /** Extended Euclid: the greatest common divisor and its Bezout coefficients. */
  function Bezout(a: nat, b: nat): (r: (nat, int, int))
    decreases b
  {
    if b == 0 then (a, 1, 0)
    else
      DivNonNegative(a, b);
      var (g, x, y) := Bezout(b, a % b);
      (g, y, x - (a / b) * y)
  }

  lemma EuclidStep(a: int, b: int, k: int, r: int, x: int, y: int)
    requires a == k * b + r
    ensures a * y + b * (x - k * y) == b * x + r * y
  {
    assert a * y == k * b * y + r * y;
    assert b * (x - k * y) == b * x - b * (k * y);
    assert b * (k * y) == k * b * y;
  }

  lemma {:induction false} BezoutIdentity(a: nat, b: nat)
    ensures var (g, x, y) := Bezout(a, b); a * x + b * y == g
    decreases b
  {
    if b > 0 {
      var (g, x, y) := Bezout(b, a % b);
      BezoutIdentity(b, a % b);
      DivModIdentity(a, b);
      EuclidStep(a, b, a / b, a % b, x, y);
    }
  }

  lemma {:induction false} BezoutDivides(a: nat, b: nat)
    requires a > 0 || b > 0
    ensures var (g, x, y) := Bezout(a, b); g > 0 && Zero(a, g) && Zero(b, g)
    decreases b
  {
    if b == 0 {
      Multiple(1, a);
      Multiple(0, a);
    } else {
      var (g, x, y) := Bezout(b, a % b);
      BezoutDivides(b, a % b);
      DivModIdentity(a, b);
      ZeroTimes(b, a / b, g);
      ZeroSum((a / b) * b, a % b, g);
    }
  }

  /** The number by which division by `a` multiplies; meaningful when `a` is not zero modulo `q`. */
  function Inverse(a: int, q: nat): (b: nat)
    requires q > 0
    ensures b < q
  {
    Bezout(a % q, q).1 % q
  }

  lemma ZeroDivisorBound(x: nat, g: nat)
    requires x > 0 && g > 0 && Zero(x, g)
    ensures g <= x
  {
    DivModIdentity(x, g);
    DivNonNegative(x, g);
    if x / g >= 1 {
      MulAtLeast(x / g, g);
    }
  }

  lemma CoprimeToPrime(r: nat, q: nat)
    requires Prime(q) && 0 < r < q
    ensures Bezout(r, q).0 == 1
  {
    hide Bezout;
    BezoutDivides(r, q);
    var g := Bezout(r, q).0;
    ZeroDivisorBound(r, g);
    assert DividesEvenly(g, q);
  }

  lemma ProductsSame(a: int, r: int, x: int, q: nat)
    requires q > 0 && Same(a, r, q)
    ensures Same(a * x, r * x, q) && Same(x * a, x * r, q)
  {
    hide Zero;
    ZeroTimes(a - r, x, q);
    assert (a - r) * x == a * x - r * x;
    Commute(x, a);
    Commute(x, r);
  }

  lemma SameTransitive(a: int, b: int, c: int, q: nat)
    requires q > 0 && Same(a, b, q) && Same(b, c, q)
    ensures Same(a, c, q)
  {
    hide Zero;
    ZeroSum(a - b, b - c, q);
  }

  lemma OneModulo(p: int, q: nat, y: int)
    requires q > 0 && p + q * y == 1
    ensures Same(p, 1, q)
  {
    Multiple(-y, q);
    Commute(q, -y);
    assert q * -y == -(q * y);
  }

  /** If r * x + q * y = 1 then x inverts everything that has the residue r, and so does the residue of x. */
  lemma InverseFromIdentity(a: int, r: int, x: int, y: int, q: nat)
    requires q > 0 && r * x + q * y == 1 && Same(a, r, q)
    ensures Same(a * (x % q), 1, q)
  {
    OneModulo(r * x, q, y);
    hide Zero, Same;
    ProductsSame(a, r, x, q);
    SameTransitive(a * x, r * x, 1, q);
    ResidueIsSame(x, q);
    ProductsSame(x % q, x, a, q);
    SameTransitive(a * (x % q), a * x, 1, q);
  }

  lemma InverseWorks(a: int, q: nat)
    requires Prime(q) && !Zero(a, q)
    ensures Same(a * Inverse(a, q), 1, q)
  {
    hide Bezout;
    var (g, x, y) := Bezout(a % q, q);
    CoprimeToPrime(a % q, q);
    BezoutIdentity(a % q, q);
    ResidueIsSame(a, q);
    InverseFromIdentity(a, a % q, x, y, q);
  }

  /** Euclid's lemma: a prime field has no zero divisors. */
  lemma NoZeroDivisors(a: int, b: int, q: nat)
    requires Prime(q) && Zero(a * b, q)
    ensures Zero(a, q) || Zero(b, q)
  {
    if !Zero(a, q) {
      var i := Inverse(a, q);
      InverseWorks(a, q);
      ZeroTimes(a * i - 1, b, q);
      ZeroTimes(a * b, i, q);
      assert i * (a * b) - (a * i - 1) * b == b by {
        assert (a * i - 1) * b == a * i * b - b;
        assert i * (a * b) == a * i * b;
      }
      ZeroSum(i * (a * b), (a * i - 1) * b, q);
    }
  }
}
