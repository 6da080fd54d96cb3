/** Small nonlinear facts, stated one by one so that no other proof has to search for them. */
module Arith {

  lemma Commute(a: int, b: int)
    ensures a * b == b * a
  {
  }

  lemma Associate(a: int, b: int, c: int)
    ensures a * (b * c) == (a * b) * c
  {
  }

  lemma Successor(a: int, b: int)
    ensures (a + 1) * b == a * b + b
  {
  }

  lemma ProductZero(a: int, b: int)
    requires b > 0
    ensures a * b == 0 <==> a == 0
  {
  }

  lemma MulAtLeast(a: int, b: int)
    requires a >= 1 && b >= 0
    ensures a * b >= b
  {
    assert a * b == b + (a - 1) * b;
    MulNonNegative(a - 1, b);
  }

  lemma MulNonNegative(a: int, b: int)
    requires a >= 0 && b >= 0
    ensures a * b >= 0
  {
  }

  lemma MulMono(a: int, b: int, c: int)
    requires a <= b && c >= 0
    ensures a * c <= b * c
  {
    MulNonNegative(b - a, c);
    assert (b - a) * c == b * c - a * c;
  }

  /** Division with remainder has one answer. */
  lemma DivModUnique(x: int, d: int, q: int, r: int)
    requires d > 0 && 0 <= r < d && x == q * d + r
    ensures x / d == q && x % d == r
  {
    var q', r' := x / d, x % d;
    assert x == q' * d + r';
    assert (q - q') * d == r' - r by {
      assert (q - q') * d == q * d - q' * d;
    }
    if q > q' {
      MulAtLeast(q - q', d);
    } else if q < q' {
      assert (q' - q) * d == -((q - q') * d);
      MulAtLeast(q' - q, d);
    }
  }

  lemma Distribute(a: int, b: int, c: int, d: int)
    ensures (a * b + c) * d == a * (d * b) + c * d
  {
    assert (a * b + c) * d == a * b * d + c * d;
    assert a * b * d == a * (d * b);
  }

  lemma DivModIdentity(x: int, d: int)
    requires d > 0
    ensures x == (x / d) * d + x % d
  {
  }

  lemma DivNonNegative(x: int, d: int)
    requires x >= 0 && d > 0
    ensures x / d >= 0
  {
    assert x == (x / d) * d + x % d;
    if x / d < 0 {
      MulMono(x / d, -1, d);
    }
  }

  lemma QuotientBelow(x: int, d: int, bound: int)
    requires 0 <= x < d * bound && d > 0
    ensures 0 <= x / d < bound
  {
    DivNonNegative(x, d);
    assert x == (x / d) * d + x % d;
    if x / d >= bound {
      MulMono(bound, x / d, d);
    }
  }

  /** Dividing twice divides by the product. */
  lemma DivDiv(x: int, a: int, b: int)
    requires a > 0 && b > 0
    ensures a * b > 0 && (x / a) / b == x / (a * b)
  {
    MulAtLeast(a, b);
    var q, r := (x / a) / b, (x / a) % b;
    var rest := r * a + x % a;
    assert x == (q * b + r) * a + x % a;
    assert (q * b + r) * a == q * (a * b) + r * a by {
      assert (q * b + r) * a == q * b * a + r * a;
      assert q * b * a == q * (a * b);
    }
    MulNonNegative(r, a);
    MulMono(r + 1, b, a);
    assert (r + 1) * a == r * a + a && b * a == a * b;
    DivModUnique(x, a * b, q, rest);
  }

  /** Adding c * d moves the quotient by c and leaves the remainder. */
  lemma DivModShift(x: int, d: int, c: int)
    requires d > 0
    ensures (x + c * d) / d == x / d + c && (x + c * d) % d == x % d
  {
    DivModIdentity(x, d);
    assert (x / d + c) * d == (x / d) * d + c * d;
    DivModUnique(x + c * d, d, x / d + c, x % d);
  }

  /** The base-w digit at weight p ignores multiples of p * w. */
  lemma DigitShift(x: int, p: int, w: int, c: int)
    requires p > 0 && w > 0
    ensures ((x + c * (p * w)) / p) % w == (x / p) % w
  {
    assert c * (p * w) == c * w * p;
    DivModShift(x, p, c * w);
    DivModShift(x / p, w, c);
  }

  lemma ResidueByHalves(x: int, half: int)
    requires half > 0
    ensures x % (2 * half) == 2 * ((x / 2) % half) + x % 2
  {
    var q, r := (x / 2) / half, (x / 2) % half;
    DivModIdentity(x / 2, half);
    Distribute(q, half, r, 2);
    Commute(half, 2);
    DivModUnique(x, 2 * half, q, 2 * r + x % 2);
  }
}
