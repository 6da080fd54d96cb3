/** Polynomials with integer coefficients, constant first, looked at modulo a prime. Values are exact
    integers; only roots and coefficients are reduced, so no theorem depends on when a residue is taken. */
module Polynomial {
  import opened Arith
  import opened Modular

  type Poly = seq<int>

  function Eval(p: Poly, x: int): int {
    if p == [] then 0 else p[0] + x * Eval(p[1..], x)
  }

  function Power(x: int, n: nat): int {
    if n == 0 then 1 else Power(x, n - 1) * x
  }

  /** The sum of the first n terms p[k] * x^k. */
  function PowerSum(p: Poly, x: int, n: nat): int
    requires n <= |p|
  {
    if n == 0 then 0 else PowerSum(p, x, n - 1) + p[n - 1] * Power(x, n - 1)
  }

  lemma TermUp(x: int, rest: int, c: int, power: int)
    ensures x * rest + c * (power * x) == x * (rest + c * power)
  {
    assert c * (power * x) == x * (c * power);
  }

  lemma {:induction false} PowerSumShifted(p: Poly, x: int, n: nat)
    requires 0 < n <= |p|
    ensures PowerSum(p, x, n) == p[0] + x * PowerSum(p[1..], x, n - 1)
  {
    if n > 1 {
      PowerSumShifted(p, x, n - 1);
      assert p[1..][n - 2] == p[n - 1];
      TermUp(x, PowerSum(p[1..], x, n - 2), p[n - 1], Power(x, n - 2));
    }
  }

  /** Horner's scheme gives the sum of the terms. */
  lemma {:induction false} EvalIsPowerSum(p: Poly, x: int)
    ensures Eval(p, x) == PowerSum(p, x, |p|)
  {
    if p != [] {
      EvalIsPowerSum(p[1..], x);
      PowerSumShifted(p, x, |p|);
    }
  }

  ghost predicate AllZero(p: Poly, q: nat)
    requires q > 0
  {
    forall i :: 0 <= i < |p| ==> Zero(p[i], q)
  }

  ghost predicate DistinctModulo(xs: seq<int>, q: nat)
    requires q > 0
  {
    forall i, j :: 0 <= i < j < |xs| ==> !Same(xs[i], xs[j], q)
  }

  lemma {:induction false} ZeroCoefficients(p: Poly, x: int, q: nat)
    requires q > 0 && AllZero(p, q)
    ensures Zero(Eval(p, x), q)
  {
    hide Zero;
    if p == [] {
      Multiple(0, q);
    } else {
      ZeroCoefficients(p[1..], x, q);
      ZeroTimes(Eval(p[1..], x), x, q);
      ZeroSum(p[0], x * Eval(p[1..], x), q);
    }
  }

  // ---- Division by X - a ----

  function Quotient(p: Poly, a: int): (r: Poly)
    ensures |r| == if |p| == 0 then 0 else |p| - 1
  {
    if |p| <= 1 then [] else [Eval(p[1..], a)] + Quotient(p[1..], a)
  }

  lemma DivisionStep(c: int, x: int, a: int, quotient: int, rest: int)
    ensures c + x * ((x - a) * quotient + rest) == (x - a) * (rest + x * quotient) + (c + a * rest)
  {
    assert x * ((x - a) * quotient + rest) == x * ((x - a) * quotient) + x * rest;
    assert (x - a) * (rest + x * quotient) == (x - a) * rest + (x - a) * (x * quotient);
    assert x * ((x - a) * quotient) == (x - a) * (x * quotient);
    assert (x - a) * rest == x * rest - a * rest;
  }

  lemma {:induction false} Division(p: Poly, a: int, x: int)
    ensures Eval(p, x) == (x - a) * Eval(Quotient(p, a), x) + Eval(p, a)
  {
    if |p| > 1 {
      var rest := p[1..];
      Division(rest, a, x);
      assert Quotient(p, a)[1..] == Quotient(rest, a);
      DivisionStep(p[0], x, a, Eval(Quotient(rest, a), x), Eval(rest, a));
    }
  }

  lemma {:induction false} DividendZero(p: Poly, a: int, q: nat)
    requires q > 0 && AllZero(Quotient(p, a), q) && Zero(Eval(p, a), q)
    ensures AllZero(p, q)
  {
    hide Zero;
    if |p| > 1 {
      var rest := p[1..];
      assert Quotient(p, a)[0] == Eval(rest, a) && Quotient(p, a)[1..] == Quotient(rest, a);
      DividendZero(rest, a, q);
      ZeroTimes(Eval(rest, a), a, q);
      ZeroSum(Eval(p, a), a * Eval(rest, a), q);
      assert p == [p[0]] + rest;
    } else if |p| == 1 {
      assert Eval(p, a) == p[0];
    }
  }

  lemma RootOfQuotient(p: Poly, a: int, x: int, q: nat)
    requires Prime(q) && !Same(x, a, q) && Zero(Eval(p, a), q) && Zero(Eval(p, x), q)
    ensures Zero(Eval(Quotient(p, a), x), q)
  {
    hide Zero, Eval;
    Division(p, a, x);
    ZeroSum(Eval(p, x), Eval(p, a), q);
    NoZeroDivisors(x - a, Eval(Quotient(p, a), x), q);
  }

  /** Over a prime field a polynomial with as many roots as coefficients is zero. */
  lemma {:induction false} TooManyRoots(p: Poly, xs: seq<int>, q: nat)
    requires Prime(q) && |p| <= |xs| && DistinctModulo(xs, q)
    requires forall i :: 0 <= i < |xs| ==> Zero(Eval(p, xs[i]), q)
    ensures AllZero(p, q)
    decreases |p|
  {
    if p != [] {
      var n := |xs| - 1;
      var a := xs[n];
      forall i | 0 <= i < n ensures Zero(Eval(Quotient(p, a), xs[..n][i]), q) {
        RootOfQuotient(p, a, xs[i], q);
      }
      TooManyRoots(Quotient(p, a), xs[..n], q);
      DividendZero(p, a, q);
    }
  }

  // ---- Arithmetic of polynomials ----

  function Sum(p: Poly, r: Poly): (s: Poly)
    ensures |s| == if |p| > |r| then |p| else |r|
  {
    if p == [] then r else if r == [] then p else [p[0] + r[0]] + Sum(p[1..], r[1..])
  }

  function Scale(c: int, p: Poly): (s: Poly)
    ensures |s| == |p|
    ensures forall i :: 0 <= i < |p| ==> s[i] == c * p[i]
  {
    seq(|p|, i requires 0 <= i < |p| => c * p[i])
  }

  /** (X - a) * p */
  function TimesLinear(p: Poly, a: int): (s: Poly)
    ensures |s| == |p| + 1
  {
    Sum([0] + p, Scale(-a, p))
  }

  lemma {:induction false} SumEval(p: Poly, r: Poly, x: int)
    ensures Eval(Sum(p, r), x) == Eval(p, x) + Eval(r, x)
  {
    if p != [] && r != [] {
      SumEval(p[1..], r[1..], x);
      assert Sum(p, r)[1..] == Sum(p[1..], r[1..]);
      assert x * (Eval(p[1..], x) + Eval(r[1..], x)) == x * Eval(p[1..], x) + x * Eval(r[1..], x);
    }
  }

  lemma ScaleStep(c: int, first: int, x: int, e: int)
    ensures c * first + x * (c * e) == c * (first + x * e)
  {
    assert x * (c * e) == c * (x * e);
  }

  lemma {:induction false} ScaleEval(c: int, p: Poly, x: int)
    ensures Eval(Scale(c, p), x) == c * Eval(p, x)
  {
    if p != [] {
      ScaleEval(c, p[1..], x);
      assert Scale(c, p)[1..] == Scale(c, p[1..]);
      ScaleStep(c, p[0], x, Eval(p[1..], x));
    }
  }

  lemma TimesLinearEval(p: Poly, a: int, x: int)
    ensures Eval(TimesLinear(p, a), x) == (x - a) * Eval(p, x)
  {
    SumEval([0] + p, Scale(-a, p), x);
    ScaleEval(-a, p, x);
    assert ([0] + p)[1..] == p;
    assert (x - a) * Eval(p, x) == x * Eval(p, x) + -a * Eval(p, x);
  }

  // ---- Lagrange interpolation ----

  function Product(xs: seq<int>, x: int): int {
    if xs == [] then 1 else (x - xs[0]) * Product(xs[1..], x)
  }

  /** The polynomial with exactly the given roots. */
  function RootsPoly(xs: seq<int>): (p: Poly)
    ensures |p| == |xs| + 1
  {
    if xs == [] then [1] else TimesLinear(RootsPoly(xs[1..]), xs[0])
  }

  lemma {:induction false} RootsPolyEval(xs: seq<int>, x: int)
    ensures Eval(RootsPoly(xs), x) == Product(xs, x)
  {
    if xs == [] {
      assert [1][1..] == [];
    } else {
      RootsPolyEval(xs[1..], x);
      TimesLinearEval(RootsPoly(xs[1..]), xs[0], x);
    }
  }

  lemma {:induction false} ProductAtRoot(xs: seq<int>, k: nat)
    requires k < |xs|
    ensures Product(xs, xs[k]) == 0
  {
    if k > 0 {
      ProductAtRoot(xs[1..], k - 1);
    }
  }

  lemma {:induction false} ProductAwayFromRoots(xs: seq<int>, x: int, q: nat)
    requires Prime(q) && forall j :: 0 <= j < |xs| ==> !Same(x, xs[j], q)
    ensures !Zero(Product(xs, x), q)
  {
    if xs == [] {
      SmallResidue(1, q);
    } else {
      ProductAwayFromRoots(xs[1..], x, q);
      hide Zero;
      if Zero(Product(xs, x), q) {
        NoZeroDivisors(x - xs[0], Product(xs[1..], x), q);
      }
    }
  }

  function Without(xs: seq<int>, i: nat): (s: seq<int>)
    requires i < |xs|
    ensures |s| == |xs| - 1
    ensures forall j :: 0 <= j < |s| ==> s[j] == xs[if j < i then j else j + 1]
  {
    xs[..i] + xs[i + 1..]
  }

  /** The factor of the i-th basis polynomial: y_i divided by the product of the differences. */
  function Weight(ys: seq<int>, xs: seq<int>, i: nat, q: nat): int
    requires i < |xs| == |ys| && q > 0
  {
    ys[i] * Inverse(Product(Without(xs, i), xs[i]), q)
  }

  function Terms(ys: seq<int>, xs: seq<int>, n: nat, x: int, q: nat): int
    requires n <= |xs| == |ys| && q > 0
  {
    if n == 0 then 0
    else Terms(ys, xs, n - 1, x, q) + Weight(ys, xs, n - 1, q) * Product(Without(xs, n - 1), x)
  }

  /** Lagrange's formula at `x`, reduced modulo q. */
  function Interpolate(x: int, ys: seq<int>, xs: seq<int>, q: nat): (r: nat)
    requires |xs| == |ys| && q > 0
    ensures r < q
  {
    Terms(ys, xs, |xs|, x, q) % q
  }

  function LagrangePoly(ys: seq<int>, xs: seq<int>, n: nat, q: nat): (p: Poly)
    requires n <= |xs| == |ys| && q > 0
    ensures |p| == if n == 0 then 0 else |xs|
  {
    if n == 0 then []
    else Sum(LagrangePoly(ys, xs, n - 1, q), Scale(Weight(ys, xs, n - 1, q), RootsPoly(Without(xs, n - 1))))
  }

  lemma {:induction false} LagrangePolyEval(ys: seq<int>, xs: seq<int>, n: nat, x: int, q: nat)
    requires n <= |xs| == |ys| && q > 0
    ensures Eval(LagrangePoly(ys, xs, n, q), x) == Terms(ys, xs, n, x, q)
  {
    if n > 0 {
      LagrangePolyEval(ys, xs, n - 1, x, q);
      var w, roots := Weight(ys, xs, n - 1, q), RootsPoly(Without(xs, n - 1));
      hide Eval, Weight, RootsPoly, Without;
      SumEval(LagrangePoly(ys, xs, n - 1, q), Scale(w, roots), x);
      ScaleEval(w, roots, x);
      RootsPolyEval(Without(xs, n - 1), x);
    }
  }

  lemma OwnTerm(ys: seq<int>, xs: seq<int>, k: nat, q: nat)
    requires k < |xs| == |ys| && Prime(q) && DistinctModulo(xs, q)
    ensures Same(Weight(ys, xs, k, q) * Product(Without(xs, k), xs[k]), ys[k], q)
  {
    var d := Product(Without(xs, k), xs[k]);
    forall j | 0 <= j < |xs| - 1 ensures !Same(xs[k], Without(xs, k)[j], q) {
      NotSameSymmetric(xs, k, if j < k then j else j + 1, q);
    }
    ProductAwayFromRoots(Without(xs, k), xs[k], q);
    InverseWorks(d, q);
    ZeroTimes(d * Inverse(d, q) - 1, ys[k], q);
    assert ys[k] * (d * Inverse(d, q) - 1) == ys[k] * Inverse(d, q) * d - ys[k] by {
      assert ys[k] * (d * Inverse(d, q)) == ys[k] * Inverse(d, q) * d;
    }
  }

  lemma NotSameSymmetric(xs: seq<int>, i: nat, j: nat, q: nat)
    requires i < |xs| && j < |xs| && i != j && q > 0 && DistinctModulo(xs, q)
    ensures !Same(xs[i], xs[j], q)
  {
    SameResidue(xs[i], xs[j], q);
    SameResidue(xs[j], xs[i], q);
  }

  lemma OtherTerm(xs: seq<int>, i: nat, k: nat)
    requires i < |xs| && k < |xs| && i != k
    ensures Product(Without(xs, i), xs[k]) == 0
  {
    ProductAtRoot(Without(xs, i), if k < i then k else k - 1);
  }

  lemma OneMoreTerm(ys: seq<int>, xs: seq<int>, n: nat, k: nat, q: nat)
    requires 0 < n <= |xs| == |ys| && k < |xs| && Prime(q) && DistinctModulo(xs, q)
    requires Same(Terms(ys, xs, n - 1, xs[k], q), if k < n - 1 then ys[k] else 0, q)
    ensures Same(Terms(ys, xs, n, xs[k], q), if k < n then ys[k] else 0, q)
  {
    var before := Terms(ys, xs, n - 1, xs[k], q);
    var t := Weight(ys, xs, n - 1, q) * Product(Without(xs, n - 1), xs[k]);
    assert Terms(ys, xs, n, xs[k], q) == before + t;
    hide Terms, Zero, Weight, Product, Without, Prime, DistinctModulo;
    if k == n - 1 {
      OwnTerm(ys, xs, k, q);
      ZeroSum(before - 0, t - ys[k], q);
    } else {
      OtherTerm(xs, n - 1, k);
      assert t == 0;
    }
  }

  lemma {:induction false} TermsAtNode(ys: seq<int>, xs: seq<int>, n: nat, k: nat, q: nat)
    requires n <= |xs| == |ys| && k < |xs| && Prime(q) && DistinctModulo(xs, q)
    ensures Same(Terms(ys, xs, n, xs[k], q), if k < n then ys[k] else 0, q)
  {
    if n == 0 {
      Multiple(0, q);
    } else {
      TermsAtNode(ys, xs, n - 1, k, q);
      OneMoreTerm(ys, xs, n, k, q);
    }
  }

  /** `p` runs through the points (xs[i], ys[i]), modulo q. */
  ghost predicate Through(p: Poly, xs: seq<int>, ys: seq<int>, q: nat)
    requires |xs| == |ys| && q > 0
  {
    forall i :: 0 <= i < |xs| ==> Same(Eval(p, xs[i]), ys[i], q)
  }

  lemma LagrangeThrough(ys: seq<int>, xs: seq<int>, q: nat)
    requires |xs| == |ys| && Prime(q) && DistinctModulo(xs, q)
    ensures Through(LagrangePoly(ys, xs, |xs|, q), xs, ys, q)
  {
    forall i | 0 <= i < |xs| ensures Same(Eval(LagrangePoly(ys, xs, |xs|, q), xs[i]), ys[i], q) {
      LagrangePolyEval(ys, xs, |xs|, xs[i], q);
      TermsAtNode(ys, xs, |xs|, i, q);
    }
  }

  function Difference(p: Poly, r: Poly): (s: Poly)
    ensures |s| == if |p| > |r| then |p| else |r|
  {
    Sum(p, Scale(-1, r))
  }

  lemma DifferenceEval(p: Poly, r: Poly, x: int)
    ensures Eval(Difference(p, r), x) == Eval(p, x) - Eval(r, x)
  {
    SumEval(p, Scale(-1, r), x);
    ScaleEval(-1, r, x);
  }

  /** Two polynomials through the same points, with no more coefficients than points, differ by zero. */
  lemma DifferenceVanishes(p: Poly, r: Poly, xs: seq<int>, ys: seq<int>, q: nat)
    requires |xs| == |ys| && Prime(q) && DistinctModulo(xs, q)
    requires |p| <= |xs| && |r| <= |xs| && Through(p, xs, ys, q) && Through(r, xs, ys, q)
    ensures AllZero(Difference(p, r), q)
  {
    forall i | 0 <= i < |xs| ensures Zero(Eval(Difference(p, r), xs[i]), q) {
      DifferenceEval(p, r, xs[i]);
      ZeroSum(Eval(p, xs[i]) - ys[i], Eval(r, xs[i]) - ys[i], q);
    }
    TooManyRoots(Difference(p, r), xs, q);
  }

  /** Interpolation through at least as many distinct points as the polynomial has coefficients gives the
      polynomial's value everywhere: the number and the order of the points do not matter. */
  lemma InterpolationIsExact(p: Poly, xs: seq<int>, ys: seq<int>, x: int, q: nat)
    requires |xs| == |ys| && Prime(q) && DistinctModulo(xs, q)
    requires |p| <= |xs| && Through(p, xs, ys, q)
    ensures Interpolate(x, ys, xs, q) == Eval(p, x) % q
  {
    hide Eval, Zero, LagrangePoly, Terms, AllZero, Through, DistinctModulo;
    var r := LagrangePoly(ys, xs, |xs|, q);
    LagrangeThrough(ys, xs, q);
    DifferenceVanishes(p, r, xs, ys, q);
    ZeroCoefficients(Difference(p, r), x, q);
    DifferenceEval(p, r, x);
    LagrangePolyEval(ys, xs, |xs|, x, q);
    SameResidue(Eval(p, x), Eval(r, x), q);
  }

  // ---- Coefficients as residues ----

  ghost predicate Reduced(p: Poly, q: nat) {
    forall i :: 0 <= i < |p| ==> 0 <= p[i] < q
  }

  function Reduce(p: Poly, q: nat): (r: Poly)
    requires q > 0
    ensures |r| == |p| && forall i :: 0 <= i < |p| ==> r[i] == p[i] % q
  {
    seq(|p|, i requires 0 <= i < |p| => p[i] % q)
  }

  lemma {:induction false} ReduceEval(p: Poly, x: int, q: nat)
    requires q > 0
    ensures Same(Eval(Reduce(p, q), x), Eval(p, x), q)
  {
    if p == [] {
      Multiple(0, q);
    } else {
      var rest, reduced := Eval(p[1..], x), Eval(Reduce(p[1..], q), x);
      assert Reduce(p, q)[1..] == Reduce(p[1..], q);
      ReduceEval(p[1..], x, q);
      ZeroTimes(reduced - rest, x, q);
      assert x * (reduced - rest) == x * reduced - x * rest;
      ResidueIsSame(p[0], q);
      ZeroSum(p[0] % q - p[0], x * reduced - x * rest, q);
    }
  }

  lemma {:induction false} SumAt(p: Poly, r: Poly, i: nat)
    requires |p| == |r| && i < |p|
    ensures Sum(p, r)[i] == p[i] + r[i]
  {
    if i > 0 {
      SumAt(p[1..], r[1..], i - 1);
    }
  }

  lemma ReducedUnique(p: Poly, r: Poly, q: nat)
    requires q > 0 && |p| == |r| && Reduced(p, q) && Reduced(r, q) && AllZero(Difference(p, r), q)
    ensures p == r
  {
    forall i | 0 <= i < |p| ensures p[i] == r[i] {
      SumAt(p, Scale(-1, r), i);
      SameResidue(p[i], r[i], q);
      SmallResidue(p[i], q);
      SmallResidue(r[i], q);
    }
  }
}
