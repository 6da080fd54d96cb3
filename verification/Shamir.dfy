/** Threshold sharing of a scalar modulo a prime, the way share_threshold and lagrange_interpolate are used
    by the backup code of cpp/src/bridge.cpp. */
module Shamir {
  import opened Common
  import opened Modular
  import opened Polynomial

  /** The shares of `secret`: the values, at the participants' ids, of the polynomial that starts with the
      secret and goes on with the random coefficients. */
  function ShareValues(secret: nat, coefficients: seq<nat>, pids: seq<int>, q: nat): (values: seq<nat>)
    requires q > 0
    ensures |values| == |pids|
    ensures forall i :: 0 <= i < |pids| ==> values[i] == Eval([secret] + coefficients, pids[i]) % q
    ensures forall i :: 0 <= i < |pids| ==> values[i] < q
  {
    seq<nat>(|pids|, i requires 0 <= i < |pids| => Eval([secret] + coefficients, pids[i]) % q)
  }

  lemma SharesLieOnPolynomial(secret: nat, coefficients: seq<nat>, pids: seq<int>, q: nat)
    requires q > 0
    ensures Through([secret] + coefficients, pids, ShareValues(secret, coefficients, pids, q), q)
  {
    hide Eval, Same;
    forall i | 0 <= i < |pids|
      ensures Same(Eval([secret] + coefficients, pids[i]), ShareValues(secret, coefficients, pids, q)[i], q)
    {
      ResidueIsSame(Eval([secret] + coefficients, pids[i]), q);
    }
  }

  /** Any shares with distinct ids, at least as many as the threshold, give back the secret: all of them are
      interpolated, and neither their order nor their number matters. */
  lemma AnyQuorumRecovers(secret: nat, coefficients: seq<nat>, pids: seq<int>, q: nat)
    requires Prime(q) && secret < q && DistinctModulo(pids, q)
    requires |coefficients| + 1 <= |pids|
    ensures Interpolate(0, ShareValues(secret, coefficients, pids, q), pids, q) == secret
  {
    var p := [secret] + coefficients;
    SharesLieOnPolynomial(secret, coefficients, pids, q);
    InterpolationIsExact(p, pids, ShareValues(secret, coefficients, pids, q), 0, q);
    assert Eval(p, 0) == secret;
    SmallResidue(secret, q);
  }

  /** `coefficients` explains the given shares for the given candidate secret. */
  ghost predicate Explains(coefficients: seq<nat>, candidate: nat, pids: seq<int>, values: seq<nat>, q: nat)
    requires q > 0
  {
    |coefficients| == |pids| && Reduced(coefficients, q) && ShareValues(candidate, coefficients, pids, q) == values
  }

  lemma ZeroAndPids(pids: seq<int>, q: nat)
    requires q > 0 && DistinctModulo(pids, q) && forall i :: 0 <= i < |pids| ==> !Zero(pids[i], q)
    ensures DistinctModulo([0] + pids, q)
  {
    hide Zero;
    forall j | 0 <= j < |pids| ensures !Same(0, pids[j], q) {
      if Zero(0 - pids[j], q) {
        ZeroTimes(0 - pids[j], -1, q);
      }
    }
  }

  lemma ThroughOnePointMore(p: Poly, x: int, y: int, xs: seq<int>, ys: seq<int>, q: nat)
    requires q > 0 && |xs| == |ys|
    ensures Through(p, [x] + xs, [y] + ys, q) <==> Same(Eval(p, x), y, q) && Through(p, xs, ys, q)
  {
    hide Eval, Same;
    if Through(p, [x] + xs, [y] + ys, q) {
      assert ([x] + xs)[0] == x && ([y] + ys)[0] == y;
      forall i | 0 <= i < |xs| ensures Same(Eval(p, xs[i]), ys[i], q) {
        assert ([x] + xs)[i + 1] == xs[i] && ([y] + ys)[i + 1] == ys[i];
      }
    }
  }

  /** A sharing polynomial of the candidate secret runs through the point (0, candidate) and the shares. */
  lemma ExplainsIsThrough(coefficients: seq<nat>, candidate: nat, pids: seq<int>, values: seq<nat>, q: nat)
    requires q > 0 && candidate < q && |values| == |pids| == |coefficients| && Reduced(coefficients, q)
    requires forall i :: 0 <= i < |values| ==> values[i] < q
    ensures Explains(coefficients, candidate, pids, values, q)
       <==> Through([candidate] + coefficients, [0] + pids, [candidate] + values, q)
  {
    hide Eval, Zero, Reduced;
    var p := [candidate] + coefficients;
    ValueAtOrigin(candidate, coefficients, q);
    ThroughOnePointMore(p, 0, candidate, pids, values, q);
    SharesLieOnPolynomial(candidate, coefficients, pids, q);
    if Through(p, pids, values, q) {
      forall i | 0 <= i < |pids| ensures ShareValues(candidate, coefficients, pids, q)[i] == values[i] {
        SameResidue(Eval(p, pids[i]), values[i], q);
        SmallResidue(values[i], q);
      }
    }
  }

  lemma ValueAtOrigin(candidate: nat, coefficients: seq<nat>, q: nat)
    requires q > 0
    ensures Same(Eval([candidate] + coefficients, 0), candidate, q)
  {
    Multiple(0, q);
  }

  /** The threshold is exact: whatever one share less than the threshold says, every candidate secret is
      explained by exactly one choice of random coefficients. */
  lemma BelowThresholdNothingIsKnown(candidate: nat, pids: seq<int>, values: seq<nat>, q: nat)
    returns (coefficients: seq<nat>)
    requires Prime(q) && candidate < q && |values| == |pids| && DistinctModulo(pids, q)
    requires forall i :: 0 <= i < |pids| ==> !Zero(pids[i], q)
    requires forall i :: 0 <= i < |values| ==> values[i] < q
    ensures Explains(coefficients, candidate, pids, values, q)
    ensures forall other :: Explains(other, candidate, pids, values, q) ==> other == coefficients
  {
    var xs, ys := [0] + pids, [candidate] + values;
    var p := ThroughOrigin(candidate, pids, values, q);
    coefficients := p[1..];
    assert p == [candidate] + coefficients;
    ExplainsIsThrough(coefficients, candidate, pids, values, q);
    forall other | Explains(other, candidate, pids, values, q) ensures other == coefficients {
      ExplainsIsThrough(other, candidate, pids, values, q);
      ZeroAndPids(pids, q);
      DifferenceVanishes([candidate] + other, p, xs, ys, q);
      ReducedUnique([candidate] + other, p, q);
      assert ([candidate] + other)[1..] == other;
    }
  }

  lemma ThroughOrigin(candidate: nat, pids: seq<int>, values: seq<nat>, q: nat) returns (p: seq<nat>)
    requires Prime(q) && candidate < q && |values| == |pids| && DistinctModulo(pids, q)
    requires forall i :: 0 <= i < |pids| ==> !Zero(pids[i], q)
    ensures |p| == |pids| + 1 && Reduced(p, q) && p[0] == candidate
    ensures Through(p, [0] + pids, [candidate] + values, q)
  {
    var xs, ys := [0] + pids, [candidate] + values;
    ZeroAndPids(pids, q);
    var lagrange := LagrangePoly(ys, xs, |xs|, q);
    LagrangeThrough(ys, xs, q);
    p := Reduce(lagrange, q);
    hide Zero, Eval, LagrangePoly;
    forall i | 0 <= i < |xs| ensures Same(Eval(p, xs[i]), ys[i], q) {
      ReduceEval(lagrange, xs[i], q);
      ZeroSum(Eval(p, xs[i]) - Eval(lagrange, xs[i]), Eval(lagrange, xs[i]) - ys[i], q);
    }
    FirstCoefficient(p, candidate, q);
  }

  lemma FirstCoefficient(p: seq<nat>, candidate: nat, q: nat)
    requires |p| > 0 && Reduced(p, q) && candidate < q && Same(Eval(p, 0), candidate, q)
    ensures p[0] == candidate
  {
    SameResidue(p[0], candidate, q);
    SmallResidue(p[0], q);
    SmallResidue(candidate, q);
  }
}
