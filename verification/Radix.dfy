/** Big-endian positional numbers: the meaning of bit regrouping, of fixed-width scalars and of
    the codecs built on them. */
module Radix {
  import opened Arith

  function Pow(base: nat, n: nat): (p: nat)
  {
    if n == 0 then 1 else base * Pow(base, n - 1)
  }

  function Pow2(n: nat): nat {
    Pow(2, n)
  }

  /** The number written by the digits `ds`, most significant digit first. */
  function Value(ds: seq<nat>, base: nat): nat {
    if ds == [] then 0 else Value(ds[..|ds| - 1], base) * base + ds[|ds| - 1]
  }

  ghost predicate AreDigits(ds: seq<nat>, base: nat) {
    forall i :: 0 <= i < |ds| ==> ds[i] < base
  }

  /** The `len` least significant base-`base` digits of `v`, most significant first. */
  function ToDigits(v: nat, base: nat, len: nat): (ds: seq<nat>)
    requires base > 0
    ensures |ds| == len
    ensures AreDigits(ds, base)
    decreases len
  {
    if len == 0 then []
    else
      DivNonNegative(v, base);
      ToDigits(v / base, base, len - 1) + [v % base]
  }

  function Zeros(n: nat): (z: seq<nat>)
    ensures |z| == n
    ensures forall i :: 0 <= i < n ==> z[i] == 0
  {
    seq<nat>(n, i => 0)
  }

  // ---- Division and powers ----

  lemma {:induction false} PowPositive(base: nat, n: nat)
    requires base > 0
    ensures Pow(base, n) > 0
  {
    if n > 0 {
      PowPositive(base, n - 1);
    }
  }

  lemma {:induction false} PowAdd(base: nat, m: nat, n: nat)
    ensures Pow(base, m + n) == Pow(base, m) * Pow(base, n)
  {
    if m > 0 {
      PowAdd(base, m - 1, n);
      Associate(base, Pow(base, m - 1), Pow(base, n));
    }
  }

  lemma {:induction false} PowMul(base: nat, m: nat, n: nat)
    ensures Pow(Pow(base, m), n) == Pow(base, m * n)
  {
    if n > 0 {
      PowMul(base, m, n - 1);
      Successor(n - 1, m);
      Commute(m, n - 1);
      Commute(m, n);
      MulNonNegative(m, n - 1);
      PowAdd(base, m, m * (n - 1));
    }
  }

  // ---- Digits and values ----

  /** A numeral of n digits stays below base^n. */
  lemma {:induction false} ValueBound(ds: seq<nat>, base: nat)
    requires base > 0 && AreDigits(ds, base)
    ensures Value(ds, base) < Pow(base, |ds|)
  {
    if ds != [] {
      var front, last := ds[..|ds| - 1], ds[|ds| - 1];
      ValueBound(front, base);
      MulMono(Value(front, base) + 1, Pow(base, |front|), base);
      assert (Value(front, base) + 1) * base == Value(front, base) * base + base;
    }
  }

  lemma {:induction false} ValueAppend(ds: seq<nat>, d: nat, base: nat)
    ensures Value(ds + [d], base) == Value(ds, base) * base + d
  {
    assert (ds + [d])[..|ds|] == ds;
  }

  lemma {:induction false} ValueConcat(a: seq<nat>, b: seq<nat>, base: nat)
    ensures Value(a + b, base) == Value(a, base) * Pow(base, |b|) + Value(b, base)
  {
    if b == [] {
      assert a + b == a;
    } else {
      var front, last := b[..|b| - 1], b[|b| - 1];
      assert a + b == (a + front) + [last];
      ValueAppend(a + front, last, base);
      ValueConcat(a, front, base);
      Distribute(Value(a, base), Pow(base, |front|), Value(front, base), base);
    }
  }

  /** A numeral of fixed width has one spelling. */
  lemma {:induction false} ValueInjective(a: seq<nat>, b: seq<nat>, base: nat)
    requires |a| == |b| && base > 0
    requires AreDigits(a, base) && AreDigits(b, base)
    requires Value(a, base) == Value(b, base)
    ensures a == b
  {
    if a != [] {
      var n := |a| - 1;
      DivModUnique(Value(a, base), base, Value(a[..n], base), a[n]);
      DivModUnique(Value(b, base), base, Value(b[..n], base), b[n]);
      ValueInjective(a[..n], b[..n], base);
      assert a == a[..n] + [a[n]] && b == b[..n] + [b[n]];
    }
  }

  lemma {:induction false} ToDigitsValue(v: nat, base: nat, len: nat)
    requires base > 0 && v < Pow(base, len)
    ensures Value(ToDigits(v, base, len), base) == v
    decreases len
  {
    if len > 0 {
      DivNonNegative(v, base);
      QuotientBelow(v, base, Pow(base, len - 1));
      ToDigitsValue(v / base, base, len - 1);
      ValueAppend(ToDigits(v / base, base, len - 1), v % base, base);
      DivModIdentity(v, base);
      calc {
        Value(ToDigits(v, base, len), base);
        Value(ToDigits(v / base, base, len - 1) + [v % base], base);
        Value(ToDigits(v / base, base, len - 1), base) * base + v % base;
        (v / base) * base + v % base;
        v;
      }
    }
  }

  lemma {:induction false} ValueToDigits(ds: seq<nat>, base: nat)
    requires base > 0 && AreDigits(ds, base)
    ensures ToDigits(Value(ds, base), base, |ds|) == ds
  {
    ValueBound(ds, base);
    ToDigitsValue(Value(ds, base), base, |ds|);
    ValueInjective(ToDigits(Value(ds, base), base, |ds|), ds, base);
  }

  /** The digits of a number that is put together from a high and a low part. */
  lemma {:induction false} ToDigitsSplit(high: nat, low: nat, base: nat, m: nat, n: nat)
    requires base > 0 && low < Pow(base, n)
    ensures high * Pow(base, n) + low >= 0
    ensures ToDigits(high * Pow(base, n) + low, base, m + n) == ToDigits(high, base, m) + ToDigits(low, base, n)
    decreases n
  {
    MulNonNegative(high, Pow(base, n));
    if n > 0 {
      var p := Pow(base, n - 1);
      QuotientBelow(low, base, p);
      DivModIdentity(low, base);
      Commute(base, p);
      Distribute(high, p, low / base, base);
      DivModUnique(high * Pow(base, n) + low, base, high * p + low / base, low % base);
      ToDigitsSplit(high, low / base, base, m, n - 1);
    }
  }
}
