/** What the checksum register computes: the remainder of a polynomial over GF(32), divided by the
    generator polynomial that BIP-173 names in its section "Checksum". The five constants of the
    source are thereby derived instead of taken on trust. */
module Bch {
  import opened Arith
  import opened Radix
  import opened Xor
  import opened Polymod

  // ---- GF(32) = GF(2)[z] / (z^5 + z^3 + 1), addition is BitXor ----

  /** Multiplication by z. */
  function TimesZ(a: nat): nat {
    if a < 16 then 2 * a else BitXor(2 * a, 0x29)
  }

  /** b, b z, b z^2, b z^3, b z^4. */
  function Multiples(b: nat): seq<nat> {
    [b, TimesZ(b), TimesZ(TimesZ(b)), TimesZ(TimesZ(TimesZ(b))), TimesZ(TimesZ(TimesZ(TimesZ(b))))]
  }

  function Times(a: nat, b: nat): nat {
    Select(Multiples(b), a, 5)
  }

  // ---- Polynomials, leading coefficient first ----

  /** The generator x^6 + 29 x^5 + 22 x^4 + 20 x^3 + 21 x^2 + 29 x + 18 without its leading 1. */
  const GENERATOR: seq<nat> := [29, 22, 20, 21, 29, 18]

  /** One step of long division: cancel the leading coefficient with a multiple of the generator. */
  function CancelLead(p: seq<nat>): (q: seq<nat>)
    requires |p| > 6
    ensures |q| == |p| - 1
  {
    seq<nat>(|p| - 1, i requires 0 <= i < |p| - 1 =>
      if i < 6 then BitXor(p[i + 1], Times(p[0], GENERATOR[i])) else p[i + 1])
  }

  function Remainder(p: seq<nat>): seq<nat>
    decreases |p|
  {
    if |p| <= 6 then p else Remainder(CancelLead(p))
  }

  // ---- The register holds the remainder ----

  /** Adding z^2 flips its coefficient. */
  lemma FlipFour(u: nat, r: nat, t: nat, q: nat)
    requires r < 2 && t < 2 && q < 2
    ensures BitXor(8 * u + 4 * r + 2 * t + q, 4) == 8 * u + 4 * (1 - r) + 2 * t + q
  {
    hide BitXor;
    XorNothing(u);
    XorDouble(u, 0, r, 1);
    XorDouble(2 * u + r, 1, t, 0);
    XorDouble(2 * (2 * u + r) + t, 2, q, 0);
    assert 2 * (2 * (2 * u + r) + t) + q == 8 * u + 4 * r + 2 * t + q;
  }

  /** Multiplying an element of degree four, given by its lower coefficients, by z. */
  lemma Wraps(u: nat, r: nat, t: nat, q: nat)
    requires u < 2 && r < 2 && t < 2 && q < 2
    ensures TimesZ(16 + 8 * u + 4 * r + 2 * t + q) == 2 * (8 * u + 4 * (1 - r) + 2 * t + q) + 1
  {
    hide BitXor;
    var b := 8 * u + 4 * r + 2 * t + q;
    XorDouble(16 + b, 20, 0, 1);
    assert Pow2(4) == 16;
    XorItself(1);
    XorSplit(1, 1, 4, b, 4);
    FlipFour(u, r, t, q);
  }

  lemma MultiplesAre(b: nat, b1: nat, b2: nat, b3: nat, b4: nat)
    requires TimesZ(b) == b1 && TimesZ(b1) == b2 && TimesZ(b2) == b3 && TimesZ(b3) == b4
    ensures Multiples(b) == [b, b1, b2, b3, b4]
  {
    hide TimesZ;
  }

  lemma MultiplesOf29()
    ensures Multiples(29) == [29, 19, 15, 30, 21]
  {
    assert TimesZ(15) == 30;
    hide TimesZ, Multiples;
    Wraps(1, 1, 0, 1);
    Wraps(0, 0, 1, 1);
    Wraps(1, 1, 1, 0);
    MultiplesAre(29, 19, 15, 30, 21);
  }

  lemma MultiplesOf22()
    ensures Multiples(22) == [22, 5, 10, 20, 1]
  {
    assert TimesZ(5) == 10 && TimesZ(10) == 20;
    hide TimesZ, Multiples;
    Wraps(0, 1, 1, 0);
    Wraps(0, 1, 0, 0);
    MultiplesAre(22, 5, 10, 20, 1);
  }

  lemma MultiplesOf20()
    ensures Multiples(20) == [20, 1, 2, 4, 8]
  {
    assert TimesZ(1) == 2 && TimesZ(2) == 4 && TimesZ(4) == 8;
    hide TimesZ, Multiples;
    Wraps(0, 1, 0, 0);
    MultiplesAre(20, 1, 2, 4, 8);
  }

  lemma MultiplesOf21()
    ensures Multiples(21) == [21, 3, 6, 12, 24]
  {
    assert TimesZ(3) == 6 && TimesZ(6) == 12 && TimesZ(12) == 24;
    hide TimesZ, Multiples;
    Wraps(0, 1, 0, 1);
    MultiplesAre(21, 3, 6, 12, 24);
  }

  lemma MultiplesOf18()
    ensures Multiples(18) == [18, 13, 26, 29, 19]
  {
    assert TimesZ(13) == 26;
    hide TimesZ, Multiples;
    Wraps(0, 0, 1, 0);
    Wraps(1, 0, 1, 0);
    Wraps(1, 1, 0, 1);
    MultiplesAre(18, 13, 26, 29, 19);
  }

  lemma PowersOf32()
    ensures Pow2(0) == 1 && Pow2(5) == 32 && Pow2(10) == 0x400
    ensures Pow2(15) == 0x8000 && Pow2(20) == 0x10_0000 && Pow2(25) == 0x200_0000
  {
    Constants();
    PowAdd(2, 10, 5);
    PowAdd(2, 10, 10);
  }

  /** One symbol column of the five constants, `p` being its weight. */
  lemma Column(k: nat, p: nat)
    requires Pow2(5 * k) == p && p > 0
    ensures LowSymbols(GENERATORS, k)
         == [(0x3b6a57b2 / p) % 32, (0x26508e6d / p) % 32, (0x1ea119fa / p) % 32, (0x3d4233dd / p) % 32,
             (0x2a1462b3 / p) % 32]
  {
    hide Pow2;
  }

  lemma Column29Top()
    ensures LowSymbols(GENERATORS, 5) == [29, 19, 15, 30, 21]
  {
    hide LowSymbols, Pow2;
    PowersOf32();
    Column(5, 0x200_0000);
  }

  lemma Column29()
    ensures LowSymbols(GENERATORS, 1) == [29, 19, 15, 30, 21]
  {
    hide LowSymbols, Pow2;
    PowersOf32();
    Column(1, 32);
  }

  lemma Column22()
    ensures LowSymbols(GENERATORS, 4) == [22, 5, 10, 20, 1]
  {
    hide LowSymbols, Pow2;
    PowersOf32();
    Column(4, 0x10_0000);
  }

  lemma Column20()
    ensures LowSymbols(GENERATORS, 3) == [20, 1, 2, 4, 8]
  {
    hide LowSymbols, Pow2;
    PowersOf32();
    Column(3, 0x8000);
  }

  lemma Column21()
    ensures LowSymbols(GENERATORS, 2) == [21, 3, 6, 12, 24]
  {
    hide LowSymbols, Pow2;
    PowersOf32();
    Column(2, 0x400);
  }

  lemma Column18()
    ensures LowSymbols(GENERATORS, 0) == [18, 13, 26, 29, 19]
  {
    hide LowSymbols, Pow2;
    PowersOf32();
    Column(0, 1);
  }

  /** Every symbol column of the source's five constants is a row of multiples of one coefficient. */
  lemma ConstantsAreMultiples(i: nat)
    requires i < 6
    ensures LowSymbols(GENERATORS, 5 - i) == Multiples(GENERATOR[i])
  {
    hide LowSymbols, Multiples;
    if i == 0 {
      MultiplesOf29();
      Column29Top();
    } else if i == 4 {
      MultiplesOf29();
      Column29();
    } else if i == 1 {
      MultiplesOf22();
      Column22();
    } else if i == 2 {
      MultiplesOf20();
      Column20();
    } else if i == 3 {
      MultiplesOf21();
      Column21();
    } else {
      MultiplesOf18();
      Column18();
    }
  }

  function SymbolAt(chk: nat, k: nat): nat {
    PowPositive(2, 5 * k);
    DivNonNegative(chk, Pow2(5 * k));
    (chk / Pow2(5 * k)) % 32
  }

  /** The six symbols of the register, top symbol first. */
  function Symbols(chk: nat): (w: seq<nat>)
    ensures |w| == 6
  {
    seq<nat>(6, i requires 0 <= i < 6 => SymbolAt(chk, 5 - i))
  }

  lemma SymbolOfXor(x: nat, y: nat, k: nat)
    ensures SymbolAt(BitXor(x, y), k) == BitXor(SymbolAt(x, k), SymbolAt(y, k))
  {
    XorSymbol(x, y, k);
  }

  lemma SymbolOfFeedback(chk: nat, k: nat)
    requires chk < REGISTER && k < 6
    ensures SymbolAt(Feedback(chk / FIVE_SYMBOLS), k) == Times(SymbolAt(chk, 5), GENERATOR[5 - k])
  {
    PowersOf32();
    assert SymbolAt(chk, 5) == chk / FIVE_SYMBOLS;
    SelectSymbol(GENERATORS, chk / FIVE_SYMBOLS, 5, k);
    ConstantsAreMultiples(5 - k);
  }

  lemma SymbolOfShifted(chk: nat, k: nat)
    requires k < 6
    ensures SymbolAt((chk % FIVE_SYMBOLS) * 32, k) == if k == 0 then 0 else SymbolAt(chk, k - 1)
  {
    if k == 0 {
      LowestSymbol((chk % FIVE_SYMBOLS) * 32);
    } else {
      ShiftedSymbol(chk % FIVE_SYMBOLS, k);
      SymbolBelow(chk, k - 1);
    }
  }

  lemma LowestSymbol(x: nat)
    ensures SymbolAt(x, 0) == x % 32
  {
    assert Pow2(5 * 0) == 1;
  }

  lemma ShiftedSymbol(x: nat, k: nat)
    requires k > 0
    ensures SymbolAt(x * 32, k) == SymbolAt(x, k - 1)
  {
    assert Pow2(5) == 32;
    hide Pow2;
    PowPositive(2, 5 * (k - 1));
    PowAdd(2, 5, 5 * (k - 1));
    DivDiv(x * 32, 32, Pow2(5 * (k - 1)));
    DivModUnique(x * 32, 32, x, 0);
  }

  /** Dropping the top symbol leaves the others. */
  lemma SymbolBelow(chk: nat, k: nat)
    requires k < 5
    ensures SymbolAt(chk % FIVE_SYMBOLS, k) == SymbolAt(chk, k)
  {
    PowersOf32();
    var top := chk / FIVE_SYMBOLS;
    if k == 0 {
      DigitShift(chk % FIVE_SYMBOLS, 1, 32, top * 0x10_0000);
    } else if k == 1 {
      DigitShift(chk % FIVE_SYMBOLS, 32, 32, top * 0x8000);
    } else if k == 2 {
      DigitShift(chk % FIVE_SYMBOLS, 0x400, 32, top * 0x400);
    } else if k == 3 {
      DigitShift(chk % FIVE_SYMBOLS, 0x8000, 32, top * 32);
    } else {
      DigitShift(chk % FIVE_SYMBOLS, 0x10_0000, 32, top);
    }
  }

  lemma SymbolOfSymbol(value: nat, k: nat)
    requires value < 32
    ensures SymbolAt(value, k) == if k == 0 then value else 0
  {
    PowersOf32();
    if k > 0 {
      PowMonotone(2, 5, 5 * k);
      DivModUnique(value, Pow2(5 * k), 0, value);
    }
  }

  /** One step of the register, seen in the symbol of weight k. */
  lemma StepSymbol(chk: nat, value: nat, k: nat)
    requires chk < REGISTER && value < 32 && k < 6
    ensures SymbolAt(Step(chk, value), k) ==
      BitXor(if k == 0 then value else SymbolAt(chk, k - 1), Times(SymbolAt(chk, 5), GENERATOR[5 - k]))
  {
    var shifted := (chk % FIVE_SYMBOLS) * 32;
    var feedback := Feedback(chk / FIVE_SYMBOLS);
    SymbolOfXor(BitXor(shifted, value), feedback, k);
    SymbolOfXor(shifted, value, k);
    SymbolOfShifted(chk, k);
    SymbolOfSymbol(value, k);
    SymbolOfFeedback(chk, k);
    XorNothing(SymbolAt(shifted, k));
    XorNothing(value);
  }

  lemma CancelledSymbol(chk: nat, value: nat, rest: seq<nat>, i: nat)
    requires chk < REGISTER && value < 32 && i < 6
    ensures CancelLead(Symbols(chk) + [value] + rest)[i] == Symbols(Step(chk, value))[i]
  {
    StepSymbol(chk, value, 5 - i);
    hide SymbolAt, Step, Times, BitXor;
  }

  /** Cancelling the leading coefficient of register ++ [value] ++ rest is a step of the register. */
  lemma StepCancelsLead(chk: nat, value: nat, rest: seq<nat>)
    requires chk < REGISTER && value < 32
    ensures CancelLead(Symbols(chk) + [value] + rest) == Symbols(Step(chk, value)) + rest
  {
    var p, next := Symbols(chk) + [value] + rest, Symbols(Step(chk, value));
    forall i | 0 <= i < 6
      ensures CancelLead(p)[i] == next[i]
    {
      CancelledSymbol(chk, value, rest, i);
    }
    RestStays(Symbols(chk), value, rest);
    hide CancelLead, Symbols, Step;
    assert CancelLead(p)[6..] == rest;
    assert CancelLead(p)[..6] == next;
    assert CancelLead(p) == CancelLead(p)[..6] + CancelLead(p)[6..];
  }

  lemma RestStays(register: seq<nat>, value: nat, rest: seq<nat>)
    requires |register| == 6
    ensures CancelLead(register + [value] + rest)[6..] == rest
  {
    hide Times, BitXor;
  }

  lemma {:induction false} FoldIsRemainder(chk: nat, values: seq<nat>)
    requires chk < REGISTER && AreSymbols(values)
    ensures Symbols(Fold(chk, values)) == Remainder(Symbols(chk) + values)
    decreases |values|
  {
    if values == [] {
      assert Symbols(chk) + values == Symbols(chk);
    } else {
      var value, rest := values[0], values[1..];
      FoldFirst(chk, values);
      StepFits(chk, value);
      FoldIsRemainder(Step(chk, value), rest);
      StepCancelsLead(chk, value, rest);
      SplitFirst(Symbols(chk), values);
    }
  }

  lemma SplitFirst(a: seq<nat>, b: seq<nat>)
    requires b != []
    ensures a + b == a + [b[0]] + b[1..]
  {
  }

  lemma FoldFirst(chk: nat, values: seq<nat>)
    requires values != []
    ensures Fold(chk, values) == Fold(Step(chk, values[0]), values[1..])
  {
    assert values == [values[0]] + values[1..];
    FoldConcat(chk, [values[0]], values[1..]);
    assert [values[0]][..0] == [];
  }

  /** polymod(values) is the remainder of x^n + values, n the number of symbols. */
  lemma PolymodIsRemainder(values: seq<nat>)
    requires AreSymbols(values)
    ensures Symbols(Fold(1, values)) == Remainder([0, 0, 0, 0, 0, 1] + values)
  {
    forall i | 0 <= i < 6
      ensures Symbols(1)[i] == if i == 5 then 1 else 0
    {
      SymbolOfSymbol(1, 5 - i);
    }
    assert Symbols(1) == [0, 0, 0, 0, 0, 1];
    FoldIsRemainder(1, values);
  }
}
