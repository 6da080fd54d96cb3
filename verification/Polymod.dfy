/** The Bech32 checksum register (packages/coordinator-node/src/cosmos/address.ts). */
module Polymod {
  import opened Arith
  import opened Radix
  import opened JsInt32
  import opened Xor

  const GENERATORS: seq<nat> := [0x3b6a57b2, 0x26508e6d, 0x1ea119fa, 0x3d4233dd, 0x2a1462b3]

  /** The register holds six symbols of five bits. */
  const REGISTER: nat := 0x4000_0000

  const FIVE_SYMBOLS: nat := 0x200_0000

  // ---- Specification: an unsigned recurrence ----

  function BitAt(top: nat, i: nat): nat {
    PowPositive(2, i);
    (top / Pow2(i)) % 2
  }

  function Chosen(bit: nat, g: nat): nat {
    if bit == 1 then g else 0
  }

  /** The exclusive or of those of the first n entries of `gs` that the bits of `top` select. */
  function Select(gs: seq<nat>, top: nat, n: nat): nat
    requires n <= |gs|
  {
    if n == 0 then 0
    else BitXor(Select(gs, top, n - 1), Chosen(BitAt(top, n - 1), gs[n - 1]))
  }

  /** The sum of the generators that the bits of the symbol shifted out select. */
  function Feedback(top: nat): nat {
    Select(GENERATORS, top, |GENERATORS|)
  }

  function Step(chk: nat, value: nat): nat {
    BitXor(BitXor((chk % FIVE_SYMBOLS) * 32, value), Feedback(chk / FIVE_SYMBOLS))
  }

  /** The register after `values`, started at `chk`. */
  function Fold(chk: nat, values: seq<nat>): nat {
    if values == [] then chk else Step(Fold(chk, values[..|values| - 1]), values[|values| - 1])
  }

  ghost predicate FitsRegister(values: seq<nat>) {
    forall i :: 0 <= i < |values| ==> values[i] < REGISTER
  }

  ghost predicate AreSymbols(values: seq<nat>) {
    AreDigits(values, 32)
  }

  lemma Constants()
    ensures Pow2(1) == 2 && Pow2(5) == 32 && Pow2(10) == 1024
    ensures Pow2(25) == FIVE_SYMBOLS && Pow2(30) == REGISTER
  {
    assert Pow2(5) == 32;
    PowAdd(2, 5, 5);
    PowAdd(2, 10, 10);
    PowAdd(2, 20, 5);
    PowAdd(2, 25, 5);
  }

  // ---- The loop ----

  lemma {:induction false} SelectFits(gs: seq<nat>, top: nat, n: nat, k: nat)
    requires n <= |gs| && forall i :: 0 <= i < n ==> gs[i] < Pow2(k)
    ensures Select(gs, top, n) < Pow2(k)
  {
    PowPositive(2, k);
    if n > 0 {
      SelectFits(gs, top, n - 1, k);
      XorBelow(Select(gs, top, n - 1), Chosen(BitAt(top, n - 1), gs[n - 1]), k);
    }
  }

  lemma StepFits(chk: nat, value: nat)
    requires value < REGISTER
    ensures Step(chk, value) < REGISTER
  {
    Constants();
    SelectFits(GENERATORS, chk / FIVE_SYMBOLS, 5, 30);
    XorBelow((chk % FIVE_SYMBOLS) * 32, value, 30);
    XorBelow(BitXor((chk % FIVE_SYMBOLS) * 32, value), Feedback(chk / FIVE_SYMBOLS), 30);
  }

  /** The source's shift-and-mask of the register never wraps and never meets the sign bit. */
  lemma ShiftedRegister(chk: nat)
    requires chk < REGISTER
    ensures Sar(chk, 25) == chk / FIVE_SYMBOLS < 32
    ensures Shl(BitAnd(chk, 0x1ffffff), 5) == (chk % FIVE_SYMBOLS) * 32
  {
    Constants();
    BitAndLowMask(chk, 25);
    InRange((chk % FIVE_SYMBOLS) * 32);
  }

  lemma TestedBit(top: nat, i: nat)
    requires i < 32
    ensures BitAnd(Sar(top, i), 1) == BitAt(top, i)
  {
    Constants();
    BitAndLowMask(Sar(top, i), 1);
  }

  /** One turn of the inner loop. */
  lemma OneGenerator(shifted: nat, top: nat, i: nat)
    requires i < 5
    ensures BitXor(shifted, Select(GENERATORS, top, i + 1)) ==
      var chk := BitXor(shifted, Select(GENERATORS, top, i));
      if BitAnd(Sar(top, i), 1) == 1 then BitXor(chk, GENERATORS[i]) else chk
  {
    TestedBit(top, i);
    XorAssociates(shifted, Select(GENERATORS, top, i), Chosen(BitAt(top, i), GENERATORS[i]));
    XorNothing(BitXor(shifted, Select(GENERATORS, top, i)));
  }

  method Polymod(values: seq<nat>) returns (chk: nat)
    requires FitsRegister(values)
    ensures chk == Fold(1, values)
    ensures chk < REGISTER
  {
    chk := 1;
    for k := 0 to |values|
      invariant chk < REGISTER
      invariant chk == Fold(1, values[..k])
    {
      assert values[..k + 1][..k] == values[..k];
      StepFits(chk, values[k]);
      ShiftedRegister(chk);
      var top := Sar(chk, 25);
      chk := BitXor(Shl(BitAnd(chk, 0x1ffffff), 5), values[k]);
      ghost var shifted := chk;
      XorNothing(shifted);
      for i := 0 to 5
        invariant chk == BitXor(shifted, Select(GENERATORS, top, i))
      {
        OneGenerator(shifted, top, i);
        if BitAnd(Sar(top, i), 1) == 1 {
          chk := BitXor(chk, GENERATORS[i]);
        }
      }
    }
    assert values[..|values|] == values;
  }

  // ---- Linearity ----

  lemma BitLinear(s: nat, t: nat, i: nat, g: nat)
    ensures Chosen(BitAt(BitXor(s, t), i), g) == BitXor(Chosen(BitAt(s, i), g), Chosen(BitAt(t, i), g))
  {
    XorDivMod(s, t, i);
    XorHalves(s / Pow2(i), t / Pow2(i));
    XorItself(g);
    XorNothing(g);
  }

  lemma {:induction false} SelectLinear(gs: seq<nat>, s: nat, t: nat, n: nat)
    requires n <= |gs|
    ensures Select(gs, BitXor(s, t), n) == BitXor(Select(gs, s, n), Select(gs, t, n))
  {
    if n > 0 {
      var g := gs[n - 1];
      SelectLinear(gs, s, t, n - 1);
      BitLinear(s, t, n - 1, g);
      XorInterleave(Select(gs, s, n - 1), Select(gs, t, n - 1),
                    Chosen(BitAt(s, n - 1), g), Chosen(BitAt(t, n - 1), g));
    }
  }

  lemma ShiftLinear(c: nat, d: nat)
    ensures (BitXor(c, d) % FIVE_SYMBOLS) * 32 == BitXor((c % FIVE_SYMBOLS) * 32, (d % FIVE_SYMBOLS) * 32)
  {
    hide BitXor, Pow;
    Constants();
    XorDivMod(c, d, 25);
    XorItself(0);
    XorSplit(c % FIVE_SYMBOLS, d % FIVE_SYMBOLS, 5, 0, 0);
  }

  lemma StepLinear(c: nat, d: nat, v: nat, w: nat)
    ensures Step(BitXor(c, d), BitXor(v, w)) == BitXor(Step(c, v), Step(d, w))
  {
    Constants();
    ShiftLinear(c, d);
    var x, y := (c % FIVE_SYMBOLS) * 32, (d % FIVE_SYMBOLS) * 32;
    XorInterleave(x, y, v, w);
    XorDivMod(c, d, 25);
    var s, t := c / FIVE_SYMBOLS, d / FIVE_SYMBOLS;
    SelectLinear(GENERATORS, s, t, 5);
    XorInterleave(BitXor(x, v), BitXor(y, w), Feedback(s), Feedback(t));
  }

  /** The register is XOR-linear in its start value and its input together. */
  lemma {:induction false} FoldLinear(c: nat, d: nat, s: seq<nat>, t: seq<nat>)
    requires |s| == |t|
    ensures Fold(BitXor(c, d), XorAll(s, t)) == BitXor(Fold(c, s), Fold(d, t))
  {
    if s != [] {
      var n := |s| - 1;
      assert XorAll(s, t)[..n] == XorAll(s[..n], t[..n]);
      FoldLinear(c, d, s[..n], t[..n]);
      StepLinear(Fold(c, s[..n]), Fold(d, t[..n]), s[n], t[n]);
    }
  }

  lemma {:induction false} FoldConcat(chk: nat, a: seq<nat>, b: seq<nat>)
    ensures Fold(chk, a + b) == Fold(Fold(chk, a), b)
  {
    if b == [] {
      assert a + b == a;
    } else {
      var n := |b| - 1;
      assert (a + b)[..|a| + n] == a + b[..n];
      FoldConcat(chk, a, b[..n]);
    }
  }

  /** The register never leaves 30 bits, whatever is fed to it. */
  lemma {:induction false} FoldFits(chk: nat, values: seq<nat>)
    requires chk < REGISTER && FitsRegister(values)
    ensures Fold(chk, values) < REGISTER
  {
    if values != [] {
      var n := |values| - 1;
      FoldFits(chk, values[..n]);
      StepFits(Fold(chk, values[..n]), values[n]);
    }
  }

  // ---- Symbols ----

  /** Shifting a symbol into a register whose top symbol is empty appends it. */
  lemma StepAppends(chk: nat, value: nat)
    requires chk < FIVE_SYMBOLS && value < 32
    ensures Step(chk, value) == chk * 32 + value
  {
    hide Pow, BitXor, Select, Feedback;
    Constants();
    DivModUnique(chk, FIVE_SYMBOLS, 0, chk);
    NoFeedback();
    XorDisjoint(chk, 5, value);
    XorNothing(chk * 32 + value);
  }

  lemma {:induction false} SelectNothing(gs: seq<nat>, n: nat)
    requires n <= |gs|
    ensures Select(gs, 0, n) == 0
  {
    if n > 0 {
      SelectNothing(gs, n - 1);
      PowPositive(2, n - 1);
      XorNothing(0);
    }
  }

  /** Up to six symbols shifted into an empty register are all still there. */
  lemma {:induction false} SymbolsStay(w: seq<nat>)
    requires |w| <= 6 && AreSymbols(w)
    ensures Fold(0, w) == Value(w, 32) < REGISTER
  {
    assert Pow(32, 5) == FIVE_SYMBOLS && Pow(32, 6) == REGISTER;
    ValueBound(w, 32);
    PowMonotone(32, |w|, 6);
    if w != [] {
      var n := |w| - 1;
      SymbolsStay(w[..n]);
      ValueBound(w[..n], 32);
      PowMonotone(32, n, 5);
      StepAppends(Fold(0, w[..n]), w[n]);
    }
  }

  lemma {:induction false} PowMonotone(base: nat, m: nat, n: nat)
    requires base > 0 && m <= n
    ensures Pow(base, m) <= Pow(base, n)
  {
    PowPositive(base, n - m);
    PowPositive(base, m);
    PowAdd(base, m, n - m);
    MulAtLeast(Pow(base, n - m), Pow(base, m));
    Commute(Pow(base, m), Pow(base, n - m));
  }

  // ---- A zero input loses nothing ----

  function LowSymbols(gs: seq<nat>, k: nat): (low: seq<nat>)
    ensures |low| == |gs|
    ensures forall i :: 0 <= i < |gs| ==> low[i] == (PowPositive(2, 5 * k); (gs[i] / Pow2(5 * k)) % 32)
  {
    seq<nat>(|gs|, i requires 0 <= i < |gs| => (PowPositive(2, 5 * k); (gs[i] / Pow2(5 * k)) % 32))
  }

  /** Selection works symbol by symbol. */
  lemma {:induction false} SelectSymbol(gs: seq<nat>, top: nat, n: nat, k: nat)
    requires n <= |gs|
    ensures Pow2(5 * k) > 0
    ensures (Select(gs, top, n) / Pow2(5 * k)) % 32 == Select(LowSymbols(gs, k), top, n)
  {
    PowPositive(2, 5 * k);
    if n == 0 {
      DivModUnique(0, Pow2(5 * k), 0, 0);
    } else {
      SelectSymbol(gs, top, n - 1, k);
      XorSymbol(Select(gs, top, n - 1), Chosen(BitAt(top, n - 1), gs[n - 1]), k);
      ChosenSymbol(BitAt(top, n - 1), gs[n - 1], k);
    }
  }

  lemma ChosenSymbol(bit: nat, g: nat, k: nat)
    ensures Pow2(5 * k) > 0
    ensures (Chosen(bit, g) / Pow2(5 * k)) % 32 == Chosen(bit, (g / Pow2(5 * k)) % 32)
  {
    PowPositive(2, 5 * k);
    DivModUnique(0, Pow2(5 * k), 0, 0);
  }

  /** Exclusive or works symbol by symbol. */
  lemma XorSymbol(x: nat, y: nat, k: nat)
    ensures Pow2(5 * k) > 0
    ensures (BitXor(x, y) / Pow2(5 * k)) % 32 == BitXor((x / Pow2(5 * k)) % 32, (y / Pow2(5 * k)) % 32)
  {
    PowPositive(2, 5 * k);
    Constants();
    DivNonNegative(x, Pow2(5 * k));
    DivNonNegative(y, Pow2(5 * k));
    XorDivMod(x, y, 5 * k);
    XorDivMod(x / Pow2(5 * k), y / Pow2(5 * k), 5);
  }

  /** The lowest symbols of the generators. */
  const LOWEST: seq<nat> := [18, 13, 26, 29, 19]

  function LowFeedback(top: nat): nat {
    Select(LOWEST, top, |LOWEST|)
  }

  /** No selection but the empty one cancels the low symbols of the generators. */
  lemma LowSymbolsIndependent(top: nat)
    requires top < 32 && LowFeedback(top) == 0
    ensures top == 0
  {
    hide BitXor, ThreeTerms, Pow2;
    var gs := LOWEST;
    FirstThreeSelected(top);
    ThreeTermsTable(BitAt(top, 0), BitAt(top, 1), BitAt(top, 2));
    var b3, b4 := BitAt(top, 3), BitAt(top, 4);
    assert Select(gs, top, 4) == BitXor(Select(gs, top, 3), Chosen(b3, 29));
    assert Select(gs, top, 5) == BitXor(Select(gs, top, 4), Chosen(b4, 19));
    CancelTwo(Select(gs, top, 3), Chosen(b3, 29), Chosen(b4, 19));
    LastTwoTable(Chosen(b4, 19), Chosen(b3, 29));
    TopBits(top);
  }

  lemma CancelTwo(x: nat, y: nat, z: nat)
    requires BitXor(BitXor(x, y), z) == 0
    ensures x == BitXor(z, y)
  {
    XorCancels(BitXor(x, y), z);
    XorCancels(x, y);
  }

  // The few exclusive ors of symbols that are needed as numbers, bit by bit.

  lemma Xor19And29()
    ensures BitXor(19, 29) == 14
  {
    hide BitXor;
    XorNothing(0);
    XorItself(1);
    XorDouble(1, 1, 0, 1);
    XorDouble(2, 3, 0, 1);
    XorDouble(4, 7, 1, 0);
    XorDouble(9, 14, 1, 1);
  }

  lemma Xor18And13()
    ensures BitXor(18, 13) == 31
  {
    hide BitXor;
    XorNothing(1);
    XorDouble(1, 0, 0, 1);
    XorDouble(2, 1, 0, 1);
    XorDouble(4, 3, 1, 0);
    XorDouble(9, 6, 0, 1);
  }

  lemma Xor31And26()
    ensures BitXor(31, 26) == 5
  {
    hide BitXor;
    XorItself(3);
    XorDouble(3, 3, 1, 0);
    XorDouble(7, 6, 1, 1);
    XorDouble(15, 13, 1, 0);
  }

  lemma Xor18And26()
    ensures BitXor(18, 26) == 8
  {
    hide BitXor;
    XorItself(1);
    XorDouble(1, 1, 0, 1);
    XorDouble(2, 3, 0, 0);
    XorDouble(4, 6, 1, 1);
    XorDouble(9, 13, 0, 0);
  }

  lemma Xor13And26()
    ensures BitXor(13, 26) == 23
  {
    hide BitXor;
    XorNothing(1);
    XorDouble(0, 1, 1, 1);
    XorDouble(1, 3, 1, 0);
    XorDouble(3, 6, 0, 1);
    XorDouble(6, 13, 1, 0);
  }

  lemma LastTwoTable(z: nat, y: nat)
    requires (z == 0 || z == 19) && (y == 0 || y == 29)
    ensures BitXor(z, y) == if z == 0 then y else if y == 0 then z else 14
  {
    hide BitXor;
    XorNothing(z);
    XorNothing(y);
    Xor19And29();
  }

  function ThreeTerms(b0: nat, b1: nat, b2: nat): nat {
    BitXor(BitXor(BitXor(0, Chosen(b0, 18)), Chosen(b1, 13)), Chosen(b2, 26))
  }

  lemma ThreeTermsTable(b0: nat, b1: nat, b2: nat)
    ensures ThreeTerms(b0, b1, b2) ==
      (if b2 == 1 then
         if b1 == 1 then (if b0 == 1 then 5 else 23) else (if b0 == 1 then 8 else 26)
       else
         if b1 == 1 then (if b0 == 1 then 31 else 13) else (if b0 == 1 then 18 else 0))
  {
    hide BitXor;
    XorNothing(0);
    XorNothing(18);
    XorNothing(13);
    XorNothing(26);
    XorNothing(31);
    Xor18And13();
    Xor31And26();
    Xor18And26();
    Xor13And26();
  }

  lemma FirstThreeSelected(top: nat)
    ensures Select(LOWEST, top, 3) == ThreeTerms(BitAt(top, 0), BitAt(top, 1), BitAt(top, 2))
  {
    var gs := LOWEST;
    assert Select(gs, top, 1) == BitXor(0, Chosen(BitAt(top, 0), 18));
    assert Select(gs, top, 2) == BitXor(Select(gs, top, 1), Chosen(BitAt(top, 1), 13));
    assert Select(gs, top, 3) == BitXor(Select(gs, top, 2), Chosen(BitAt(top, 2), 26));
  }

  lemma TopBits(top: nat)
    requires top < 32
    ensures top == BitAt(top, 0) + 2 * BitAt(top, 1) + 4 * BitAt(top, 2) + 8 * BitAt(top, 3) + 16 * BitAt(top, 4)
  {
    assert Pow2(0) == 1 && Pow2(1) == 2 && Pow2(2) == 4 && Pow2(3) == 8 && Pow2(4) == 16;
    hide Pow2;
    assert top / 4 == top / 2 / 2 && top / 8 == top / 4 / 2 && top / 16 == top / 8 / 2;
  }

  lemma StepOnZero(c: nat)
    ensures Step(c, 0) == BitXor((c % FIVE_SYMBOLS) * 32, Feedback(c / FIVE_SYMBOLS))
  {
    XorNothing((c % FIVE_SYMBOLS) * 32);
  }

  lemma NoFeedback()
    ensures Feedback(0) == 0
  {
    SelectNothing(GENERATORS, |GENERATORS|);
  }

  lemma ZeroStepKernel(c: nat)
    requires c < REGISTER && Step(c, 0) == 0
    ensures c == 0
  {
    var low, top := c % FIVE_SYMBOLS, c / FIVE_SYMBOLS;
    StepOnZero(c);
    FeedbackIsShifted(low, top);
    NoFeedback();
  }

  /** A feedback that cancels the shifted register is empty: its lowest symbol would have to be. */
  lemma FeedbackIsShifted(low: nat, top: nat)
    requires top < 32 && BitXor(low * 32, Feedback(top)) == 0
    ensures top == 0 && low * 32 == Feedback(top)
  {
    hide BitXor, Feedback, LowFeedback;
    XorCancels(low * 32, Feedback(top));
    LowestOfSelection(top);
    DivModUnique(low * 32, 32, low, 0);
    LowSymbolsIndependent(top);
  }

  lemma LowestOfSelection(top: nat)
    ensures Feedback(top) % 32 == LowFeedback(top)
  {
    assert Pow2(5 * 0) == 1;
    hide Select, LowSymbols, Pow, Pow2;
    LowestSymbols();
    SelectSymbol(GENERATORS, top, |GENERATORS|, 0);
  }

  lemma LowestSymbols()
    ensures LowSymbols(GENERATORS, 0) == LOWEST
  {
    assert Pow2(0) == 1;
  }

  /** Feeding a zero never merges two register states. */
  lemma ZeroStepInjective(c: nat, d: nat)
    requires c < REGISTER && d < REGISTER && Step(c, 0) == Step(d, 0)
    ensures c == d
  {
    Constants();
    XorItself(0);
    StepLinear(c, d, 0, 0);
    XorItself(Step(c, 0));
    XorBelow(c, d, 30);
    ZeroStepKernel(BitXor(c, d));
    XorCancels(c, d);
  }

  // ---- Error detection ----

  lemma {:induction false} ZerosKeepNonzero(chk: nat, n: nat)
    requires 0 < chk < REGISTER
    ensures 0 < Fold(chk, Zeros(n)) < REGISTER
  {
    if n > 0 {
      assert Zeros(n)[..n - 1] == Zeros(n - 1);
      ZerosKeepNonzero(chk, n - 1);
      StepFits(Fold(chk, Zeros(n - 1)), 0);
      if Fold(chk, Zeros(n)) == 0 {
        ZeroStepKernel(Fold(chk, Zeros(n - 1)));
      }
    }
  }

  /** The difference of two unequal bursts leaves a non-zero register. */
  lemma DifferenceSurvives(s: seq<nat>, t: seq<nat>)
    requires |s| == |t| <= 6 && s != t
    requires AreSymbols(s) && AreSymbols(t)
    ensures 0 < Fold(0, XorAll(s, t)) < REGISTER
  {
    var d := XorAll(s, t);
    Constants();
    forall i | 0 <= i < |d| ensures d[i] < 32 {
      XorBelow(s[i], t[i], 5);
    }
    SymbolsStay(d);
    if Value(d, 32) == 0 {
      ZerosSpellNothing(|d|);
      ValueInjective(d, Zeros(|d|), 32);
      forall i | 0 <= i < |d| ensures s[i] == t[i] {
        XorCancels(s[i], t[i]);
      }
    }
  }

  lemma {:induction false} ZerosSpellNothing(n: nat)
    ensures Value(Zeros(n), 32) == 0
  {
    if n > 0 {
      assert Zeros(n)[..n - 1] == Zeros(n - 1);
      ZerosSpellNothing(n - 1);
    }
  }

  /** A burst of errors confined to six consecutive symbols always changes the register, whatever
      surrounds it and however long the input is. */
  lemma BurstDetected(chk: nat, before: seq<nat>, s: seq<nat>, t: seq<nat>, after: seq<nat>)
    requires |s| == |t| <= 6 && s != t
    requires AreSymbols(s) && AreSymbols(t)
    ensures Fold(chk, before + s + after) != Fold(chk, before + t + after)
  {
    DifferenceSurvives(s, t);
    var c := Fold(chk, before);
    FoldConcat(chk, before, s);
    FoldConcat(chk, before, t);
    FoldConcat(chk, before + s, after);
    FoldConcat(chk, before + t, after);
    XorItself(c);
    FoldLinear(c, c, s, t);
    FoldLinear(Fold(c, s), Fold(c, t), after, after);
    forall i | 0 <= i < |after| ensures XorAll(after, after)[i] == 0 {
      XorItself(after[i]);
    }
    assert XorAll(after, after) == Zeros(|after|);
    ZerosKeepNonzero(Fold(0, XorAll(s, t)), |after|);
    XorItself(Fold(Fold(c, s), after));
  }

  /** A single wrong symbol and two swapped neighbours are bursts. */
  lemma SubstitutionAndSwapDetected(chk: nat, before: seq<nat>, a: nat, b: nat, after: seq<nat>)
    requires a < 32 && b < 32 && a != b
    ensures Fold(chk, before + [a] + after) != Fold(chk, before + [b] + after)
    ensures Fold(chk, before + [a, b] + after) != Fold(chk, before + [b, a] + after)
  {
    BurstDetected(chk, before, [a], [b], after);
    BurstDetected(chk, before, [a, b], [b, a], after);
  }
}
