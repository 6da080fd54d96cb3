/** Regrouping a bit string into words of another width (packages/coordinator-node/src/cosmos/address.ts). */
module ConvertBits {
  import opened Common
  import opened Arith
  import opened Radix
  import opened JsInt32

  // ---- Specification: the data as one unbounded big-endian number ----

  /** The bits of `data`, `from` per item, cut into words of `to` bits. With padding an unfinished last
      word is filled up with zero bits; without it the leftover bits must be fewer than `from` and all zero. */
  function Regroup(data: seq<nat>, from: nat, to: nat, pad: bool): Result<seq<nat>>
    requires from > 0 && to > 0
  {
    PowPositive(2, to);
    var bits := |data| * from;
    var left := bits % to;
    PowPositive(2, left);
    var number := Value(data, Pow2(from));
    DivNonNegative(number, Pow2(left));
    DivNonNegative(bits, to);
    var words := ToDigits(number / Pow2(left), Pow2(to), bits / to);
    var rest: nat := number % Pow2(left);
    if pad then
      Ok(if left > 0 then words + [rest * Pow2(to - left)] else words)
    else if left >= from || rest != 0 then
      Err(InvalidArgument)
    else
      Ok(words)
  }

  // ---- The loop ----

  /** One digit more at the bottom: the words already cut off stay the same. */
  lemma AppendBelow(v: nat, p: nat, d: nat, low: nat)
    requires d < p && low > 0
    ensures p * low > 0 && (v * p + d) / (p * low) == v / low
  {
    MulAtLeast(p, low);
    DivModUnique(v * p + d, p, v, d);
    DivDiv(v * p + d, p, low);
  }

  /** Cutting the next word off the pending bits. */
  lemma CutWord(v: nat, low: nat, word: nat)
    requires low > 0 && word > 0
    ensures word * low > 0
    ensures v / low == (v / (word * low)) * word + (v / low) % word
  {
    MulAtLeast(word, low);
    Commute(word, low);
    DivDiv(v, low, word);
    DivModIdentity(v / low, word);
  }

  /** Shifting up by a factor shifts the residue up with it. */
  lemma ResidueShifted(v: nat, low: nat, gap: nat)
    requires low > 0 && gap > 0
    ensures low * gap > 0 && (v * gap) % (low * gap) == (v % low) * gap
  {
    var q, r := v / low, v % low;
    DivModIdentity(v, low);
    Distribute(q, low, r, gap);
    Commute(low, gap);
    MulAtLeast(low, gap);
    MulMono(r + 1, low, gap);
    Successor(r, gap);
    MulNonNegative(r, gap);
    DivModUnique(v * gap, low * gap, q, r * gap);
  }

  /** The bits still pending, shifted up to a full word and masked. */
  lemma PendingBits(v: nat, left: nat, to: nat)
    requires left < to <= 30
    ensures Pow2(left) > 0 && Pow2(to) > 0
    ensures BitAnd(Shl(ToInt32(v), to - left), Pow2(to) - 1) == (v % Pow2(left)) * Pow2(to - left)
    ensures BitAnd(Shl(ToInt32(v), to - left), Pow2(to) - 1) == 0 <==> v % Pow2(left) == 0
  {
    assert Pow2(0) == 1;
    hide Pow, BitAnd, ToInt32;
    PowPositive(2, to);
    PowPositive(2, left);
    PowPositive(2, to - left);
    var low, gap := Pow2(left), Pow2(to - left);
    PowAdd(2, left, to - left);
    WrapEarly(v, gap, 0);
    BitAndLowMask(ToInt32(v * gap), to);
    WindowOfInt32(v * gap, 0, to);
    ResidueShifted(v, low, gap);
    ProductZero(v % low, gap);
  }

  lemma NothingRegrouped(base: nat, word: nat)
    ensures Value([], base) == 0 == Value([], word) && ToInt32(0) == 0 && Pow2(0) == 1
  {
  }

  /** One word more is cut off the accumulated number. */
  lemma OneWord(result: seq<nat>, v: nat, bits: nat, to: nat)
    requires 1 <= to <= 30 && bits + to <= 32 && AreDigits(result, Pow2(to))
    requires Pow2(bits + to) > 0 && Value(result, Pow2(to)) == v / Pow2(bits + to)
    ensures Pow2(to) > 0 && Pow2(bits) > 0
    ensures var next := result + [BitAnd(Sar(ToInt32(v), bits), Pow2(to) - 1)];
      AreDigits(next, Pow2(to)) && Value(next, Pow2(to)) == v / Pow2(bits)
  {
    hide Pow, Value, BitAnd, ToInt32, Sar;
    PowPositive(2, bits);
    PowPositive(2, to);
    PowAdd(2, to, bits);
    CutWord(v, Pow2(bits), Pow2(to));
    BitAndLowMask(Sar(ToInt32(v), bits), to);
    WindowOfInt32(v, bits, to);
    DivNonNegative(v, Pow2(bits));
    ValueAppend(result, (v / Pow2(bits)) % Pow2(to), Pow2(to));
  }

  method ConvertBits(data: seq<nat>, from: nat, to: nat, pad: bool) returns (r: Result<seq<nat>>)
    requires 1 <= from && 1 <= to <= 30 && from + to <= 32
    requires AreDigits(data, Pow2(from))
    ensures r == Regroup(data, from, to, pad)
  {
    hide Value, BitOr, Sar, BitAnd, ToDigits;
    ghost var base, word := Pow2(from), Pow2(to);
    PowPositive(2, to);
    NothingRegrouped(base, word);
    var acc, bits := 0, 0;
    var result: seq<nat> := [];
    var maxv := Shl(1, to) - 1;
    assert maxv == Pow2(to) - 1 by {
      SmallPower(to);
      InRange(Pow2(to));
    }
    for i := 0 to |data|
      invariant 0 <= bits < to
      invariant |result| * to + bits == i * from
      invariant acc == ToInt32(Value(data[..i], base))
      invariant Pow2(bits) > 0 && Value(result, word) == Value(data[..i], base) / Pow2(bits)
      invariant AreDigits(result, word)
    {
      ghost var before, v := Value(data[..i], base), Value(data[..i + 1], base);
      assert data[..i + 1] == data[..i] + [data[i]];
      ValueAppend(data[..i], data[i], base);
      ShiftInDigit(before, from, data[i]);
      AppendBelow(before, base, data[i], Pow2(bits));
      PowAdd(2, from, bits);
      Successor(i, from);
      acc := BitOr(Shl(acc, from), data[i]);
      bits := bits + from;
      while bits >= to
        invariant 0 <= bits < to + from
        invariant |result| * to + bits == (i + 1) * from
        invariant acc == ToInt32(v)
        invariant Pow2(bits) > 0 && Value(result, word) == v / Pow2(bits)
        invariant AreDigits(result, word)
      {
        bits := bits - to;
        OneWord(result, v, bits, to);
        Successor(|result|, to);
        result := result + [BitAnd(Sar(acc, bits), maxv)];
      }
    }
    assert data[..|data|] == data;
    DivModUnique(|data| * from, to, |result|, bits);
    ValueToDigits(result, word);
    PendingBits(Value(data, base), bits, to);
    if pad {
      if bits > 0 {
        result := result + [BitAnd(Shl(acc, to - bits), maxv)];
      }
    } else if bits >= from || BitAnd(Shl(acc, to - bits), maxv) != 0 {
      return Err(InvalidArgument);
    }
    return Ok(result);
  }

  lemma {:induction false} SmallPower(n: nat)
    requires n <= 30
    ensures 1 <= Pow2(n) <= 0x4000_0000
  {
    PowPositive(2, n);
    PowPositive(2, 30 - n);
    PowAdd(2, n, 30 - n);
    PowOf31();
    MulAtLeast(Pow2(30 - n), Pow2(n));
    Commute(Pow2(n), Pow2(30 - n));
  }

  // ---- Padding and unpadding are inverse ----

  /** `words` is the number of `data` followed by `gap` zero bits. */
  ghost predicate FollowedByZeros(data: seq<nat>, from: nat, words: seq<nat>, to: nat, gap: nat) {
    && |words| * to == |data| * from + gap
    && Value(words, Pow2(to)) == Value(data, Pow2(from)) * Pow2(gap)
  }

  /** The whole words of a regrouping, as a number. */
  lemma WholeWords(data: seq<nat>, from: nat, to: nat, count: nat, left: nat) returns (whole: seq<nat>)
    requires from > 0 && to > 0 && AreDigits(data, Pow2(from)) && |data| * from == count * to + left
    ensures Pow2(to) > 0 && Pow2(left) > 0 && Value(data, Pow2(from)) / Pow2(left) >= 0
    ensures whole == ToDigits(Value(data, Pow2(from)) / Pow2(left), Pow2(to), count) && AreDigits(whole, Pow2(to))
    ensures Value(whole, Pow2(to)) == Value(data, Pow2(from)) / Pow2(left)
  {
    hide Pow, Value, ToDigits;
    PowPositive(2, to);
    PowPositive(2, left);
    var v := Value(data, Pow2(from));
    DivNonNegative(v, Pow2(left));
    WholeWordsFit(data, from, left, count, to);
    whole := ToDigits(v / Pow2(left), Pow2(to), count);
    ToDigitsValue(v / Pow2(left), Pow2(to), count);
  }

  lemma RegroupPadded(data: seq<nat>, from: nat, to: nat, whole: seq<nat>)
    requires from > 0 && to > 0 && |data| * from >= 0 && Pow2(to) > 0 && Pow2(|data| * from % to) > 0
    requires Value(data, Pow2(from)) / Pow2(|data| * from % to) >= 0 && |data| * from / to >= 0
    requires whole == ToDigits(Value(data, Pow2(from)) / Pow2(|data| * from % to), Pow2(to), |data| * from / to)
    ensures var left := |data| * from % to;
      var v := Value(data, Pow2(from));
      Regroup(data, from, to, true) == Ok(if left == 0 then whole else whole + [(v % Pow2(left)) * Pow2(to - left)])
  {
    hide Pow, Value, ToDigits;
  }

  /** The words of a padded regrouping, from its whole words: they spell the data and the gap. */
  lemma PaddedSpells(data: seq<nat>, from: nat, whole: seq<nat>, to: nat, left: nat)
    returns (words: seq<nat>, gap: nat)
    requires from > 0 && left < to && |data| * from == |whole| * to + left
    requires Pow2(to) > 0 && Pow2(left) > 0 && AreDigits(whole, Pow2(to))
    requires Value(whole, Pow2(to)) == Value(data, Pow2(from)) / Pow2(left)
    ensures (Value(data, Pow2(from)) % Pow2(left)) * Pow2(to - left) >= 0
    ensures words == if left == 0 then whole else whole + [(Value(data, Pow2(from)) % Pow2(left)) * Pow2(to - left)]
    ensures AreDigits(words, Pow2(to)) && gap < to && FollowedByZeros(data, from, words, to, gap)
  {
    assert Pow2(0) == 1;
    hide Pow, Value;
    var v := Value(data, Pow2(from));
    PowPositive(2, to - left);
    PowAdd(2, left, to - left);
    words := PaddedWords(v, Pow2(left), Pow2(to - left), whole, Pow2(to));
    if left == 0 {
      words, gap := whole, 0;
      DivModIdentity(v, 1);
    } else {
      gap := to - left;
      Successor(|whole|, to);
    }
  }

  /** What a padded regrouping is, without saying how it is computed. */
  lemma PaddedMeans(data: seq<nat>, from: nat, to: nat)
    returns (words: seq<nat>, gap: nat)
    requires from > 0 && to > 0 && AreDigits(data, Pow2(from))
    ensures Regroup(data, from, to, true) == Ok(words) && AreDigits(words, Pow2(to))
    ensures gap < to && FollowedByZeros(data, from, words, to, gap)
  {
    hide Pow2, Value, ToDigits, Regroup, FollowedByZeros;
    var bits := |data| * from;
    MulNonNegative(|data|, from);
    DivNonNegative(bits, to);
    DivModIdentity(bits, to);
    var whole := WholeWords(data, from, to, bits / to, bits % to);
    RegroupPadded(data, from, to, whole);
    words, gap := PaddedSpells(data, from, whole, to, bits % to);
  }

  /** The last word: the residue, shifted up to a full word. */
  lemma PaddedWords(v: nat, low: nat, g: nat, whole: seq<nat>, word: nat) returns (words: seq<nat>)
    requires low > 0 && g > 0 && word == low * g && AreDigits(whole, word) && Value(whole, word) == v / low
    ensures 0 <= (v % low) * g && words == whole + [(v % low) * g]
    ensures AreDigits(words, word) && Value(words, word) == v * g
  {
    hide Value;
    var r := v % low;
    DivModIdentity(v, low);
    MulNonNegative(r, g);
    MulMono(r + 1, low, g);
    Successor(r, g);
    words := whole + [r * g];
    ValueAppend(whole, r * g, word);
    Distribute(v / low, low, r, g);
    Commute(low, g);
  }

  /** The bits in front of the leftover fit the whole words. */
  lemma WholeWordsFit(data: seq<nat>, from: nat, left: nat, count: nat, to: nat)
    requires AreDigits(data, Pow2(from))
    requires |data| * from == count * to + left
    ensures Pow2(left) > 0 && 0 <= Value(data, Pow2(from)) / Pow2(left) < Pow(Pow2(to), count)
  {
    PowPositive(2, from);
    PowPositive(2, left);
    ValueBound(data, Pow2(from));
    PowMul(2, from, |data|);
    PowMul(2, to, count);
    Commute(from, |data|);
    Commute(to, count);
    MulNonNegative(count, to);
    PowAdd(2, left, count * to);
    QuotientBelow(Value(data, Pow2(from)), Pow2(left), Pow2(count * to));
  }

  /** What it means that words are accepted without padding. */
  lemma UnpaddedMeans(words: seq<nat>, to: nat, from: nat, data: seq<nat>)
    requires 0 < to <= from && AreDigits(words, Pow2(to))
    requires Regroup(words, to, from, false) == Ok(data)
    ensures AreDigits(data, Pow2(from))
    ensures |words| * to % from < to
    ensures FollowedByZeros(data, from, words, to, |words| * to % from)
  {
    var bits := |words| * to;
    MulNonNegative(|words|, to);
    var gap := bits % from;
    PowPositive(2, from);
    PowPositive(2, gap);
    DivNonNegative(Value(words, Pow2(to)), Pow2(gap));
    DivNonNegative(bits, from);
    DivModIdentity(bits, from);
    DivModIdentity(Value(words, Pow2(to)), Pow2(gap));
    WholeWordsFit(words, to, gap, bits / from, from);
    ToDigitsValue(Value(words, Pow2(to)) / Pow2(gap), Pow2(from), bits / from);
  }

  /** Words that spell `data` followed by fewer zeros than a word has bits are accepted as `data`. */
  lemma ZerosAreAccepted(data: seq<nat>, from: nat, words: seq<nat>, to: nat, gap: nat)
    requires 0 < to <= from && gap < to
    requires AreDigits(data, Pow2(from)) && AreDigits(words, Pow2(to))
    requires FollowedByZeros(data, from, words, to, gap)
    ensures Regroup(words, to, from, false) == Ok(data)
  {
    PowPositive(2, from);
    PowPositive(2, gap);
    DivModUnique(|words| * to, from, |data|, gap);
    DivModUnique(Value(words, Pow2(to)), Pow2(gap), Value(data, Pow2(from)), 0);
    ValueToDigits(data, Pow2(from));
  }

  /** Padding to words of `to` bits and unpadding back are inverse bijections between the strings of
      `from`-bit items and the word strings that the unpadding accepts, whenever to <= from. */
  lemma RegroupInverse(data: seq<nat>, from: nat, words: seq<nat>, to: nat)
    requires 0 < to <= from
    requires AreDigits(data, Pow2(from)) && AreDigits(words, Pow2(to))
    ensures Regroup(data, from, to, true) == Ok(words) <==> Regroup(words, to, from, false) == Ok(data)
  {
    var padded, gap := PaddedMeans(data, from, to);
    if padded == words {
      ZerosAreAccepted(data, from, words, to, gap);
    }
    if Regroup(words, to, from, false) == Ok(data) {
      UnpaddedMeans(words, to, from, data);
      PaddedIsUnique(data, from, words, to, |words| * to % from);
    }
  }

  /** There is only one padded regrouping. */
  lemma PaddedIsUnique(data: seq<nat>, from: nat, words: seq<nat>, to: nat, gap: nat)
    requires from > 0 && gap < to
    requires AreDigits(data, Pow2(from)) && AreDigits(words, Pow2(to))
    requires FollowedByZeros(data, from, words, to, gap)
    ensures Regroup(data, from, to, true) == Ok(words)
  {
    var padded, gap' := PaddedMeans(data, from, to);
    SameLength(|padded|, |words|, to, |data| * from, gap', gap);
    PowPositive(2, to);
    ValueInjective(padded, words, Pow2(to));
  }

  lemma SameLength(m: nat, n: nat, to: nat, bits: int, g: nat, h: nat)
    requires to > 0 && g < to && h < to
    requires m * to == bits + g && n * to == bits + h
    ensures m == n && g == h
  {
    if m < n {
      MulMono(m + 1, n, to);
      Successor(m, to);
    } else if n < m {
      MulMono(n + 1, m, to);
      Successor(n, to);
    }
  }

  /** Every byte string survives 8 -> 5 -> 8, and its padded form has ceil(8n/5) words. */
  lemma BytesRoundTrip(data: Bytes)
    ensures var words := Regroup(data, 8, 5, true);
      && words.Ok? && AreDigits(words.value, 32)
      && |words.value| == (8 * |data| + 4) / 5
      && Regroup(words.value, 5, 8, false) == Ok(data)
  {
    assert Pow2(8) == 256 && Pow2(5) == 32;
    var words, gap := PaddedMeans(data, 8, 5);
    RegroupInverse(data, 8, words, 5);
  }
}
