/** Bech32 addresses (packages/coordinator-node/src/cosmos/address.ts), and the decoder of BIP-173
    (section "Bech32") that they are meant for. */
module Address {
  import opened Common
  import opened Arith
  import opened Radix
  import opened JsInt32
  import opened Xor
  import opened Tables
  import opened Polymod
  import ConvertBits

  const CHARSET: string := "qpzry9x8gf2tvdw0s3jn54khce6mua7l"

  lemma CharsetIsAscii(i: nat)
    requires i < 32
    ensures |CHARSET| == 32 && CHARSET[i] as int < 128
  {
  }

  /** The table as UTF-16 units. */
  function Charset(): (t: Text)
    ensures |t| == 32 && forall i :: 0 <= i < 32 ==> t[i] == CHARSET[i] as int
  {
    seq<Unit>(32, i requires 0 <= i < 32 => (CharsetIsAscii(i); CHARSET[i] as int))
  }

  /** The character '1'. */
  const SEPARATOR: Unit := 49

  // ---- Prefix expansion ----

  /** Units of the first code point: two for a surrogate pair, one for anything else. */
  function PointLength(s: Text): (n: nat)
    requires s != []
    ensures 1 <= n <= |s|
  {
    if |s| >= 2 && 0xD800 <= s[0] < 0xDC00 && 0xDC00 <= s[1] < 0xE000 then 2 else 1
  }

  /** What `for (const char of s)` with char.charCodeAt(0) visits: the first unit of every code point. */
  function Heads(s: Text): Text
    decreases |s|
  {
    if s == [] then [] else [s[0]] + Heads(s[PointLength(s)..])
  }

  function HighBits(chars: Text): (w: seq<nat>)
    ensures |w| == |chars| && FitsRegister(w)
  {
    seq<nat>(|chars|, i requires 0 <= i < |chars| => chars[i] / 32)
  }

  function LowBits(chars: Text): (w: seq<nat>)
    ensures |w| == |chars| && AreSymbols(w)
  {
    seq<nat>(|chars|, i requires 0 <= i < |chars| => chars[i] % 32)
  }

  function HrpExpansion(hrp: Text): (w: seq<nat>)
    ensures FitsRegister(w)
  {
    HighBits(Heads(hrp)) + [0] + LowBits(Heads(hrp))
  }

  /** No unit of a surrogate pair. */
  ghost predicate Plain(s: Text) {
    forall i :: 0 <= i < |s| ==> !(0xD800 <= s[i] < 0xE000)
  }

  lemma {:induction false} PlainHeads(s: Text)
    requires Plain(s)
    ensures Heads(s) == s
  {
    if s != [] {
      PlainHeads(s[1..]);
    }
  }

  /** The expansion of a prefix without surrogates, by position: unit i is cut into the word i and the five-bit
      word behind the zero. */
  lemma PlainExpansion(hrp: Text)
    requires Plain(hrp)
    ensures var w, n := HrpExpansion(hrp), |hrp|;
      && |w| == 2 * n + 1 && w[n] == 0
      && (forall i :: n < i < |w| ==> w[i] < 32)
      && (forall i :: 0 <= i < n ==> w[i] * 32 + w[n + 1 + i] == hrp[i])
  {
    PlainHeads(hrp);
    CutUnits(hrp);
  }

  lemma CutUnits(chars: Text)
    ensures var w, n := HighBits(chars) + [0] + LowBits(chars), |chars|;
      && |w| == 2 * n + 1 && w[n] == 0
      && (forall i :: n < i < |w| ==> w[i] < 32)
      && (forall i :: 0 <= i < n ==> w[i] * 32 + w[n + 1 + i] == chars[i])
  {
  }

  function Joined(points: seq<Text>): Text {
    if points == [] then [] else points[0] + Joined(points[1..])
  }

  /** A high surrogate unit, and a low one. */
  predicate IsHigh(u: Unit) {
    0xD800 <= u < 0xDC00
  }

  predicate IsLow(u: Unit) {
    0xDC00 <= u < 0xE000
  }

  /** The code points of a string: pairs of a high and a low surrogate, and single units; no unit that could be
      the first of a pair stands alone in front of one that could be its second. */
  ghost predicate CodePoints(points: seq<Text>) {
    && (forall i :: 0 <= i < |points| ==>
          |points[i]| == 1 || (|points[i]| == 2 && IsHigh(points[i][0]) && IsLow(points[i][1])))
    && (forall i :: 0 < i < |points| && |points[i - 1]| == 1 && IsHigh(points[i - 1][0]) ==> !IsLow(points[i][0]))
  }

  lemma {:induction false} HeadsOfPoints(points: seq<Text>)
    requires CodePoints(points)
    ensures |Heads(Joined(points))| == |points|
    ensures forall i :: 0 <= i < |points| ==> Heads(Joined(points))[i] == points[i][0]
  {
    if points != [] {
      var first, rest := points[0], points[1..];
      PointsOfRest(points);
      HeadsOfPoints(rest);
      FirstPoint(points);
      assert Joined(points)[|first|..] == Joined(rest);
      HeadsStep(Joined(points));
      hide CodePoints, Heads, Joined;
    }
  }

  lemma PointsOfRest(points: seq<Text>)
    requires points != [] && CodePoints(points)
    ensures CodePoints(points[1..])
  {
    var rest := points[1..];
    forall i | 0 < i < |rest| && |rest[i - 1]| == 1 && IsHigh(rest[i - 1][0]) ensures !IsLow(rest[i][0]) {
      assert rest[i - 1] == points[i] && rest[i] == points[i + 1];
      assert |points[i + 1 - 1]| == 1;
    }
  }

  lemma FirstPoint(points: seq<Text>)
    requires points != [] && CodePoints(points)
    ensures Joined(points) != [] && Joined(points)[0] == points[0][0]
    ensures PointLength(Joined(points)) == |points[0]|
  {
    if |points| > 1 {
      assert Joined(points[1..]) == points[1] + Joined(points[1..][1..]);
      assert Joined(points)[|points[0]|] == points[1][0];
    }
  }

  /** Every string, well-formed or not, is made of code points in this sense. */
  lemma {:induction false} EveryTextHasCodePoints(s: Text) returns (points: seq<Text>)
    ensures CodePoints(points) && Joined(points) == s
    ensures s != [] ==> points != [] && points[0] != [] && points[0][0] == s[0]
    decreases |s|
  {
    points := [];
    if s != [] {
      var n := PointLength(s);
      var rest := EveryTextHasCodePoints(s[n..]);
      points := [s[..n]] + rest;
      assert points[1..] == rest;
      assert s == s[..n] + s[n..];
    }
  }

  /** The expansion of any prefix, by code point: the first unit of the i-th one is cut into the word i and the
      five-bit word behind the zero; the second unit of a surrogate pair leaves no trace. */
  lemma ExpansionByCodePoint(points: seq<Text>)
    requires CodePoints(points)
    ensures var w, n := HrpExpansion(Joined(points)), |points|;
      && |w| == 2 * n + 1 && w[n] == 0
      && (forall i :: n < i < |w| ==> w[i] < 32)
      && (forall i :: 0 <= i < n ==> w[i] * 32 + w[n + 1 + i] == points[i][0])
  {
    HeadsOfPoints(points);
    CutUnits(Heads(Joined(points)));
    hide CodePoints, Heads, Joined, HighBits, LowBits;
  }

  /** One turn of either loop: the code points visited so far, and those to come. */
  lemma NextPoint(s: Text, i: nat, visited: Text)
    requires i < |s| && visited + Heads(s[i..]) == Heads(s)
    ensures var next := i + PointLength(s[i..]);
      next <= |s| && visited + [s[i]] + Heads(s[next..]) == Heads(s)
  {
    HeadsStep(s[i..]);
    hide Heads, PointLength;
    var n := PointLength(s[i..]);
    DropDrop(s, i, n);
    Shunt(visited, s[i], Heads(s[i + n..]));
  }

  lemma DropDrop(s: Text, i: nat, n: nat)
    requires i + n <= |s|
    ensures s[i..][n..] == s[i + n..]
  {
  }

  lemma Shunt(a: Text, c: Unit, b: Text)
    ensures a + ([c] + b) == a + [c] + b
  {
  }

  lemma HeadsStep(s: Text)
    requires s != []
    ensures Heads(s) == [s[0]] + Heads(s[PointLength(s)..])
  {
  }

  lemma OneMoreChar(chars: Text, c: Unit)
    ensures HighBits(chars + [c]) == HighBits(chars) + [Sar(c, 5)]
    ensures LowBits(chars + [c]) == LowBits(chars) + [BitAnd(c, 31)]
  {
    assert Pow2(5) == 32;
    BitAndLowMask(c, 5);
  }

  method HrpExpand(hrp: Text) returns (result: seq<nat>)
    ensures result == HrpExpansion(hrp)
    ensures |result| % 2 == 1 && result[|result| / 2] == 0
    ensures Plain(hrp) ==>
      && |result| == 2 * |hrp| + 1
      && (forall i :: |hrp| < i < |result| ==> result[i] < 32)
      && (forall i :: 0 <= i < |hrp| ==> result[i] * 32 + result[|hrp| + 1 + i] == hrp[i])
  {
    hide Heads, PointLength, HighBits, LowBits, Sar, BitAnd, HrpExpansion, Plain;
    result := [];
    var i := 0;
    ghost var visited: Text := [];
    NothingVisited();
    assert hrp[0..] == hrp;
    while i < |hrp|
      invariant 0 <= i <= |hrp| && visited + Heads(hrp[i..]) == Heads(hrp) && result == HighBits(visited)
    {
      NextPoint(hrp, i, visited);
      OneMoreChar(visited, hrp[i]);
      result := result + [Sar(hrp[i], 5)];
      visited := visited + [hrp[i]];
      i := i + PointLength(hrp[i..]);
    }
    assert hrp[i..] == [] && visited == Heads(hrp);
    result := result + [0];
    i, visited := 0, [];
    while i < |hrp|
      invariant 0 <= i <= |hrp| && visited + Heads(hrp[i..]) == Heads(hrp)
      invariant result == HighBits(Heads(hrp)) + [0] + LowBits(visited)
    {
      NextPoint(hrp, i, visited);
      OneMoreChar(visited, hrp[i]);
      result := result + [BitAnd(hrp[i], 31)];
      visited := visited + [hrp[i]];
      i := i + PointLength(hrp[i..]);
    }
    assert hrp[i..] == [] && visited == Heads(hrp);
    ExpansionShape(hrp);
    if Plain(hrp) {
      PlainExpansion(hrp);
    }
  }

  lemma ExpansionShape(hrp: Text)
    ensures var w := HrpExpansion(hrp);
      w == HighBits(Heads(hrp)) + [0] + LowBits(Heads(hrp)) && |w| % 2 == 1 && w[|w| / 2] == 0
  {
    CutUnits(Heads(hrp));
    hide Heads, HighBits, LowBits;
  }

  lemma NothingVisited()
    ensures Heads([]) == [] && HighBits([]) == [] && LowBits([]) == []
  {
  }

  // ---- Checksum ----

  /** The six symbols that make the register end at 1. */
  function Checksum(hrp: Text, data: seq<nat>): (w: seq<nat>)
    ensures |w| == 6 && AreSymbols(w)
  {
    ToDigits(BitXor(Fold(1, HrpExpansion(hrp) + data + Zeros(6)), 1), 32, 6)
  }

  lemma {:induction false} DigitOf(v: nat, n: nat, i: nat)
    requires i < n
    ensures Pow2(5 * (n - 1 - i)) > 0
    ensures ToDigits(v, 32, n)[i] == (v / Pow2(5 * (n - 1 - i))) % 32
    decreases n
  {
    PowPositive(2, 5 * (n - 1 - i));
    DivNonNegative(v, 32);
    if i < n - 1 {
      var k := n - 2 - i;
      DigitOf(v / 32, n - 1, i);
      assert Pow2(5) == 32;
      PowAdd(2, 5, 5 * k);
      DivDiv(v, 32, Pow2(5 * k));
    }
  }

  lemma ExtractedSymbol(v: nat, shift: nat)
    requires shift < 32
    ensures Pow2(shift) > 0 && BitAnd(Sar(v, shift), 31) == (v / Pow2(shift)) % 32
  {
    PowPositive(2, shift);
    assert Pow2(5) == 32;
    BitAndLowMask(Sar(v, shift), 5);
  }

  lemma SumSymbol(mod: nat, p: nat)
    requires p < 6
    ensures BitAnd(Sar(mod, 5 * (5 - p)), 31) == ToDigits(mod, 32, 6)[p]
  {
    hide BitAnd, Sar, ToDigits, Pow;
    DigitOf(mod, 6, p);
    ExtractedSymbol(mod, 5 * (5 - p));
  }

  method CreateChecksum(hrp: Text, data: seq<nat>) returns (result: seq<nat>)
    requires FitsRegister(data)
    ensures result == Checksum(hrp, data)
  {
    hide BitAnd, Sar, ToDigits, BitXor, Fold, HrpExpansion;
    var expanded := HrpExpand(hrp);
    var values := expanded + data + [0, 0, 0, 0, 0, 0];
    assert [0, 0, 0, 0, 0, 0] == Zeros(6);
    var mod := Polymod.Polymod(values);
    mod := BitXor(mod, 1);
    ghost var sum := Checksum(hrp, data);
    result := [];
    for p := 0 to 6
      invariant result == sum[..p]
    {
      SumSymbol(mod, p);
      result := result + [BitAnd(Sar(mod, 5 * (5 - p)), 31)];
    }
  }

  /** Six trailing symbols enter the register as one number, on top of what zeros would leave there. */
  lemma SixTrailing(chk: nat, w: seq<nat>)
    requires |w| == 6 && AreSymbols(w)
    ensures Fold(chk, w) == BitXor(Fold(chk, Zeros(6)), Value(w, 32))
  {
    forall i | 0 <= i < 6 ensures XorAll(Zeros(6), w)[i] == w[i] {
      XorNothing(w[i]);
    }
    assert XorAll(Zeros(6), w) == w;
    XorNothing(chk);
    FoldLinear(chk, 0, Zeros(6), w);
    SymbolsStay(w);
  }

  /** For every prefix and every data part there is exactly one valid checksum, and it is the one the
      source appends. */
  lemma ChecksumIsTheValidOne(hrp: Text, data: seq<nat>, w: seq<nat>)
    requires FitsRegister(data) && |w| == 6 && AreSymbols(w)
    ensures Fold(1, HrpExpansion(hrp) + data + w) == 1 <==> w == Checksum(hrp, data)
  {
    var chk := Fold(1, HrpExpansion(hrp) + data);
    FoldConcat(1, HrpExpansion(hrp) + data, w);
    FoldConcat(1, HrpExpansion(hrp) + data, Zeros(6));
    var rest := Fold(chk, Zeros(6));
    Constants();
    FoldFits(1, HrpExpansion(hrp) + data + Zeros(6));
    XorBelow(rest, 1, 30);
    assert Pow(32, 6) == REGISTER;
    SixTrailing(chk, w);
    var sum := Checksum(hrp, data);
    SixTrailing(chk, sum);
    ToDigitsValue(BitXor(rest, 1), 32, 6);
    XorCommutes(rest, 1);
    XorCommutes(rest, BitXor(1, rest));
    XorCancels(1, rest);
    if Fold(chk, w) == 1 {
      XorCommutes(rest, Value(w, 32));
      XorCancels(Value(w, 32), rest);
      ValueInjective(w, sum, 32);
    }
  }

  // ---- The address ----

  function Letters(words: seq<nat>): (s: Text)
    requires AreSymbols(words)
    ensures |s| == |words|
  {
    seq<Unit>(|words|, i requires 0 <= i < |words| => Charset()[words[i]])
  }

  /** The payload as five-bit words. */
  function Words(digest: Bytes): (words: seq<nat>)
    ensures AreSymbols(words)
    ensures ConvertBits.Regroup(digest, 8, 5, true) == Ok(words)
  {
    ConvertBits.BytesRoundTrip(digest);
    ConvertBits.Regroup(digest, 8, 5, true).value
  }

  /** The address of `digest` under `prefix`. */
  function Encode(prefix: Text, digest: Bytes): Text {
    prefix + [SEPARATOR] + Letters(Words(digest) + Checksum(prefix, Words(digest)))
  }

  // ---- The table ----

  lemma EarlyEntryOccursOnce(i: nat, j: nat)
    requires i < j < 32 && i < 10
    ensures CHARSET[i] != CHARSET[j]
  {
  }

  lemma LateEntryOccursOnce(i: nat, j: nat)
    requires 10 <= i < j < 32
    ensures CHARSET[i] != CHARSET[j]
  {
  }

  lemma CharsetDistinct()
    ensures Distinct(Charset())
  {
    forall i, j | 0 <= i < j < 32 ensures Charset()[i] != Charset()[j] {
      if i < 10 {
        EarlyEntryOccursOnce(i, j);
      } else {
        LateEntryOccursOnce(i, j);
      }
    }
  }

  lemma CharsetWithoutSeparator()
    ensures SEPARATOR !in Charset()
  {
    assert '1' !in CHARSET;
  }

  /** The reverse of the table: the symbols of '0' to '9' and of 'a' to 'z', and -1 for a character without one. */
  const DIGIT_SYMBOLS: seq<int> := [15, -1, 10, 17, 21, 20, 26, 30, 7, 5]

  const LETTER_SYMBOLS: seq<int> :=
    [29, -1, 24, 13, 25, 9, 8, 23, -1, 18, 22, 31, 27, 19, -1, 1, 0, 3, 16, 11, 28, 12, 14, 6, 4, 2]

  function SymbolOf(u: Unit): (symbol: int)
    ensures symbol >= -1
  {
    if 48 <= u < 58 then DIGIT_SYMBOLS[u - 48]
    else if 97 <= u < 123 then LETTER_SYMBOLS[u - 97]
    else -1
  }

  lemma EarlySymbolOfEntry(i: nat)
    requires i < 16
    ensures SymbolOf(CHARSET[i] as int) == i
  {
  }

  lemma LateSymbolOfEntry(i: nat)
    requires 16 <= i < 32
    ensures SymbolOf(CHARSET[i] as int) == i
  {
  }

  lemma SymbolOfEntry(i: nat)
    requires i < 32
    ensures SymbolOf(Charset()[i]) == i
  {
    hide SymbolOf;
    if i < 16 {
      EarlySymbolOfEntry(i);
    } else {
      LateSymbolOfEntry(i);
    }
  }

  lemma EntryOfDigit(k: nat)
    requires k < 10 && DIGIT_SYMBOLS[k] >= 0
    ensures DIGIT_SYMBOLS[k] < 32 && CHARSET[DIGIT_SYMBOLS[k]] as int == 48 + k
  {
  }

  lemma EntryOfEarlyLetter(k: nat)
    requires k < 13 && LETTER_SYMBOLS[k] >= 0
    ensures LETTER_SYMBOLS[k] < 32 && CHARSET[LETTER_SYMBOLS[k]] as int == 97 + k
  {
  }

  lemma EntryOfLateLetter(k: nat)
    requires 13 <= k < 26 && LETTER_SYMBOLS[k] >= 0
    ensures LETTER_SYMBOLS[k] < 32 && CHARSET[LETTER_SYMBOLS[k]] as int == 97 + k
  {
  }

  lemma EntryOfSymbol(u: Unit)
    requires SymbolOf(u) >= 0
    ensures SymbolOf(u) < 32 && Charset()[SymbolOf(u)] == u
  {
    hide CHARSET, DIGIT_SYMBOLS, LETTER_SYMBOLS;
    if u < 58 {
      EntryOfDigit(u - 48);
    } else if u < 110 {
      EntryOfEarlyLetter(u - 97);
    } else {
      EntryOfLateLetter(u - 97);
    }
  }

  /** The table of the source, read backwards: for every character its symbol, or none. */
  lemma CharsetReversed(u: Unit)
    ensures IndexOf(Charset(), u) == SymbolOf(u)
  {
    hide CHARSET, DIGIT_SYMBOLS, LETTER_SYMBOLS, SymbolOf, Charset;
    if SymbolOf(u) >= 0 {
      EntryOfSymbol(u);
    }
    if IndexOf(Charset(), u) >= 0 {
      SymbolOfEntry(IndexOf(Charset(), u));
    }
  }

  // ---- The form of an address ----

  /** A letter stands for the symbol it was chosen for. */
  lemma LetterStandsFor(words: seq<nat>, i: nat)
    requires AreSymbols(words) && i < |words|
    ensures SymbolOf(Letters(words)[i]) == words[i]
  {
    SymbolOfEntry(words[i]);
  }

  lemma PartsOfAddress(prefix: Text, letters: Text)
    ensures var a, n := prefix + [SEPARATOR] + letters, |prefix|;
      && |a| == n + 1 + |letters| && a[..n] == prefix && a[n] == 49
      && forall i :: 0 <= i < |letters| ==> a[n + 1 + i] == letters[i]
  {
  }

  lemma WordCount(digest: Bytes)
    ensures |Words(digest)| == (8 * |digest| + 4) / 5
  {
    ConvertBits.BytesRoundTrip(digest);
  }

  /** An address is the prefix, the character '1', one letter for each started group of five bits of the digest,
      and six more. Its letters stand for the words of the digest and for the checksum. */
  lemma AddressForm(prefix: Text, digest: Bytes)
    ensures var a, n := Encode(prefix, digest), |prefix|;
      && |a| == n + 1 + (8 * |digest| + 4) / 5 + 6 && a[..n] == prefix && a[n] == 49
      && forall i :: 0 <= i < |a| - n - 1 ==>
           SymbolOf(a[n + 1 + i]) == (Words(digest) + Checksum(prefix, Words(digest)))[i]
  {
    WordCount(digest);
    hide SymbolOf, Checksum, Words;
    var symbols := Words(digest) + Checksum(prefix, Words(digest));
    forall i | 0 <= i < |symbols| ensures SymbolOf(Letters(symbols)[i]) == symbols[i] {
      LetterStandsFor(symbols, i);
    }
    hide Letters;
    PartsOfAddress(prefix, Letters(symbols));
  }

  method ToWords(digest: Bytes) returns (words: seq<nat>)
    ensures words == Words(digest)
  {
    assert Pow2(8) == 256;
    var converted := ConvertBits.ConvertBits(digest, 8, 5, true);
    words := converted.value;
  }

  /** pubkeyToCosmosAddress, over arbitrary hash functions. */
  method PubkeyToCosmosAddress(
      pubkeyCompressed: Bytes, sha256: Bytes -> Bytes, ripemd160: Bytes -> Bytes, prefix: Text)
    returns (address: Text)
    ensures address == Encode(prefix, ripemd160(sha256(pubkeyCompressed)))
    ensures |ripemd160(sha256(pubkeyCompressed))| == 20 ==> |address| == |prefix| + 39
    ensures |address| > |prefix| && address[..|prefix|] == prefix && address[|prefix|] == 49
  {
    var digest := ripemd160(sha256(pubkeyCompressed));
    var words := ToWords(digest);
    var checksum := CreateChecksum(prefix, words);
    address := AppendLetters(prefix + [SEPARATOR], words + checksum);
    AddressForm(prefix, digest);
  }

  /** The closing loop: one character of the table per symbol. */
  method AppendLetters(head: Text, combined: seq<nat>) returns (address: Text)
    requires AreSymbols(combined)
    ensures address == head + Letters(combined)
  {
    address := head;
    for i := 0 to |combined|
      invariant address == head + Letters(combined)[..i]
    {
      address := address + [Charset()[combined[i]]];
    }
  }

  // ---- The decoder of BIP-173 ----

  /** The position of the last '1', or -1. */
  function Separator(s: Text): (i: int)
    ensures -1 <= i < |s|
    ensures i >= 0 ==> s[i] == SEPARATOR
    ensures forall j :: i < j < |s| ==> s[j] != SEPARATOR
  {
    if s == [] then -1
    else if s[|s| - 1] == SEPARATOR then |s| - 1
    else Separator(s[..|s| - 1])
  }

  function Symbols(s: Text): Option<seq<nat>> {
    if exists i :: 0 <= i < |s| && s[i] !in Charset() then None
    else Some(seq<nat>(|s|, i requires 0 <= i < |s| => IndexOf(Charset(), s[i])))
  }

  /** The checksum test. */
  predicate Verified(hrp: Text, symbols: seq<nat>) {
    |symbols| >= 6 && Fold(1, HrpExpansion(hrp) + symbols) == 1
  }

  /** The payload in front of the checksum. */
  function Open(hrp: Text, symbols: seq<nat>): Option<(Text, Bytes)> {
    if !Verified(hrp, symbols) then None
    else
      match ConvertBits.Regroup(symbols[..|symbols| - 6], 5, 8, false)
      case Err(_) => None
      case Ok(payload) =>
        assert Pow2(8) == 256;
        Some((hrp, payload))
  }

  /** Prefix and payload of a Text that passes the checks of BIP-173. Its limits on length, on the
      characters of the prefix and on mixed case are not applied. */
  function Decode(s: Text): Option<(Text, Bytes)> {
    var at := Separator(s);
    if at < 0 then None
    else
      match Symbols(s[at + 1..])
      case None => None
      case Some(symbols) => Open(s[..at], symbols)
  }

  // ---- Encoding and decoding are inverse ----

  lemma LettersSpellSymbols(words: seq<nat>)
    requires AreSymbols(words)
    ensures Symbols(Letters(words)) == Some(words)
    ensures SEPARATOR !in Letters(words)
  {
    CharsetDistinct();
    CharsetWithoutSeparator();
    var s := Letters(words);
    forall i | 0 <= i < |s|
      ensures s[i] in Charset() && s[i] != SEPARATOR && IndexOf(Charset(), s[i]) == words[i]
    {
      IndexOfEntry(Charset(), words[i]);
    }
    assert Symbols(s).Some?;
    assert Symbols(s).value == words;
  }

  lemma SymbolsSpellLetters(s: Text)
    requires Symbols(s).Some?
    ensures AreSymbols(Symbols(s).value) && Letters(Symbols(s).value) == s
  {
    assert forall i :: 0 <= i < |s| ==> s[i] in Charset();
  }

  lemma {:induction false} SeparatorOf(prefix: Text, tail: Text)
    requires SEPARATOR !in tail
    ensures Separator(prefix + [SEPARATOR] + tail) == |prefix|
  {
    var s := prefix + [SEPARATOR] + tail;
    if tail == [] {
      assert s[|s| - 1] == SEPARATOR;
    } else {
      assert s[..|s| - 1] == prefix + [SEPARATOR] + tail[..|tail| - 1];
      assert s[|s| - 1] == tail[|tail| - 1];
      SeparatorOf(prefix, tail[..|tail| - 1]);
    }
  }

  lemma DecodeLetters(prefix: Text, symbols: seq<nat>)
    requires AreSymbols(symbols)
    ensures Decode(prefix + [SEPARATOR] + Letters(symbols)) == Open(prefix, symbols)
  {
    var s := prefix + [SEPARATOR] + Letters(symbols);
    LettersSpellSymbols(symbols);
    SeparatorOf(prefix, Letters(symbols));
    assert s[..|prefix|] == prefix && s[|prefix| + 1..] == Letters(symbols);
  }

  lemma VerifiedParts(hrp: Text, data: seq<nat>, w: seq<nat>)
    requires FitsRegister(data) && |w| == 6 && AreSymbols(w)
    ensures Verified(hrp, data + w) <==> w == Checksum(hrp, data)
  {
    ChecksumIsTheValidOne(hrp, data, w);
    assert HrpExpansion(hrp) + (data + w) == HrpExpansion(hrp) + data + w;
  }

  /** The decoder accepts exactly the addresses that the source issues, and reads back what they were
      issued for. */
  lemma DecodeInvertsEncode(s: Text, prefix: Text, digest: Bytes)
    ensures Decode(s) == Some((prefix, digest)) <==> s == Encode(prefix, digest)
  {
    if s == Encode(prefix, digest) {
      IssuedIsAccepted(prefix, digest);
    }
    if Decode(s) == Some((prefix, digest)) {
      AcceptedIsIssued(s, prefix, digest);
    }
  }

  lemma IssuedIsAccepted(prefix: Text, digest: Bytes)
    ensures Decode(Encode(prefix, digest)) == Some((prefix, digest))
  {
    var words := Words(digest);
    var sum := Checksum(prefix, words);
    VerifiedParts(prefix, words, sum);
    assert (words + sum)[..|words + sum| - 6] == words;
    ConvertBits.BytesRoundTrip(digest);
    DecodeLetters(prefix, words + sum);
  }

  lemma AcceptedIsIssued(s: Text, prefix: Text, digest: Bytes)
    requires Decode(s) == Some((prefix, digest))
    ensures s == Encode(prefix, digest)
  {
    var tail := s[Separator(s) + 1..];
    SymbolsSpellLetters(tail);
    OpenedIsIssued(prefix, Symbols(tail).value, digest);
    AroundSeparator(s, Separator(s));
  }

  lemma AroundSeparator(s: Text, at: nat)
    requires at < |s| && s[at] == SEPARATOR
    ensures s == s[..at] + [SEPARATOR] + s[at + 1..]
  {
    assert [SEPARATOR] == [s[at]];
  }

  lemma OpenedIsIssued(prefix: Text, symbols: seq<nat>, digest: Bytes)
    requires AreSymbols(symbols) && Open(prefix, symbols) == Some((prefix, digest))
    ensures symbols == Words(digest) + Checksum(prefix, Words(digest))
  {
    var n := |symbols| - 6;
    assert symbols == symbols[..n] + symbols[n..];
    VerifiedParts(prefix, symbols[..n], symbols[n..]);
    PayloadWords(digest, symbols[..n]);
  }

  lemma PayloadWords(digest: Bytes, words: seq<nat>)
    requires AreSymbols(words) && ConvertBits.Regroup(words, 5, 8, false) == Ok(digest)
    ensures words == Words(digest)
  {
    assert Pow2(8) == 256 && Pow2(5) == 32;
    ConvertBits.RegroupInverse(digest, 8, words, 5);
  }

  /** An accepted address that is damaged inside six consecutive characters of its data part, by other
      characters of the table, is rejected: whatever its prefix and its length. */
  lemma DamagedAddressRejected(prefix: Text, before: seq<nat>, s: seq<nat>, t: seq<nat>, after: seq<nat>)
    requires AreSymbols(before + s + after) && AreSymbols(before + t + after)
    requires |s| == |t| <= 6 && s != t
    requires Decode(prefix + [SEPARATOR] + Letters(before + s + after)) != None
    ensures Decode(prefix + [SEPARATOR] + Letters(before + t + after)) == None
  {
    DecodeLetters(prefix, before + s + after);
    DecodeLetters(prefix, before + t + after);
    MiddleSymbols(before, s, after);
    MiddleSymbols(before, t, after);
    DamageUnverified(prefix, before, s, t, after);
  }

  lemma MiddleSymbols(a: seq<nat>, b: seq<nat>, c: seq<nat>)
    requires AreSymbols(a + b + c)
    ensures AreSymbols(b)
  {
    assert forall i :: 0 <= i < |b| ==> (a + b + c)[|a| + i] == b[i];
  }

  lemma DamageUnverified(hrp: Text, before: seq<nat>, s: seq<nat>, t: seq<nat>, after: seq<nat>)
    requires |s| == |t| <= 6 && s != t && AreSymbols(s) && AreSymbols(t)
    requires Verified(hrp, before + s + after)
    ensures !Verified(hrp, before + t + after)
  {
    BurstDetected(1, HrpExpansion(hrp) + before, s, t, after);
    Regroup4(HrpExpansion(hrp), before, s, after);
    Regroup4(HrpExpansion(hrp), before, t, after);
  }

  lemma Regroup4(a: seq<nat>, b: seq<nat>, c: seq<nat>, d: seq<nat>)
    ensures a + (b + c + d) == (a + b) + c + d
  {
  }
}
