/** Base64 of packages/coordinator-rn/src/utils/bytes.ts, against section 4 of RFC 4648. */
module Base64 {
  import opened Common
  import opened Arith
  import opened Radix
  import opened JsInt32
  import opened Tables
  import ConvertBits

  const PAD: Unit := 61

  /** Table 1 of RFC 4648. */
  function Letter(sextet: nat): (u: Unit)
    requires sextet < 64
    ensures u != PAD && !IsSpace(u)
  {
    if sextet < 26 then 65 + sextet
    else if sextet < 52 then 71 + sextet
    else if sextet < 62 then sextet - 4
    else if sextet == 62 then 43
    else 47
  }

  function Alphabet(): (t: Text)
    ensures |t| == 64 && forall i :: 0 <= i < 64 ==> t[i] == Letter(i)
  {
    seq<Unit>(64, i requires 0 <= i < 64 => Letter(i))
  }

  /** JavaScript white space, the class \s. */
  predicate IsSpace(u: Unit) {
    9 <= u <= 13 || u == 32 || u == 0xA0 || u == 0x1680 || 0x2000 <= u <= 0x200A || u == 0x2028 || u == 0x2029
    || u == 0x202F || u == 0x205F || u == 0x3000 || u == 0xFEFF
  }

  /** The white space and line terminators of ECMAScript, one by one (sections 12.2 and 12.3 of ECMA-262). */
  const SPACES: seq<Unit> :=
    [9, 10, 11, 12, 13, 32, 160, 5760, 8192, 8193, 8194, 8195, 8196, 8197, 8198, 8199, 8200, 8201, 8202,
     8232, 8233, 8239, 8287, 12288, 65279]

  lemma SpacesListed(u: Unit)
    ensures IsSpace(u) <==> u in SPACES
  {
  }

  // ---- The table of the source spells the table of the standard ----

  const UPPER: string := "ABCDEFGHIJKLMNOPQRSTUVWXYZ"
  const LOWER: string := "abcdefghijklmnopqrstuvwxyz"
  const TABLE: string := UPPER + LOWER + "0123456789" + "+/"

  lemma UpperEntry(i: nat)
    requires i < 26
    ensures UPPER[i] as int == 65 + i
  {
  }

  lemma LowerEntry(i: nat)
    requires i < 26
    ensures LOWER[i] as int == 97 + i
  {
  }

  lemma DigitEntry(i: nat)
    requires i < 10
    ensures "0123456789"[i] as int == 48 + i
  {
  }

  lemma TableEntry(i: nat)
    requires i < 64
    ensures |TABLE| == 64 && TABLE[i] as int == Letter(i)
  {
    if i < 26 {
      UpperEntry(i);
    } else if i < 52 {
      LowerEntry(i - 26);
    } else if i < 62 {
      DigitEntry(i - 52);
    }
  }

  lemma AlphabetDistinct()
    ensures Distinct(Alphabet()) && PAD !in Alphabet()
  {
    forall i, j | 0 <= i < j < 64 ensures Alphabet()[i] != Alphabet()[j] {
      DifferentLetters(i, j);
    }
  }

  lemma DifferentLetters(i: nat, j: nat)
    requires i < j < 64
    ensures Letter(i) != Letter(j)
  {
  }

  // ---- Encoding ----

  function Letters(sextets: seq<nat>): (t: Text)
    requires AreDigits(sextets, 64)
    ensures |t| == |sextets|
    ensures forall i :: 0 <= i < |t| ==> t[i] == Letter(sextets[i])
  {
    seq<Unit>(|sextets|, i requires 0 <= i < |sextets| => Letter(sextets[i]))
  }

  function Pads(n: nat): (t: Text)
    ensures |t| == n
  {
    seq<Unit>(n, i => PAD)
  }

  /** Section 4 of RFC 4648: the bits of the input in groups of six, the last group filled up with zero
      bits, and the text filled up with '=' to a multiple of four. */
  function Encode(bytes: Bytes): Text {
    var sextets := Sextets(bytes);
    Letters(sextets) + Pads((4 - |sextets| % 4) % 4)
  }

  function Sextets(bytes: Bytes): (w: seq<nat>)
    ensures AreDigits(w, 64)
    ensures |w| == (8 * |bytes| + 5) / 6
  {
    SextetsExist(bytes);
    ConvertBits.Regroup(bytes, 8, 6, true).value
  }

  lemma SextetsExist(bytes: Bytes)
    ensures var r := ConvertBits.Regroup(bytes, 8, 6, true);
      r.Ok? && AreDigits(r.value, 64) && |r.value| == (8 * |bytes| + 5) / 6
  {
    assert Pow2(8) == 256 && Pow2(6) == 64;
    var words, gap := ConvertBits.PaddedMeans(bytes, 8, 6);
  }

  const SIX_ONES: nat := 63

  function SixBitsAt(chunk: int, shift: nat): (sextet: nat)
    requires shift < 32
    ensures sextet == Sar(chunk, shift) % 64
  {
    assert Pow2(6) == 64;
    BitAndLowMask(Sar(chunk, shift), 6);
    BitAnd(Sar(chunk, shift), SIX_ONES)
  }

  /** The four table positions of a 24-bit chunk. */
  function ChunkSextets(chunk: int): (w: seq<nat>)
    ensures |w| == 4 && AreDigits(w, 64)
  {
    [SixBitsAt(chunk, 18), SixBitsAt(chunk, 12), SixBitsAt(chunk, 6), SixBitsAt(chunk, 0)]
  }

  function EncodeTriple(a: Byte, b: Byte, c: Byte): Text {
    Letters(ChunkSextets(BitOr(BitOr(Shl(a, 16), Shl(b, 8)), c)))
  }

  function EncodePartial(a: Byte, b: Byte, padding: nat): Text {
    var sextets := ChunkSextets(BitOr(Shl(a, 16), Shl(b, 8)));
    if padding == 2 then Letters(sextets[..2]) + [PAD, PAD] else Letters(sextets[..3]) + [PAD]
  }

  // ---- Bit facts ----

  lemma Powers()
    ensures Pow2(0) == 1 && Pow2(6) == 64 && Pow2(8) == 256 && Pow2(12) == 0x1000 && Pow2(16) == 0x1_0000
    ensures Pow2(18) == 0x4_0000
  {
    PowAdd(2, 6, 6);
    PowAdd(2, 8, 8);
    PowAdd(2, 12, 6);
  }

  lemma ShiftedByte(x: Byte)
    ensures Shl(x, 16) == x * 0x1_0000 && Shl(x, 8) == x * 0x100
  {
    Powers();
    InRange(x * 0x1_0000);
    InRange(x * 0x100);
  }

  lemma JoinedBytes(a: Byte, b: Byte, c: Byte)
    ensures BitOr(Shl(a, 16), Shl(b, 8)) == a * 0x1_0000 + b * 0x100
    ensures BitOr(BitOr(Shl(a, 16), Shl(b, 8)), c) == a * 0x1_0000 + b * 0x100 + c
  {
    hide Pow, Pow2, BitOr, Shl;
    Powers();
    ShiftedByte(a);
    ShiftedByte(b);
    BitOrDisjoint(a, 16, b * 0x100);
    BitOrDisjoint(a * 0x100 + b, 8, c);
  }

  lemma SixBits(chunk: nat)
    ensures ChunkSextets(chunk) == [chunk / 0x4_0000 % 64, chunk / 0x1000 % 64, chunk / 64 % 64, chunk % 64]
  {
    Powers();
  }

  // ---- The encoding loop ----

  /** `w` spells the same bits as `bytes`, with none left over. */
  ghost predicate SameBits(bytes: Bytes, w: seq<nat>) {
    AreDigits(w, 64) && |w| * 6 == |bytes| * 8 && Value(w, 64) == Value(bytes, 256)
  }

  function FourSextets(a: Byte, b: Byte, c: Byte): (w: seq<nat>)
    ensures AreDigits(w, 64) && |w| == 4
  {
    [a / 4, a % 4 * 16 + b / 16, b % 16 * 4 + c / 64, c % 64]
  }

  lemma ChunkIsFourSextets(a: Byte, b: Byte, c: Byte)
    ensures ChunkSextets(BitOr(BitOr(Shl(a, 16), Shl(b, 8)), c)) == FourSextets(a, b, c)
    ensures ChunkSextets(BitOr(Shl(a, 16), Shl(b, 8))) == FourSextets(a, b, 0)
  {
    hide ChunkSextets, BitOr, Shl;
    JoinedBytes(a, b, c);
    CutChunk(a, b, c);
    CutChunk(a, b, 0);
  }

  lemma CutChunk(a: nat, b: nat, c: nat)
    requires a < 256 && b < 256 && c < 256
    ensures ChunkSextets(a * 0x1_0000 + b * 0x100 + c) == [a / 4, a % 4 * 16 + b / 16, b % 16 * 4 + c / 64, c % 64]
  {
    hide ChunkSextets;
    var chunk := a * 0x1_0000 + b * 0x100 + c;
    var s0, s1, s2, s3 := a / 4, a % 4 * 16 + b / 16, b % 16 * 4 + c / 64, c % 64;
    assert chunk == ((s0 * 64 + s1) * 64 + s2) * 64 + s3;
    CutSextets(s0, s1, s2, s3);
  }

  lemma CutSextets(s0: nat, s1: nat, s2: nat, s3: nat)
    requires s0 < 64 && s1 < 64 && s2 < 64 && s3 < 64
    ensures ChunkSextets(((s0 * 64 + s1) * 64 + s2) * 64 + s3) == [s0, s1, s2, s3]
  {
    hide ChunkSextets;
    SixBits(((s0 * 64 + s1) * 64 + s2) * 64 + s3);
    QuotientsOfChunk(s0, s1, s2, s3);
  }

  lemma QuotientsOfChunk(s0: nat, s1: nat, s2: nat, s3: nat)
    requires s0 < 64 && s1 < 64 && s2 < 64 && s3 < 64
    ensures var chunk := ((s0 * 64 + s1) * 64 + s2) * 64 + s3;
      chunk / 0x4_0000 % 64 == s0 && chunk / 0x1000 % 64 == s1 && chunk / 64 % 64 == s2 && chunk % 64 == s3
  {
    var chunk := ((s0 * 64 + s1) * 64 + s2) * 64 + s3;
    assert chunk / 64 == (s0 * 64 + s1) * 64 + s2;
    assert chunk / 0x1000 == s0 * 64 + s1;
  }

  lemma FourSextetsValue(a: Byte, b: Byte, c: Byte)
    ensures Value(FourSextets(a, b, c), 64) == (a * 256 + b) * 256 + c
    ensures Value(FourSextets(a, b, 0)[..3], 64) == (a * 256 + b) * 4
    ensures Value(FourSextets(a, 0, 0)[..2], 64) == a * 16
  {
    ValueOfFour(FourSextets(a, b, c));
    ValueOfFour(FourSextets(a, b, 0));
    ValueOfFour(FourSextets(a, 0, 0));
  }

  lemma ValueOfFour(w: seq<nat>)
    requires |w| == 4
    ensures Value(w[..1], 64) == w[0]
    ensures Value(w[..2], 64) == w[0] * 64 + w[1]
    ensures Value(w[..3], 64) == (w[0] * 64 + w[1]) * 64 + w[2]
    ensures Value(w, 64) == ((w[0] * 64 + w[1]) * 64 + w[2]) * 64 + w[3]
  {
    assert w[..1][..0] == [] && w[..2][..1] == w[..1] && w[..3][..2] == w[..2];
  }

  lemma ValueOfThree(front: Bytes, a: Byte, b: Byte, c: Byte)
    ensures Value(front + [a], 256) == Value(front, 256) * 256 + a
    ensures Value(front + [a, b], 256) == (Value(front, 256) * 256 + a) * 256 + b
    ensures Value(front + [a, b, c], 256) == ((Value(front, 256) * 256 + a) * 256 + b) * 256 + c
  {
    ValueAppend(front, a, 256);
    ValueAppend(front + [a], b, 256);
    ValueAppend(front + [a] + [b], c, 256);
    assert front + [a, b] == front + [a] + [b];
    assert front + [a, b, c] == front + [a] + [b] + [c];
  }

  lemma ValueWithTail(w: seq<nat>, a: Byte, b: Byte, c: Byte)
    ensures Value(w + FourSextets(a, b, c), 64) == Value(w, 64) * 0x100_0000 + (a * 256 + b) * 256 + c
    ensures Value(w + FourSextets(a, b, 0)[..3], 64) == Value(w, 64) * 0x4_0000 + (a * 256 + b) * 4
    ensures Value(w + FourSextets(a, 0, 0)[..2], 64) == Value(w, 64) * 0x1000 + a * 16
  {
    assert Pow(64, 4) == 0x100_0000 && Pow(64, 3) == 0x4_0000 && Pow(64, 2) == 0x1000;
    FourSextetsValue(a, b, c);
    ValueConcat(w, FourSextets(a, b, c), 64);
    ValueConcat(w, FourSextets(a, b, 0)[..3], 64);
    ValueConcat(w, FourSextets(a, 0, 0)[..2], 64);
  }

  /** Three more bytes are four more sextets. */
  lemma OneMoreTriple(front: Bytes, w: seq<nat>, a: Byte, b: Byte, c: Byte)
    requires SameBits(front, w)
    ensures SameBits(front + [a, b, c], w + FourSextets(a, b, c))
  {
    ValueOfThree(front, a, b, c);
    ValueWithTail(w, a, b, c);
  }

  lemma LettersConcat(v: seq<nat>, w: seq<nat>)
    requires AreDigits(v, 64) && AreDigits(w, 64)
    ensures AreDigits(v + w, 64) && Letters(v + w) == Letters(v) + Letters(w)
  {
  }

  lemma NextTriple(bytes: Bytes, i: nat, w: seq<nat>) returns (next: seq<nat>)
    requires i + 2 < |bytes| && SameBits(bytes[..i], w)
    ensures SameBits(bytes[..i + 3], next)
    ensures Letters(next) == Letters(w) + EncodeTriple(bytes[i], bytes[i + 1], bytes[i + 2])
  {
    hide Letters, ChunkSextets, BitOr, Shl, FourSextets, SameBits;
    assert AreDigits(w, 64) by {
      SameBitsAreDigits(bytes[..i], w);
    }
    next := w + FourSextets(bytes[i], bytes[i + 1], bytes[i + 2]);
    assert bytes[..i + 3] == bytes[..i] + [bytes[i], bytes[i + 1], bytes[i + 2]];
    OneMoreTriple(bytes[..i], w, bytes[i], bytes[i + 1], bytes[i + 2]);
    ChunkIsFourSextets(bytes[i], bytes[i + 1], bytes[i + 2]);
    LettersConcat(w, FourSextets(bytes[i], bytes[i + 1], bytes[i + 2]));
  }

  lemma SameBitsAreDigits(bytes: Bytes, w: seq<nat>)
    requires SameBits(bytes, w)
    ensures AreDigits(w, 64)
  {
  }

  lemma NothingSpelled()
    ensures SameBits([], []) && Letters([]) == []
  {
  }

  method ToBase64(bytes: Bytes) returns (output: Text)
    ensures output == Encode(bytes)
  {
    hide Letters, EncodeTriple, EncodePartial, SameBits, Encode;
    ghost var w: seq<nat> := [];
    NothingSpelled();
    WholeTriples([], w);
    if |bytes| == 0 {
      return [];
    }
    output := [];
    var i := 0;
    while i + 2 < |bytes|
      invariant 0 <= i <= |bytes| && i % 3 == 0
      invariant SameBits(bytes[..i], w) && AreDigits(w, 64) && output == Letters(w)
    {
      w := NextTriple(bytes, i, w);
      SameBitsAreDigits(bytes[..i + 3], w);
      output := output + EncodeTriple(bytes[i], bytes[i + 1], bytes[i + 2]);
      i := i + 3;
    }
    var remaining := |bytes| - i;
    if remaining == 1 {
      LastByte(bytes[..i], w, bytes[i]);
      assert bytes == bytes[..i] + [bytes[i]];
      output := output + EncodePartial(bytes[i], 0, 2);
    } else if remaining == 2 {
      LastTwoBytes(bytes[..i], w, bytes[i], bytes[i + 1]);
      assert bytes == bytes[..i] + [bytes[i], bytes[i + 1]];
      output := output + EncodePartial(bytes[i], bytes[i + 1], 1);
    } else {
      assert bytes[..i] == bytes;
      WholeTriples(bytes, w);
    }
  }

  /** The sextets of the standard, recognised by what they spell. */
  lemma SextetsAre(bytes: Bytes, words: seq<nat>, gap: nat, p: nat)
    requires gap < 6 && p == Pow2(gap) && AreDigits(words, 64)
    requires |words| * 6 == |bytes| * 8 + gap
    requires Value(words, 64) == Value(bytes, 256) * p
    ensures Sextets(bytes) == words
  {
    assert Pow2(8) == 256 && Pow2(6) == 64;
    ConvertBits.PaddedIsUnique(bytes, 8, words, 6, gap);
  }

  lemma PadCount(n: nat, p: nat)
    requires p < 4 && (n + p) % 4 == 0
    ensures p == (4 - n % 4) % 4
  {
    var m := (n + p) / 4;
    assert n == 4 * m - p;
  }

  /** The text of an input whose sextets are known. */
  lemma EncodeIs(bytes: Bytes, w: seq<nat>, p: nat)
    requires Sextets(bytes) == w && p < 4 && (|w| + p) % 4 == 0
    ensures Encode(bytes) == Letters(w) + Pads(p)
  {
    PadCount(|w|, p);
    hide Sextets, Letters, Pads, AreDigits;
  }

  lemma WholeTriples(bytes: Bytes, w: seq<nat>)
    requires SameBits(bytes, w) && |bytes| % 3 == 0
    ensures Encode(bytes) == Letters(w)
  {
    hide Sextets, Letters, Encode, Value;
    assert Pow2(0) == 1;
    SextetsAre(bytes, w, 0, 1);
    EncodeIs(bytes, w, 0);
  }

  lemma LastByteSextets(front: Bytes, w: seq<nat>, a: Byte)
    requires SameBits(front, w)
    ensures Sextets(front + [a]) == w + FourSextets(a, 0, 0)[..2]
  {
    assert Pow2(4) == 16;
    ValueOfThree(front, a, 0, 0);
    ValueWithTail(w, a, 0, 0);
    DigitsConcat(w, FourSextets(a, 0, 0)[..2]);
    hide FourSextets, Value, Sextets, Pow;
    SextetsAre(front + [a], w + FourSextets(a, 0, 0)[..2], 4, 16);
  }

  lemma LastTwoBytesSextets(front: Bytes, w: seq<nat>, a: Byte, b: Byte)
    requires SameBits(front, w)
    ensures Sextets(front + [a, b]) == w + FourSextets(a, b, 0)[..3]
  {
    assert Pow2(2) == 4;
    ValueOfThree(front, a, b, 0);
    ValueWithTail(w, a, b, 0);
    DigitsConcat(w, FourSextets(a, b, 0)[..3]);
    hide FourSextets, Value, Sextets, Pow;
    SextetsAre(front + [a, b], w + FourSextets(a, b, 0)[..3], 2, 4);
  }

  lemma DigitsConcat(v: seq<nat>, w: seq<nat>)
    requires AreDigits(v, 64) && AreDigits(w, 64)
    ensures AreDigits(v + w, 64)
  {
  }

  lemma LastByte(front: Bytes, w: seq<nat>, a: Byte)
    requires SameBits(front, w) && |front| % 3 == 0
    ensures Encode(front + [a]) == Letters(w) + EncodePartial(a, 0, 2)
  {
    hide Sextets, ChunkSextets, FourSextets, Letters, BitOr, Shl, Value;
    LastByteSextets(front, w, a);
    LettersOfParts(front + [a], w, FourSextets(a, 0, 0)[..2]);
    ChunkIsFourSextets(a, 0, 0);
    assert Pads(2) == [PAD, PAD];
  }

  lemma LastTwoBytes(front: Bytes, w: seq<nat>, a: Byte, b: Byte)
    requires SameBits(front, w) && |front| % 3 == 0
    ensures Encode(front + [a, b]) == Letters(w) + EncodePartial(a, b, 1)
  {
    hide Sextets, ChunkSextets, FourSextets, Letters, BitOr, Shl, Value;
    LastTwoBytesSextets(front, w, a, b);
    LettersOfParts(front + [a, b], w, FourSextets(a, b, 0)[..3]);
    ChunkIsFourSextets(a, b, 0);
    assert Pads(1) == [PAD];
  }

  lemma PartsFill(front: nat, tail: nat)
    requires front % 4 == 0 && 0 < tail < 4
    ensures (front + tail + (4 - tail)) % 4 == 0
  {
    assert front + tail + (4 - tail) == front + 4;
  }

  lemma LettersOfParts(bytes: Bytes, front: seq<nat>, tail: seq<nat>)
    requires AreDigits(front, 64) && AreDigits(tail, 64)
    requires Sextets(bytes) == front + tail && |front| % 4 == 0 && 0 < |tail| < 4
    ensures Encode(bytes) == Letters(front) + Letters(tail) + Pads(4 - |tail|)
  {
    hide Sextets, Letters, Encode, Pads, AreDigits;
    LettersConcat(front, tail);
    PartsFill(|front|, |tail|);
    EncodeIs(bytes, front + tail, 4 - |tail|);
  }

  /** The length promised by base64: four characters for every started group of three bytes. */
  lemma EncodedLength(bytes: Bytes)
    ensures |Encode(bytes)| == 4 * ((|bytes| + 2) / 3)
  {
    hide Sextets, Letters;
    LengthArithmetic(|bytes|);
  }

  lemma LengthArithmetic(n: nat)
    ensures var k := (8 * n + 5) / 6;
      k + (4 - k % 4) % 4 == 4 * ((n + 2) / 3)
  {
    var q, r := n / 3, n % 3;
    var e := if r == 0 then 0 else r + 1;
    DivModUnique(8 * n + 5, 6, 4 * q + e, 8 * r + 5 - 6 * e);
    DivModUnique(4 * q + e, 4, q, e);
    DivModUnique(n + 2, 3, if r == 0 then q else q + 1, (r + 2) % 3);
  }

  // ---- Decoding ----

  /** What fromBase64 returns or throws. */
  datatype Decoded = Decoded(bytes: Bytes) | BadLength | BadCharacter

  /** value.replace(/\s+/g, '') */
  function Clean(value: Text): (t: Text)
    ensures forall u :: u in t ==> !IsSpace(u)
  {
    if value == [] then []
    else if IsSpace(value[0]) then Clean(value[1..])
    else [value[0]] + Clean(value[1..])
  }

  function Kept(u: Unit): Text {
    if IsSpace(u) then [] else [u]
  }

  lemma CleanUnit(u: Unit)
    ensures Clean([u]) == if u in SPACES then [] else [u]
  {
    SpacesListed(u);
    assert [u][1..] == [];
    hide IsSpace;
  }

  /** White space goes wherever it stands, and everything else stays in its order. */
  lemma {:induction false} CleanByParts(a: Text, u: Unit, b: Text)
    ensures Clean(a + [u] + b) == Clean(a) + (if u in SPACES then [] else [u]) + Clean(b)
  {
    CleanUnit(u);
    CleanConcat(a, [u]);
    CleanConcat(a + [u], b);
    hide Clean;
  }

  lemma CleanFirst(t: Text)
    ensures Clean(t) == if t == [] then [] else Kept(t[0]) + Clean(t[1..])
  {
    hide IsSpace;
  }

  lemma Reassociate(x: Text, y: Text, z: Text)
    ensures x + (y + z) == (x + y) + z
  {
  }

  lemma {:induction false} CleanConcat(a: Text, b: Text)
    ensures Clean(a + b) == Clean(a) + Clean(b)
  {
    hide Clean, Kept;
    CleanFirst(a);
    if a == [] {
      assert a + b == b;
    } else {
      CleanConcat(a[1..], b);
      CleanFirst(a + b);
      assert (a + b)[1..] == a[1..] + b && (a + b)[0] == a[0];
      Reassociate(Kept(a[0]), Clean(a[1..]), Clean(b));
    }
  }

  /** A character is acceptable at a place of a text, given the place within its group. */
  predicate AcceptableAt(u: Unit, place: nat) {
    InAlphabet(u) || (place >= 2 && u == PAD)
  }

  /** Letters anywhere, '=' only in the last two places of a group of four. */
  predicate Acceptable(t: Text) {
    forall i :: 0 <= i < |t| ==> AcceptableAt(t[i], i % 4)
  }

  predicate InAlphabet(u: Unit) {
    u in Alphabet()
  }

  function SextetOf(u: Unit): (n: nat)
    ensures n < 64
  {
    if InAlphabet(u) then IndexOf(Alphabet(), u) else 0
  }

  function SextetsOf(t: Text): (w: seq<nat>)
    ensures |w| == |t| && AreDigits(w, 64)
    ensures forall i :: 0 <= i < |t| ==> w[i] == SextetOf(t[i])
  {
    seq<nat>(|t|, i requires 0 <= i < |t| => SextetOf(t[i]))
  }

  /** All the bytes that the text's bits fill. */
  function FilledBytes(t: Text): (b: Bytes)
    requires |t| % 4 == 0
    ensures |b| == |t| / 4 * 3
  {
    ToDigits(Value(SextetsOf(t), 64), 256, |t| / 4 * 3)
  }

  function Padding(t: Text): (n: nat)
    ensures n <= 2
  {
    if |t| >= 2 && t[|t| - 2] == PAD && t[|t| - 1] == PAD then 2
    else if |t| >= 1 && t[|t| - 1] == PAD then 1
    else 0
  }

  /** fromBase64 as a function of the string: bits in, as many bytes out as the padding leaves. */
  function Decode(value: Text): Decoded {
    var t := Clean(value);
    if |t| % 4 != 0 then BadLength
    else if !Acceptable(t) then BadCharacter
    else if t == [] then Decoded([])
    else Decoded(FilledBytes(t)[..|t| / 4 * 3 - Padding(t)])
  }

  /** The table read backwards, by ranges of ASCII: A-Z, a-z, 0-9, '+' and '/'. */
  function SextetOfAscii(u: Unit): Option<nat> {
    if 65 <= u <= 90 then Some(u - 65)
    else if 97 <= u <= 122 then Some(u - 71)
    else if 48 <= u <= 57 then Some(u + 4)
    else if u == 43 then Some(62)
    else if u == 47 then Some(63)
    else None
  }

  lemma AsciiOfLetter(sextet: nat)
    requires sextet < 64
    ensures SextetOfAscii(Letter(sextet)) == Some(sextet)
  {
  }

  lemma LetterOfAscii(u: Unit)
    requires SextetOfAscii(u).Some?
    ensures SextetOfAscii(u).value < 64 && Letter(SextetOfAscii(u).value) == u
  {
  }

  lemma AlphabetReversed(u: Unit)
    ensures InAlphabet(u) <==> SextetOfAscii(u).Some?
    ensures InAlphabet(u) ==> SextetOfAscii(u) == Some(SextetOf(u))
  {
    hide Letter, Alphabet, SextetOfAscii;
    if SextetOfAscii(u).Some? {
      LetterOfAscii(u);
      assert Alphabet()[SextetOfAscii(u).value] == u;
    }
    if InAlphabet(u) {
      AsciiOfLetter(SextetOf(u));
    }
  }

  function DecodeChar(charCode: Unit): (index: Option<nat>)
    ensures index.Some? ==> index.value < 64
  {
    if IndexOf(Alphabet(), charCode) == -1 then None else Some(IndexOf(Alphabet(), charCode))
  }

  const EIGHT_ONES: nat := 255

  function EightBitsAt(triple: int, shift: nat): (b: Byte)
    requires shift < 32
    ensures b == Sar(triple, shift) % 256
  {
    assert Pow2(8) == 256;
    BitAndLowMask(Sar(triple, shift), 8);
    BitAnd(Sar(triple, shift), EIGHT_ONES)
  }

  lemma ShiftedSextet(x: nat)
    requires x < 64
    ensures Shl(x, 18) == x * 0x4_0000 && Shl(x, 12) == x * 0x1000 && Shl(x, 6) == x * 64
  {
    Powers();
    InRange(x * 0x4_0000);
    InRange(x * 0x1000);
    InRange(x * 64);
  }

  function JoinSextets(a: nat, b: nat, c: nat, d: nat): int
    requires a < 64 && b < 64 && c < 64 && d < 64
  {
    ShiftedSextet(b);
    ShiftedSextet(c);
    BitOr(BitOr(BitOr(Shl(a, 18), Shl(b, 12)), Shl(c, 6)), d)
  }

  /** The third and fourth characters of a group may also be '='. */
  function DecodeOrPad(charCode: Unit): (index: Option<nat>)
    ensures index.Some? ==> index.value < 64
  {
    if charCode == PAD then Some(0) else DecodeChar(charCode)
  }

  function ThreeBytesOf(triple: int): (b: Bytes)
    ensures |b| == 3
  {
    [EightBitsAt(triple, 16), EightBitsAt(triple, 8), EightBitsAt(triple, 0)]
  }

  /** What decodeQuad returns or throws. */
  datatype Chunk = Chunk(bytes: Bytes) | NotBase64

  function DecodeQuad(a: Unit, b: Unit, c: Unit, d: Unit): Chunk {
    match (DecodeChar(a), DecodeChar(b), DecodeOrPad(c), DecodeOrPad(d))
    case (Some(sextetA), Some(sextetB), Some(sextetC), Some(sextetD)) =>
      Chunk(ThreeBytesOf(JoinSextets(sextetA, sextetB, sextetC, sextetD)))
    case _ => NotBase64
  }

  lemma JoinedSextets(a: nat, b: nat, c: nat, d: nat)
    requires a < 64 && b < 64 && c < 64 && d < 64
    ensures JoinSextets(a, b, c, d) == ((a * 64 + b) * 64 + c) * 64 + d
  {
    hide Pow, Pow2, BitOr, Shl;
    Powers();
    ShiftedSextet(a);
    ShiftedSextet(b);
    ShiftedSextet(c);
    BitOrDisjoint(a, 18, b * 0x1000);
    BitOrDisjoint(a * 64 + b, 12, c * 64);
    BitOrDisjoint((a * 64 + b) * 64 + c, 6, d);
  }

  lemma ThreeBytes(v: nat)
    requires v < 0x100_0000
    ensures ThreeBytesOf(v) == ToDigits(v, 256, 3)
  {
    Powers();
    hide EightBitsAt;
    assert ToDigits(v / 256 / 256 / 256, 256, 0) == [];
    assert ToDigits(v / 256 / 256, 256, 1) == [v / 256 / 256 % 256];
    assert ToDigits(v / 256, 256, 2) == [v / 256 / 256 % 256, v / 256 % 256];
    assert ToDigits(v, 256, 3) == [v / 256 / 256 % 256, v / 256 % 256, v % 256];
    assert v / 0x1_0000 == v / 256 / 256;
  }

  lemma CharIsSextet(u: Unit)
    ensures DecodeChar(u) == if InAlphabet(u) then Some(SextetOf(u)) else None
    ensures DecodeOrPad(u) == if InAlphabet(u) || u == PAD then Some(SextetOf(u)) else None
  {
    hide Alphabet;
    AlphabetDistinct();
  }

  lemma QuadIsFilled(q: Text)
    requires |q| == 4
    ensures DecodeQuad(q[0], q[1], q[2], q[3]) == if Acceptable(q) then Chunk(FilledBytes(q)) else NotBase64
  {
    hide JoinSextets, ThreeBytesOf, Alphabet, DecodeChar, DecodeOrPad, SextetOf, InAlphabet, ToDigits;
    CharIsSextet(q[0]);
    CharIsSextet(q[1]);
    CharIsSextet(q[2]);
    CharIsSextet(q[3]);
    if Acceptable(q) {
      FilledQuad(q);
    }
  }

  lemma FilledQuad(q: Text)
    requires |q| == 4
    ensures FilledBytes(q)
         == ThreeBytesOf(JoinSextets(SextetOf(q[0]), SextetOf(q[1]), SextetOf(q[2]), SextetOf(q[3])))
  {
    hide JoinSextets, ThreeBytesOf, SextetOf, Value, ToDigits;
    var w := SextetsOf(q);
    ValueOfFour(w);
    JoinedSextets(w[0], w[1], w[2], w[3]);
    ThreeBytes(Value(w, 64));
  }

  lemma SextetsOfConcat(t: Text, q: Text)
    ensures SextetsOf(t + q) == SextetsOf(t) + SextetsOf(q)
  {
  }

  /** One group more fills three bytes more. */
  lemma OneMoreQuad(t: Text, q: Text)
    requires |t| % 4 == 0 && |q| == 4
    ensures FilledBytes(t + q) == FilledBytes(t) + FilledBytes(q)
  {
    hide SextetsOf, Value, ToDigits;
    SextetsOfConcat(t, q);
    ValueConcat(SextetsOf(t), SextetsOf(q), 64);
    ValueBound(SextetsOf(q), 64);
    assert Pow(64, 4) == Pow(256, 3) == 0x100_0000;
    ToDigitsSplit(Value(SextetsOf(t), 64), Value(SextetsOf(q), 64), 256, |t| / 4 * 3, 3);
  }

  lemma AcceptableByGroup(t: Text, q: Text)
    requires |t| % 4 == 0 && |q| == 4
    ensures Acceptable(t + q) <==> Acceptable(t) && Acceptable(q)
  {
    hide AcceptableAt;
    forall i | 0 <= i < 4 ensures (t + q)[|t| + i] == q[i] && (|t| + i) % 4 == i % 4 {
      SamePlace(|t|, i);
    }
    if Acceptable(t + q) {
      assert forall i :: 0 <= i < |t| ==> (t + q)[i] == t[i];
      forall i | 0 <= i < 4 ensures AcceptableAt(q[i], i % 4) {
        assert AcceptableAt((t + q)[|t| + i], (|t| + i) % 4);
      }
    }
    if Acceptable(t) && Acceptable(q) {
      forall i | 0 <= i < |t| + 4 ensures AcceptableAt((t + q)[i], i % 4) {
        if i >= |t| {
          assert AcceptableAt(q[i - |t|], (i - |t|) % 4);
        }
      }
    }
  }

  lemma SamePlace(n: nat, i: nat)
    requires n % 4 == 0
    ensures (n + i) % 4 == i % 4
  {
    var m := n / 4;
    DivModUnique(n + i, 4, m + i / 4, i % 4);
  }

  lemma AcceptablePrefix(t: Text, n: nat)
    requires n <= |t| && Acceptable(t)
    ensures Acceptable(t[..n])
  {
    hide InAlphabet;
  }

  /** The inner loop of fromBase64. */
  method CopyChunk(output: array<Byte>, outIndex: nat, chunk: Bytes, byteCount: nat)
    requires outIndex + byteCount <= output.Length && byteCount <= |chunk|
    modifies output
    ensures output[..outIndex + byteCount] == old(output[..outIndex]) + chunk[..byteCount]
  {
    var j := 0;
    while j < byteCount
      invariant 0 <= j <= byteCount
      invariant output[..outIndex + j] == old(output[..outIndex]) + chunk[..j]
    {
      output[outIndex + j] := chunk[j];
      assert output[..outIndex + j + 1] == old(output[..outIndex]) + chunk[..j] + [chunk[j]];
      j := j + 1;
    }
  }

  lemma FilledPrefix(front: Bytes, chunk: Bytes, byteCount: nat)
    requires byteCount <= |chunk|
    ensures (front + chunk)[..|front| + byteCount] == front + chunk[..byteCount] && front[..|front|] == front
  {
  }

  method FromBase64(value: Text) returns (r: Decoded)
    ensures r == Decode(value)
  {
    hide Clean, Acceptable, FilledBytes, DecodeQuad, Padding;
    var clean := Clean(value);
    var len := |clean|;
    assert Acceptable([]) && FilledBytes([]) == [] by {
      NothingDecoded();
    }
    if len == 0 {
      return Decoded([]);
    }
    if len % 4 != 0 {
      return BadLength;
    }
    var padding := Padding(clean);
    var output := new Byte[len / 4 * 3 - padding];
    var outIndex, i := 0, 0;
    ghost var groups, n := len / 4, 0;
    assert len == 4 * groups && output.Length == 3 * groups - padding;
    while i < len
      invariant n <= groups && i == 4 * n
      invariant outIndex == if n < groups then 3 * n else output.Length
      invariant Acceptable(clean[..i])
      invariant output[..outIndex] == FilledBytes(clean[..i])[..outIndex]
    {
      NextGroup(clean, i);
      var chunk := DecodeQuad(clean[i], clean[i + 1], clean[i + 2], clean[i + 3]);
      if chunk.NotBase64? {
        if Acceptable(clean) {
          AcceptablePrefix(clean, i + 4);
        }
        return BadCharacter;
      }
      var byteCount := if output.Length - outIndex < 3 then output.Length - outIndex else 3;
      FilledPrefix(FilledBytes(clean[..i]), chunk.bytes, byteCount);
      CopyChunk(output, outIndex, chunk.bytes, byteCount);
      outIndex := outIndex + byteCount;
      i := i + 4;
      n := n + 1;
    }
    assert clean[..i] == clean;
    return Decoded(output[..]);
  }

  lemma NextGroup(t: Text, i: nat)
    requires i + 4 <= |t| && i % 4 == 0
    ensures (i + 4) % 4 == 0
    ensures var chunk := DecodeQuad(t[i], t[i + 1], t[i + 2], t[i + 3]);
      && (chunk.Chunk? ==> FilledBytes(t[..i + 4]) == FilledBytes(t[..i]) + chunk.bytes && |chunk.bytes| == 3)
      && (Acceptable(t[..i + 4]) <==> Acceptable(t[..i]) && chunk.Chunk?)
  {
    hide Acceptable, FilledBytes, DecodeQuad;
    var quad := t[i..i + 4];
    assert t[..i + 4] == t[..i] + quad;
    QuadIsFilled(quad);
    OneMoreQuad(t[..i], quad);
    AcceptableByGroup(t[..i], quad);
  }

  lemma NothingDecoded()
    ensures Acceptable([]) && FilledBytes([]) == []
  {
  }

  /** Which texts decode, in numbers: after white space is dropped their length is a multiple of four, and
      their characters are letters, digits, '+' (43), '/' (47), or '=' (61) in the last two places of a group. */
  lemma DecodesIff(value: Text)
    ensures var t := Clean(value);
      && (Decode(value).BadLength? <==> |t| % 4 != 0)
      && (Decode(value).Decoded? <==>
            |t| % 4 == 0 && forall i :: 0 <= i < |t| ==> SextetOfAscii(t[i]).Some? || (i % 4 >= 2 && t[i] == 61))
  {
    var t := Clean(value);
    forall i | 0 <= i < |t|
      ensures AcceptableAt(t[i], i % 4) <==> SextetOfAscii(t[i]).Some? || (i % 4 >= 2 && t[i] == 61)
    {
      AlphabetReversed(t[i]);
      hide InAlphabet, SextetOfAscii;
    }
    hide InAlphabet, SextetOfAscii, AcceptableAt, FilledBytes, Padding, Clean;
  }

  /** What a text decodes to: as many bytes less than its groups of three as '=' stand at its end, two at most,
      and, with so many bytes behind them, the number that its sextets spell. */
  lemma DecodedBytesSpell(value: Text) returns (rest: Bytes)
    requires Decode(value).Decoded?
    ensures var t, bytes := Clean(value), Decode(value).bytes;
      && |bytes| + |rest| == |t| / 4 * 3
      && |rest| == (if |t| > 0 && t[|t| - 1] == 61 then if t[|t| - 2] == 61 then 2 else 1 else 0)
      && Value(bytes + rest, 256) == Value(SextetsOf(t), 64)
  {
    hide Clean, SextetsOf, Value, ToDigits, Acceptable, Pow, FilledBytes;
    var t := Clean(value);
    if t == [] {
      NothingDecoded();
    }
    var n := |t| / 4 * 3 - Padding(t);
    FilledBytesSpell(t);
    rest := FilledBytes(t)[n..];
    assert FilledBytes(t) == FilledBytes(t)[..n] + rest;
  }

  lemma FilledBytesSpell(t: Text)
    requires |t| % 4 == 0
    ensures Value(FilledBytes(t), 256) == Value(SextetsOf(t), 64)
  {
    var n := |t| / 4;
    ValueBound(SextetsOf(t), 64);
    assert Pow(64, 4) == Pow(256, 3);
    PowMul(64, 4, n);
    PowMul(256, 3, n);
    assert 4 * n == |t|;
    ToDigitsValue(Value(SextetsOf(t), 64), 256, n * 3);
  }

  // ---- Encoding, then decoding ----

  lemma CleanKeeps(t: Text)
    requires forall u :: u in t ==> !IsSpace(u)
    ensures Clean(t) == t
  {
    if t != [] {
      CleanKeeps(t[1..]);
    }
  }

  lemma LetterDecodes(sextet: nat)
    requires sextet < 64
    ensures InAlphabet(Letter(sextet)) && SextetOf(Letter(sextet)) == sextet
    ensures !InAlphabet(PAD) && SextetOf(PAD) == 0
  {
    AlphabetDistinct();
    assert Alphabet()[sextet] == Letter(sextet);
    IndexOfEntry(Alphabet(), sextet);
  }

  /** `p` places of padding, after sextets that fill all groups but the padded one. */
  ghost predicate Shape(w: seq<nat>, p: nat) {
    AreDigits(w, 64) && p <= 2 && (|w| + p) % 4 == 0
  }

  lemma TextEntries(w: seq<nat>, p: nat, i: nat)
    requires Shape(w, p) && i < |w| + p
    ensures var u := (Letters(w) + Pads(p))[i];
      && !IsSpace(u)
      && (if i < |w| then InAlphabet(u) && SextetOf(u) == w[i] && u != PAD else u == PAD && SextetOf(u) == 0)
  {
    hide SextetOf, InAlphabet, Letter, IsSpace;
    assert !IsSpace(PAD) by {
      PadIsNoSpace();
    }
    LetterDecodes(if i < |w| then w[i] else 0);
  }

  lemma PadIsNoSpace()
    ensures !IsSpace(PAD)
  {
  }

  lemma TextOfShape(w: seq<nat>, p: nat)
    requires Shape(w, p)
    ensures var t := Letters(w) + Pads(p);
      Clean(t) == t && Acceptable(t) && |t| == |w| + p && Padding(t) == p && SextetsOf(t) == w + Zeros(p)
  {
    hide Clean, SextetOf, InAlphabet, Letter, IsSpace, Letters, Pads;
    var t := Letters(w) + Pads(p);
    forall i | 0 <= i < |t|
      ensures !IsSpace(t[i])
      ensures i < |w| ==> InAlphabet(t[i]) && SextetOf(t[i]) == w[i] && t[i] != PAD
      ensures i >= |w| ==> t[i] == PAD && SextetOf(t[i]) == 0
    {
      TextEntries(w, p, i);
    }
    CleanKeeps(t);
  }

  lemma {:induction false} ValueOfZeros(w: seq<nat>, p: nat)
    ensures Value(w + Zeros(p), 64) == Value(w, 64) * Pow(64, p)
  {
    if p == 0 {
      assert w + Zeros(p) == w;
    } else {
      ValueOfZeros(w, p - 1);
      assert Zeros(p) == Zeros(p - 1) + [0];
      assert w + Zeros(p) == (w + Zeros(p - 1)) + [0];
      ValueAppend(w + Zeros(p - 1), 0, 64);
      Associate(Value(w, 64), Pow(64, p - 1), 64);
      Commute(Pow(64, p - 1), 64);
    }
  }

  lemma PaddingPowers(u: nat, p: nat)
    requires p <= 2
    ensures Pow2(2 * p) == [1, 4, 16][p]
    ensures u * [1, 4, 16][p] * Pow(64, p) == u * Pow(256, p)
  {
    assert Pow2(4) == 16 && Pow(64, 2) == 4096 && Pow(256, 2) == 65536;
  }

  /** What a padded text of any shape decodes to, when the unused bits are zero. */
  lemma DecodeOfShape(w: seq<nat>, p: nat, u: nat)
    requires Shape(w, p) && Value(w, 64) == u * [1, 4, 16][p]
    ensures Decode(Letters(w) + Pads(p)) == Decoded(ToDigits(u, 256, (|w| + p) / 4 * 3 - p))
  {
    hide Clean, Letters, Pads, SextetsOf, Acceptable, Padding, Value, Pow;
    var t, n := Letters(w) + Pads(p), (|w| + p) / 4 * 3 - p;
    TextOfShape(w, p);
    ValueOfZeros(w, p);
    PaddingPowers(u, p);
    PowPositive(256, p);
    ToDigitsSplit(u, 0, 256, n, p);
    assert FilledBytes(t) == ToDigits(u, 256, n) + ToDigits(0, 256, p);
    assert FilledBytes(t)[..n] == ToDigits(u, 256, n);
  }

  lemma SextetsMean(bytes: Bytes) returns (gap: nat)
    ensures gap < 6 && |Sextets(bytes)| * 6 == |bytes| * 8 + gap
    ensures Value(Sextets(bytes), 64) == Value(bytes, 256) * Pow2(gap)
  {
    assert Pow2(8) == 256 && Pow2(6) == 64;
    var words;
    words, gap := ConvertBits.PaddedMeans(bytes, 8, 6);
    assert words == Sextets(bytes);
  }

  /** The sextets of an input: what they are worth and how much padding they need. */
  lemma SextetsShape(bytes: Bytes) returns (p: nat)
    ensures Shape(Sextets(bytes), p) && Encode(bytes) == Letters(Sextets(bytes)) + Pads(p)
    ensures |Sextets(bytes)| * 6 == |bytes| * 8 + 2 * p
    ensures Value(Sextets(bytes), 64) == Value(bytes, 256) * [1, 4, 16][p]
  {
    hide Sextets, Letters, Pads, Value, Pow, Encode;
    var gap := SextetsMean(bytes);
    p := GapOfPadding(|bytes|, |Sextets(bytes)|, gap);
    PaddingPowers(0, p);
    EncodeIs(bytes, Sextets(bytes), p);
  }

  lemma GapOfPadding(n: nat, k: nat, gap: nat) returns (p: nat)
    requires k * 6 == n * 8 + gap && gap < 6
    ensures p <= 2 && gap == 2 * p && (k + p) % 4 == 0
  {
    p := 3 * k - 4 * n;
    assert gap == 2 * p;
    assert k + p == 4 * (k - n);
  }

  /** The padding of an encoding is one '=' (61) for each byte missing in its last group of three, and nothing
      else in it is a '='. */
  lemma PaddingOfEncoding(bytes: Bytes)
    ensures var t, p := Encode(bytes), (3 - |bytes| % 3) % 3;
      |t| >= p && forall i :: 0 <= i < |t| ==> (t[i] == 61 <==> i >= |t| - p)
  {
    hide Sextets, Letter, Value, Pow, Encode;
    var p := SextetsShape(bytes);
    PadsNeeded(|bytes|, |Sextets(bytes)|, p);
  }

  lemma PadsNeeded(n: nat, k: nat, p: nat)
    requires p <= 2 && k * 6 == n * 8 + 2 * p
    ensures p == (3 - n % 3) % 3
  {
    assert n + p == 3 * (k - n);
    DivModUnique(n, 3, if p == 0 then k - n else k - n - 1, if p == 0 then 0 else 3 - p);
  }

  /** fromBase64(toBase64(b)) == b for every byte array. */
  lemma RoundTrip(bytes: Bytes)
    ensures Decode(Encode(bytes)) == Decoded(bytes)
  {
    hide Sextets, Letters, Pads, Value, ToDigits, Decode, Encode;
    var p := SextetsShape(bytes);
    DecodeOfShape(Sextets(bytes), p, Value(bytes, 256));
    assert (|Sextets(bytes)| + p) / 4 * 3 - p == |bytes|;
    ValueToDigits(bytes, 256);
  }

  /** A canonical text: letters, then padding only at the end and only as much as the length asks
      for, and zero in the bits of the last letter that no byte uses. */
  ghost predicate Canonical(t: Text) {
    exists w: seq<nat>, p: nat :: Shape(w, p) && t == Letters(w) + Pads(p) && UnusedBitsZero(w, p)
  }

  predicate UnusedBitsZero(w: seq<nat>, p: nat)
    requires p <= 2
  {
    p > 0 && w != [] ==> w[|w| - 1] % [1, 4, 16][p] == 0
  }

  lemma UnusedBits(w: seq<nat>, p: nat) returns (u: nat)
    requires Shape(w, p) && UnusedBitsZero(w, p)
    ensures Value(w, 64) == u * [1, 4, 16][p]
  {
    if w == [] {
      u := 0;
    } else {
      var q := [1, 4, 16][p];
      var front, last := Value(w[..|w| - 1], 64), w[|w| - 1];
      u := front * (64 / q) + last / q;
      WholeUnits(front, last, u, q);
    }
  }

  /** The number is a multiple of q, a divisor of 64, exactly if its last sextet is. */
  lemma WholeUnits(front: nat, last: nat, u: nat, q: nat)
    requires q == 1 || q == 4 || q == 16
    ensures u == front * (64 / q) + last / q && last % q == 0 ==> front * 64 + last == u * q
    ensures front * 64 + last == u * q ==> last % q == 0
  {
    if q == 1 {
    } else if q == 4 {
      assert u == front * 16 + last / 4 && last % 4 == 0 ==> front * 64 + last == u * 4;
    } else {
      assert u == front * 4 + last / 16 && last % 16 == 0 ==> front * 64 + last == u * 16;
    }
  }

  lemma UnusedBitsAreZero(w: seq<nat>, p: nat, u: nat)
    requires Shape(w, p) && Value(w, 64) == u * [1, 4, 16][p]
    ensures UnusedBitsZero(w, p)
  {
    if w != [] {
      WholeUnits(Value(w[..|w| - 1], 64), w[|w| - 1], u, [1, 4, 16][p]);
    }
  }

  lemma BytesFit(w: seq<nat>, p: nat, u: nat, n: nat)
    requires Shape(w, p) && Value(w, 64) == u * [1, 4, 16][p] && n == (|w| + p) / 4 * 3 - p
    ensures u < Pow(256, n)
  {
    hide Value, Pow;
    var q := [1, 4, 16][p];
    ValueBound(w, 64);
    assert Pow(2, 6) == 64 && Pow(2, 8) == 256 by {
      Powers();
    }
    PowMul(2, 6, |w|);
    PowMul(2, 8, n);
    PowAdd(2, 8 * n, 2 * p);
    PaddingPowers(u, p);
    assert 6 * |w| == 8 * n + 2 * p;
    if u >= Pow(256, n) {
      MulMono(Pow(256, n), u, q);
    }
  }

  lemma EncodeOfShape(bytes: Bytes, w: seq<nat>, p: nat)
    requires Shape(w, p) && |w| * 6 == |bytes| * 8 + 2 * p
    requires Value(w, 64) == Value(bytes, 256) * [1, 4, 16][p]
    ensures Encode(bytes) == Letters(w) + Pads(p)
  {
    hide Sextets, Letters, Pads, Value, Pow, Encode;
    PaddingPowers(0, p);
    SextetsAre(bytes, w, 2 * p, [1, 4, 16][p]);
    EncodeIs(bytes, w, p);
  }

  lemma DecodeCleaned(value: Text)
    ensures Decode(Clean(value)) == Decode(value)
  {
    hide Clean, Acceptable, FilledBytes, Padding;
    CleanKeeps(Clean(value));
  }

  lemma CanonicalReencodes(value: Text, w: seq<nat>, p: nat)
    requires Shape(w, p) && Clean(value) == Letters(w) + Pads(p) && UnusedBitsZero(w, p)
    ensures Decode(value).Decoded? && Encode(Decode(value).bytes) == Clean(value)
  {
    hide Letters, Pads, Value, ToDigits, UnusedBitsZero, Decode, Encode, Clean;
    var n := (|w| + p) / 4 * 3 - p;
    DecodeCleaned(value);
    var u := UnusedBits(w, p);
    DecodeOfShape(w, p, u);
    BytesFit(w, p, u, n);
    ToDigitsValue(u, 256, n);
    EncodeOfShape(ToDigits(u, 256, n), w, p);
  }

  /** Exactly the canonical texts come back from decoding and encoding again. */
  lemma ReencodesIffCanonical(value: Text)
    ensures Canonical(Clean(value))
       <==> Decode(value).Decoded? && Encode(Decode(value).bytes) == Clean(value)
  {
    var t := Clean(value);
    hide Sextets, Letters, Pads, Value, ToDigits, Decode, Encode, UnusedBitsZero;
    if Canonical(t) {
      var w: seq<nat>, p: nat :| Shape(w, p) && t == Letters(w) + Pads(p) && UnusedBitsZero(w, p);
      CanonicalReencodes(value, w, p);
    }
    if Decode(value).Decoded? && Encode(Decode(value).bytes) == t {
      var bytes := Decode(value).bytes;
      var p := SextetsShape(bytes);
      UnusedBitsAreZero(Sextets(bytes), p, Value(bytes, 256));
    }
  }
}
