/** Threshold backup of a keypair: CreateBackup and RestoreBackup of cpp/src/bridge.cpp. */
module Backup {
  import opened Common
  import opened Radix
  import opened Modular
  import opened Polynomial
  import opened Shamir
  import opened Keys
  import opened Tables

  /** The order of the curve's group and the width of a scalar in bytes: the code takes both from
      secp256k1, where the order is a 256-bit prime and the width is 32. */
  datatype Group = Group(order: nat, size: nat)

  ghost predicate Fits(g: Group) {
    0 < g.order <= Pow(256, g.size)
  }

  const NONCE_SIZE: nat := 12
  const TAG_SIZE: nat := 16
  const SHARE_VERSION: Byte := 1

  // ---- Shares as bytes ----

  function EncodedShare(pid: nat, value: nat, size: nat): (data: Bytes)
    ensures |data| == 1 + 2 * size && data[0] == 1
  {
    [SHARE_VERSION] + ToDigits(pid, 256, size) + ToDigits(value, 256, size)
  }

  /** The version byte and the two scalars are copied into one buffer. */
  method EncodeShare(pid: nat, value: nat, size: nat) returns (data: array<Byte>)
    requires pid < Pow(256, size) && value < Pow(256, size)
    ensures fresh(data) && data[..] == EncodedShare(pid, value, size)
  {
    var pidBytes: Bytes, valueBytes: Bytes := ToDigits(pid, 256, size), ToDigits(value, 256, size);
    data := new Byte[1 + size * 2];
    data[0] := SHARE_VERSION;
    forall i | 0 <= i < size {
      data[1 + i] := pidBytes[i];
    }
    forall i | 0 <= i < size {
      data[1 + size + i] := valueBytes[i];
    }
    assert data[..] == [SHARE_VERSION] + pidBytes + valueBytes;
  }

  function DecodeShare(data: Bytes, size: nat): Result<(nat, nat)> {
    if |data| != 1 + size * 2 then Err(InvalidArgument)
    else if data[0] != SHARE_VERSION then Err(InvalidArgument)
    else Ok((Value(data[1..1 + size], 256), Value(data[1 + size..1 + size + size], 256)))
  }

  /** A share is the byte 1, the id and the value, each big-endian at full width, and decodes to the two. */
  lemma DecodeInvertsEncode(pid: nat, value: nat, size: nat)
    requires pid < Pow(256, size) && value < Pow(256, size)
    ensures DecodeShare(EncodedShare(pid, value, size), size) == Ok((pid, value))
    ensures var data := EncodedShare(pid, value, size);
      data[0] == 1 && Value(data[1..1 + size], 256) == pid && Value(data[1 + size..], 256) == value
  {
    hide Value, Pow, ToDigits;
    var data := EncodedShare(pid, value, size);
    assert data[1..1 + size] == ToDigits(pid, 256, size);
    assert data[1 + size..1 + size + size] == data[1 + size..] == ToDigits(value, 256, size);
    ToDigitsValue(pid, 256, size);
    ToDigitsValue(value, 256, size);
  }

  /** Exactly the encodings decode: right length, right version, and nothing else, since every other byte
      is part of one of the two scalars. */
  lemma DecodableIffEncoding(data: Bytes, size: nat)
    ensures DecodeShare(data, size).Ok? <==> |data| == 1 + 2 * size && data[0] == 1
    ensures DecodeShare(data, size).Err? ==> DecodeShare(data, size).code == InvalidArgument
    ensures DecodeShare(data, size).Ok? <==>
      exists pid: nat, value: nat :: pid < Pow(256, size) && value < Pow(256, size)
                                     && data == EncodedShare(pid, value, size)
    ensures DecodeShare(data, size).Ok? ==>
      data == EncodedShare(DecodeShare(data, size).value.0, DecodeShare(data, size).value.1, size)
  {
    hide Value, Pow, ToDigits;
    if DecodeShare(data, size).Ok? {
      var (pid, value) := DecodeShare(data, size).value;
      var p, v := data[1..1 + size], data[1 + size..1 + size + size];
      ValueToDigits(p, 256);
      ValueToDigits(v, 256);
      ValueBound(p, 256);
      ValueBound(v, 256);
      assert data == [data[0]] + p + v;
      assert data == EncodedShare(pid, value, size);
    }
  }

  // ---- Sealing ----

  /** AES-256-GCM (section 7 of NIST SP 800-38D). Sealing gives a ciphertext and a tag; None stands for an
      error of the cipher library. */
  datatype Gcm = Gcm(
    seal: (Bytes, Bytes, Bytes, Bytes) -> Option<(Bytes, Bytes)>,
    open: (Bytes, Bytes, Bytes, Bytes, Bytes) -> Option<Bytes>)

  /** What the cipher owes a caller that seals a non-empty plaintext. */
  ghost predicate Sound(gcm: Gcm) {
    forall key, nonce, aad, plaintext ::
      plaintext != [] && gcm.seal(key, nonce, aad, plaintext).Some? ==>
        var (ciphertext, tag) := gcm.seal(key, nonce, aad, plaintext).value;
        |tag| == 16 && |ciphertext| == |plaintext|
        && gcm.open(key, nonce, aad, tag, ciphertext) == Some(plaintext)
  }

  /** The payload: nonce, tag, ciphertext. */
  function AesGcmEncrypt(gcm: Gcm, key: Bytes, nonce: Bytes, aad: Bytes, plaintext: Bytes): Result<Bytes> {
    if |key| != 32 then Err(InvalidArgument)
    else if |nonce| != NONCE_SIZE then Err(InvalidArgument)
    else
      match gcm.seal(key, nonce, aad, plaintext)
      case None => Err(Crypto)
      case Some((ciphertext, tag)) => Ok(nonce + tag + ciphertext)
  }

  function AesGcmDecrypt(gcm: Gcm, key: Bytes, aad: Bytes, nonce: Bytes, tag: Bytes, ciphertext: Bytes): Result<Bytes> {
    if |key| != 32 then Err(InvalidArgument)
    else
      match gcm.open(key, nonce, aad, tag, ciphertext)
      case None => Err(Crypto)
      case Some(plaintext) => Ok(plaintext)
  }

  /** A payload is cut by position, without any further framing. */
  function OpenPayload(gcm: Gcm, key: Bytes, aad: Bytes, payload: Bytes): Result<Bytes> {
    if |payload| < NONCE_SIZE + TAG_SIZE then Err(InvalidArgument)
    else AesGcmDecrypt(gcm, key, aad, payload[..NONCE_SIZE], payload[NONCE_SIZE..NONCE_SIZE + TAG_SIZE],
                       payload[NONCE_SIZE + TAG_SIZE..])
  }

  /** The layout of a payload in numbers: a key of 32 bytes and a nonce of 12 are sealed, and 12 bytes of nonce
      and 16 of tag come before the ciphertext. */
  lemma SealedLayout(
      gcm: Gcm, key: Bytes, nonce: Bytes, aad: Bytes, plaintext: Bytes, ciphertext: Bytes, tag: Bytes)
    requires |key| == 32 && |nonce| == 12 && |tag| == 16
    requires gcm.seal(key, nonce, aad, plaintext) == Some((ciphertext, tag))
    ensures AesGcmEncrypt(gcm, key, nonce, aad, plaintext).Ok?
    ensures var payload := AesGcmEncrypt(gcm, key, nonce, aad, plaintext).value;
      |payload| == 28 + |ciphertext|
      && payload[..12] == nonce && payload[12..28] == tag && payload[28..] == ciphertext
  {
  }

  /** When sealing fails, and how: a key or a nonce of the wrong length, or the cipher library. */
  lemma SealingRefusals(gcm: Gcm, key: Bytes, nonce: Bytes, aad: Bytes, plaintext: Bytes)
    ensures |key| != 32 || |nonce| != 12 ==> AesGcmEncrypt(gcm, key, nonce, aad, plaintext) == Err(InvalidArgument)
    ensures |key| == 32 && |nonce| == 12 ==>
      (AesGcmEncrypt(gcm, key, nonce, aad, plaintext) == Err(Crypto)
       <==> gcm.seal(key, nonce, aad, plaintext).None?)
  {
  }

  /** Whatever the three parts of a payload say, they are cut out of it as they were put in. */
  lemma OpenedLayout(gcm: Gcm, key: Bytes, aad: Bytes, nonce: Bytes, tag: Bytes, ciphertext: Bytes)
    requires |nonce| == 12 && |tag| == 16
    ensures OpenPayload(gcm, key, aad, nonce + tag + ciphertext) ==
      if |key| != 32 then Err(InvalidArgument)
      else
        match gcm.open(key, nonce, aad, tag, ciphertext)
        case None => Err(Crypto)
        case Some(plaintext) => Ok(plaintext)
  {
    var payload := nonce + tag + ciphertext;
    assert payload[..12] == nonce && payload[12..28] == tag && payload[28..] == ciphertext;
  }

  /** Every payload that is too short for a nonce and a tag is refused, and no other is for its length. */
  lemma ShortPayload(gcm: Gcm, key: Bytes, aad: Bytes, payload: Bytes)
    ensures |payload| < 28 ==> OpenPayload(gcm, key, aad, payload) == Err(InvalidArgument)
    ensures |key| == 32 && |payload| >= 28 ==> OpenPayload(gcm, key, aad, payload) != Err(InvalidArgument)
  {
  }

  lemma OpenInvertsEncrypt(gcm: Gcm, key: Bytes, nonce: Bytes, aad: Bytes, plaintext: Bytes)
    requires Sound(gcm) && plaintext != [] && AesGcmEncrypt(gcm, key, nonce, aad, plaintext).Ok?
    ensures |key| == 32 && |nonce| == 12
    ensures var payload := AesGcmEncrypt(gcm, key, nonce, aad, plaintext).value;
      |payload| == 28 + |plaintext| && payload[..12] == nonce && OpenPayload(gcm, key, aad, payload) == Ok(plaintext)
  {
    var (ciphertext, tag) := gcm.seal(key, nonce, aad, plaintext).value;
    SealingRefusals(gcm, key, nonce, aad, plaintext);
    SealedLayout(gcm, key, nonce, aad, plaintext, ciphertext, tag);
    OpenedLayout(gcm, key, aad, nonce, tag, ciphertext);
    hide OpenPayload;
  }

  // ---- Creating ----

  /** The randomness of one backup: whether the seed and the nonce could be drawn, and the scalars that the
      seeded generator yields, the secret first and then the coefficients. */
  datatype Random = Random(seeded: bool, nonce: Option<Bytes>, scalar: nat -> nat)

  ghost predicate Draws(random: Random, q: nat) {
    && (random.nonce.Some? ==> |random.nonce.value| == 12)
    && forall i :: random.scalar(i) < q
  }

  datatype Library = Library(converter: Converter, gcm: Gcm)

  datatype BackupCiphertext = BackupCiphertext(
    kind: Code, scheme: Code, curve: Code, keyId: Bytes, threshold: nat, shareCount: nat,
    labelBytes: Bytes, payload: Bytes)

  datatype Created = Created(ciphertext: BackupCiphertext, shares: seq<Bytes>)

  function Coefficients(random: Random, threshold: nat): (c: seq<nat>)
    requires threshold >= 1
    ensures |c| == threshold - 1 && forall i :: 0 <= i < |c| ==> c[i] == random.scalar(i + 1)
  {
    seq<nat>(threshold - 1, i requires 0 <= i < threshold - 1 => random.scalar(i + 1))
  }

  /** The value of the share with the given id. */
  function ValueFor(random: Random, threshold: nat, pid: nat, q: nat): (value: nat)
    requires threshold >= 1 && q > 0
    ensures value < q
  {
    Eval([random.scalar(0)] + Coefficients(random, threshold), pid) % q
  }

  function SharesFor(random: Random, threshold: nat, shareCount: nat, g: Group): (shares: seq<Bytes>)
    requires threshold >= 1 && g.order > 0
    ensures |shares| == shareCount
    ensures forall i :: 0 <= i < shareCount ==>
      shares[i] == EncodedShare(i + 1, ValueFor(random, threshold, i + 1, g.order), g.size)
  {
    seq(shareCount, i requires 0 <= i < shareCount =>
          EncodedShare(i + 1, ValueFor(random, threshold, i + 1, g.order), g.size))
  }

  /** What a ciphertext tells whoever holds it about the backup. */
  predicate Announces(c: BackupCiphertext, kp: Keypair, threshold: nat, shareCount: nat, labelBytes: Bytes) {
    && c.kind == kp.kind && c.scheme == kp.scheme && c.curve == kp.curve && c.keyId == kp.keyId
    && c.threshold == threshold && c.shareCount == shareCount && c.labelBytes == labelBytes
  }

  /** CreateBackup as a function of its inputs and its randomness. The share count is stored in 32 bits. */
  function Backup(
      lib: Library, g: Group, kp: Keypair, threshold: nat, shareCount: nat, labelBytes: Bytes, random: Random)
    : (r: Result<Created>)
    requires g.order > 0
    ensures r.Ok? ==>
      Announces(r.value.ciphertext, kp, threshold, shareCount % 0x1_0000_0000, labelBytes)
      && |r.value.shares| == shareCount
  {
    if threshold < 1 || shareCount < threshold then Err(InvalidArgument)
    else
      match ExportKey(lib.converter, kp)
      case Err(code) => Err(code)
      case Ok(blob) =>
        if !random.seeded || random.nonce.None? then Err(Rng)
        else
          match AesGcmEncrypt(lib.gcm, ToDigits(random.scalar(0), 256, g.size), random.nonce.value, labelBytes, blob)
          case Err(code) => Err(code)
          case Ok(payload) =>
            var ciphertext := BackupCiphertext(
              kp.kind, kp.scheme, kp.curve, kp.keyId, threshold, shareCount % 0x1_0000_0000, labelBytes, payload);
            Ok(Created(ciphertext, SharesFor(random, threshold, shareCount, g)))
  }

  method CreateBackup(
      lib: Library, g: Group, kp: Keypair, threshold: Code, shareCount: nat, labelBytes: Bytes, random: Random)
    returns (r: Result<Created>)
    requires Fits(g) && shareCount < 0x8000_0000 && shareCount < g.order
    requires Draws(random, g.order)
    ensures r == Backup(lib, g, kp, threshold, shareCount, labelBytes, random)
    ensures r.Ok? ==> Announces(r.value.ciphertext, kp, threshold, shareCount, labelBytes)
  {
    hide Pow, ToDigits, SharesFor, ExportKey, AesGcmEncrypt;
    if threshold < 1 {
      return Err(InvalidArgument);
    }
    if shareCount < threshold {
      return Err(InvalidArgument);
    }
    if shareCount == 0 {
      return Err(InvalidArgument);
    }
    var blob := ExportKey(lib.converter, kp);
    if blob.Err? {
      return Err(blob.code);
    }
    if !random.seeded {
      return Err(Rng);
    }
    var secret := random.scalar(0);
    var keyBytes: Bytes := ToDigits(secret, 256, g.size);
    if random.nonce.None? {
      return Err(Rng);
    }
    var payload := AesGcmEncrypt(lib.gcm, keyBytes, random.nonce.value, labelBytes, blob.value);
    if payload.Err? {
      return Err(payload.code);
    }
    var ciphertext := BackupCiphertext(
      kp.kind, kp.scheme, kp.curve, kp.keyId, threshold, shareCount % 0x1_0000_0000, labelBytes, payload.value);
    var shares := MakeShares(g, threshold, shareCount, random);
    r := Ok(Created(ciphertext, shares));
  }

  /** The ids 1..n, the values at them, and the encoded shares. */
  method MakeShares(g: Group, threshold: nat, shareCount: nat, random: Random) returns (shares: seq<Bytes>)
    requires Fits(g) && threshold >= 1 && shareCount < g.order
    ensures shares == SharesFor(random, threshold, shareCount, g)
  {
    hide Pow, EncodedShare, Eval;
    var pids := new int[shareCount];
    for i := 0 to shareCount
      invariant forall j :: 0 <= j < i ==> pids[j] == j + 1
    {
      pids[i] := i + 1;
    }
    var values := ShareValues(random.scalar(0), Coefficients(random, threshold), pids[..], g.order);
    shares := [];
    for i := 0 to shareCount
      invariant forall j :: 0 <= j < shareCount ==> pids[j] == j + 1
      invariant |shares| == i
      invariant forall j :: 0 <= j < i ==>
        shares[j] == EncodedShare(j + 1, ValueFor(random, threshold, j + 1, g.order), g.size)
    {
      var data := EncodeShare(pids[i], values[i], g.size);
      shares := shares + [data[..]];
    }
  }

  /** When exactly a backup is made. The width has to be the 32 bytes of a secp256k1 scalar; the key is the first
      scalar drawn, the label is authenticated, and the keypair's blob is what is sealed. */
  lemma BackupSucceedsIff(
      lib: Library, g: Group, kp: Keypair, threshold: nat, shareCount: nat, labelBytes: Bytes, random: Random)
    requires g.order > 0 && Draws(random, g.order)
    ensures Backup(lib, g, kp, threshold, shareCount, labelBytes, random).Ok? <==>
      && 1 <= threshold <= shareCount
      && lib.converter.write(ToBlob(kp)).Some?
      && random.seeded && random.nonce.Some? && g.size == 32
      && lib.gcm.seal(ToDigits(random.scalar(0), 256, g.size), random.nonce.value, labelBytes,
                      lib.converter.write(ToBlob(kp)).value).Some?
  {
    hide ToDigits, SharesFor, ToBlob;
    if lib.converter.write(ToBlob(kp)).Some? && random.nonce.Some? {
      SealingRefusals(lib.gcm, ToDigits(random.scalar(0), 256, g.size), random.nonce.value, labelBytes,
                      lib.converter.write(ToBlob(kp)).value);
    }
  }

  /** Which error a backup that is not made ends with, the first of the failing steps deciding. */
  lemma BackupRefusals(
      lib: Library, g: Group, kp: Keypair, threshold: nat, shareCount: nat, labelBytes: Bytes, random: Random)
    requires g.order > 0 && Draws(random, g.order)
    requires Backup(lib, g, kp, threshold, shareCount, labelBytes, random).Err?
    ensures Backup(lib, g, kp, threshold, shareCount, labelBytes, random).code ==
      if threshold == 0 || shareCount < threshold then InvalidArgument
      else if lib.converter.write(ToBlob(kp)).None? then General
      else if !random.seeded || random.nonce.None? then Rng
      else if g.size != 32 then InvalidArgument
      else Crypto
  {
    hide ToDigits, SharesFor, ToBlob;
    if lib.converter.write(ToBlob(kp)).Some? && random.nonce.Some? {
      SealingRefusals(lib.gcm, ToDigits(random.scalar(0), 256, g.size), random.nonce.value, labelBytes,
                      lib.converter.write(ToBlob(kp)).value);
    }
  }

  /** The payload of a backup: the nonce that was drawn, then tag and ciphertext of the keypair's blob, sealed
      under the first scalar with the label. */
  lemma PayloadOfBackup(
      lib: Library, g: Group, kp: Keypair, threshold: nat, shareCount: nat, labelBytes: Bytes, random: Random)
    requires g.order > 0 && Faithful(lib.converter) && Sound(lib.gcm)
    requires Backup(lib, g, kp, threshold, shareCount, labelBytes, random).Ok?
    ensures lib.converter.write(ToBlob(kp)).Some? && random.nonce.Some?
    ensures var payload := Backup(lib, g, kp, threshold, shareCount, labelBytes, random).value.ciphertext.payload;
      var blob := lib.converter.write(ToBlob(kp)).value;
      && |payload| == 28 + |blob| && payload[..12] == random.nonce.value
      && lib.gcm.seal(ToDigits(random.scalar(0), 256, g.size), payload[..12], labelBytes, blob)
         == Some((payload[28..], payload[12..28]))
  {
    hide ToDigits, SharesFor, ToBlob;
    var key, nonce := ToDigits(random.scalar(0), 256, g.size), random.nonce.value;
    var blob := lib.converter.write(ToBlob(kp)).value;
    SealingRefusals(lib.gcm, key, nonce, labelBytes, blob);
    var (ciphertext, tag) := lib.gcm.seal(key, nonce, labelBytes, blob).value;
    SealedLayout(lib.gcm, key, nonce, labelBytes, blob, ciphertext, tag);
  }

  /** The first n scalars drawn. */
  function Drawn(random: Random, n: nat): (scalars: seq<nat>)
    ensures |scalars| == n && forall k :: 0 <= k < n ==> scalars[k] == random.scalar(k)
  {
    seq<nat>(n, k requires 0 <= k < n => random.scalar(k))
  }

  lemma ValueIsPowerSum(random: Random, threshold: nat, pid: nat, q: nat)
    requires threshold >= 1 && q > 0
    ensures ValueFor(random, threshold, pid, q) == PowerSum(Drawn(random, threshold), pid, threshold) % q
  {
    assert Drawn(random, threshold) == [random.scalar(0)] + Coefficients(random, threshold);
    EvalIsPowerSum(Drawn(random, threshold), pid);
    hide Eval, PowerSum;
  }

  lemma SharesOf(
      lib: Library, g: Group, kp: Keypair, threshold: nat, shareCount: nat, labelBytes: Bytes, random: Random)
    requires g.order > 0 && Backup(lib, g, kp, threshold, shareCount, labelBytes, random).Ok?
    ensures 1 <= threshold <= shareCount
    ensures Backup(lib, g, kp, threshold, shareCount, labelBytes, random).value.shares
         == SharesFor(random, threshold, shareCount, g)
  {
    hide SharesFor, AesGcmEncrypt, ExportKey, ToDigits;
  }

  /** Share i spells the point of the sharing polynomial at i + 1. Its coefficients are the first `threshold`
      scalars drawn, the sealing scalar being the constant one. */
  lemma SharesSpellPoints(
      lib: Library, g: Group, kp: Keypair, threshold: nat, shareCount: nat, labelBytes: Bytes, random: Random, i: nat)
    requires Fits(g) && shareCount < g.order
    requires Backup(lib, g, kp, threshold, shareCount, labelBytes, random).Ok? && i < shareCount
    ensures var shares := Backup(lib, g, kp, threshold, shareCount, labelBytes, random).value.shares;
      DecodeShare(shares[i], g.size)
      == Ok((i + 1, PowerSum(Drawn(random, threshold), i + 1, threshold) % g.order))
  {
    hide Pow, DecodeShare, EncodedShare, Backup, ValueFor, PowerSum, Drawn, Announces;
    SharesOf(lib, g, kp, threshold, shareCount, labelBytes, random);
    ValueIsPowerSum(random, threshold, i + 1, g.order);
    DecodeInvertsEncode(i + 1, ValueFor(random, threshold, i + 1, g.order), g.size);
  }

  // ---- Restoring ----

  /** The points spelled by a list of shares, or the error of the first share that does not decode. */
  function DecodeShares(shares: seq<Bytes>, size: nat): (r: Result<(seq<nat>, seq<nat>)>)
    ensures r.Ok? ==> |r.value.0| == |r.value.1| == |shares|
  {
    if shares == [] then Ok(([], []))
    else
      match (DecodeShares(shares[..|shares| - 1], size), DecodeShare(shares[|shares| - 1], size))
      case (Err(code), _) => Err(code)
      case (_, Err(code)) => Err(code)
      case (Ok(points), Ok(last)) => Ok((points.0 + [last.0], points.1 + [last.1]))
  }

  function Restore(lib: Library, g: Group, ciphertext: BackupCiphertext, shares: seq<Bytes>): Result<Keypair>
    requires g.order > 0
  {
    if ciphertext.threshold < 1 || |shares| < ciphertext.threshold then Err(InvalidArgument)
    else
      match DecodeShares(shares, g.size)
      case Err(code) => Err(code)
      case Ok((pids, values)) =>
        var key := ToDigits(Interpolate(0, values, pids, g.order), 256, g.size);
        match OpenPayload(lib.gcm, key, ciphertext.labelBytes, ciphertext.payload)
        case Err(code) => Err(code)
        case Ok(blob) => ImportKey(lib.converter, blob)
  }

  method RestoreBackup(lib: Library, g: Group, ciphertext: BackupCiphertext, shares: seq<Bytes>)
    returns (r: Result<Keypair>)
    requires Fits(g)
    ensures r == Restore(lib, g, ciphertext, shares)
  {
    if ciphertext.threshold < 1 {
      return Err(InvalidArgument);
    }
    if |shares| < ciphertext.threshold {
      return Err(InvalidArgument);
    }
    var pidList: seq<nat>, shareValues: seq<nat> := [], [];
    for i := 0 to |shares|
      invariant DecodeShares(shares[..i], g.size) == Ok((pidList, shareValues))
    {
      assert shares[..i + 1][..i] == shares[..i];
      var share := DecodeShare(shares[i], g.size);
      if share.Err? {
        FirstErrorStays(shares, i + 1, g.size);
        return Err(share.code);
      }
      pidList, shareValues := pidList + [share.value.0], shareValues + [share.value.1];
    }
    assert shares[..|shares|] == shares;
    var secret := Interpolate(0, shareValues, pidList, g.order);
    var keyBytes: Bytes := ToDigits(secret, 256, g.size);
    var payload := ciphertext.payload;
    if |payload| < NONCE_SIZE + TAG_SIZE {
      return Err(InvalidArgument);
    }
    var plaintext := AesGcmDecrypt(lib.gcm, keyBytes, ciphertext.labelBytes, payload[..NONCE_SIZE],
                                   payload[NONCE_SIZE..NONCE_SIZE + TAG_SIZE], payload[NONCE_SIZE + TAG_SIZE..]);
    if plaintext.Err? {
      return Err(plaintext.code);
    }
    r := ImportKey(lib.converter, plaintext.value);
  }

  /** What a restore makes of shares that decode: their points are interpolated at zero, all of them, and the
      result opens the payload, whose content is imported. */
  lemma RestoreOpens(lib: Library, g: Group, ciphertext: BackupCiphertext, shares: seq<Bytes>)
    requires g.order > 0
    requires 1 <= ciphertext.threshold <= |shares| && DecodeShares(shares, g.size).Ok?
    ensures var (pids, values) := DecodeShares(shares, g.size).value;
      var key := ToDigits(Interpolate(0, values, pids, g.order), 256, g.size);
      var payload := ciphertext.payload;
      Restore(lib, g, ciphertext, shares) ==
        if |payload| < 28 || g.size != 32 then Err(InvalidArgument)
        else
          match lib.gcm.open(key, payload[..12], ciphertext.labelBytes, payload[12..28], payload[28..])
          case None => Err(Crypto)
          case Some(blob) => ImportKey(lib.converter, blob)
  {
    hide ToDigits, Interpolate, DecodeShares, ImportKey, OpenPayload;
    var (pids, values) := DecodeShares(shares, g.size).value;
    var key := ToDigits(Interpolate(0, values, pids, g.order), 256, g.size);
    var payload := ciphertext.payload;
    if |payload| < 28 {
      ShortPayload(lib.gcm, key, ciphertext.labelBytes, payload);
    } else {
      OpenedLayout(lib.gcm, key, ciphertext.labelBytes, payload[..12], payload[12..28], payload[28..]);
      assert payload == payload[..12] + payload[12..28] + payload[28..];
    }
  }

  lemma {:induction false} FirstErrorStays(shares: seq<Bytes>, n: nat, size: nat)
    requires n <= |shares| && DecodeShares(shares[..n], size).Err?
    ensures DecodeShares(shares, size) == DecodeShares(shares[..n], size)
  {
    if n == |shares| {
      assert shares[..n] == shares;
    } else {
      var front := shares[..|shares| - 1];
      assert front[..n] == shares[..n];
      FirstErrorStays(front, n, size);
    }
  }

  // ---- Backing up, then restoring ----

  /** The shares at the given positions, in that order. */
  function Pick(shares: seq<Bytes>, chosen: seq<nat>): (picked: seq<Bytes>)
    requires forall i :: 0 <= i < |chosen| ==> chosen[i] < |shares|
    ensures |picked| == |chosen| && forall i :: 0 <= i < |chosen| ==> picked[i] == shares[chosen[i]]
  {
    seq(|chosen|, i requires 0 <= i < |chosen| => shares[chosen[i]])
  }

  function IdsOf(chosen: seq<nat>): (pids: seq<int>)
    ensures |pids| == |chosen| && forall i :: 0 <= i < |chosen| ==> pids[i] == chosen[i] + 1
  {
    seq<int>(|chosen|, i requires 0 <= i < |chosen| => chosen[i] + 1)
  }

  lemma DecodeOneMore(front: seq<Bytes>, share: Bytes, points: (seq<nat>, seq<nat>), pid: nat, value: nat, size: nat)
    requires DecodeShares(front, size) == Ok(points) && DecodeShare(share, size) == Ok((pid, value))
    ensures DecodeShares(front + [share], size) == Ok((points.0 + [pid], points.1 + [value]))
  {
    assert (front + [share])[..|front|] == front;
  }

  /** The points that the shares with the given positions spell. */
  function ValuesOf(random: Random, threshold: nat, chosen: seq<nat>, q: nat): (values: seq<nat>)
    requires threshold >= 1 && q > 0
    ensures |values| == |chosen|
  {
    ShareValues(random.scalar(0), Coefficients(random, threshold), IdsOf(chosen), q)
  }

  lemma OneMoreValue(random: Random, threshold: nat, front: seq<nat>, last: nat, q: nat)
    requires threshold >= 1 && q > 0
    ensures IdsOf(front + [last]) == IdsOf(front) + [last + 1]
    ensures ValuesOf(random, threshold, front + [last], q)
         == ValuesOf(random, threshold, front, q) + [ValueFor(random, threshold, last + 1, q)]
  {
    hide Eval;
  }

  lemma {:induction false} PickedSharesDecode(random: Random, threshold: nat, n: nat, chosen: seq<nat>, g: Group)
    requires threshold >= 1 && Fits(g) && n < g.order
    requires forall i :: 0 <= i < |chosen| ==> chosen[i] < n
    ensures DecodeShares(Pick(SharesFor(random, threshold, n, g), chosen), g.size)
         == Ok((IdsOf(chosen), ValuesOf(random, threshold, chosen, g.order)))
  {
    hide Pow, DecodeShare, EncodedShare, SharesFor, ValuesOf, ValueFor;
    var shares := SharesFor(random, threshold, n, g);
    if chosen == [] {
      assert Pick(shares, chosen) == [];
      assert ValuesOf(random, threshold, chosen, g.order) == [];
    } else {
      hide DecodeShares;
      var front, last := chosen[..|chosen| - 1], chosen[|chosen| - 1];
      var value := ValueFor(random, threshold, last + 1, g.order);
      assert chosen == front + [last];
      PickedSharesDecode(random, threshold, n, front, g);
      OneMoreValue(random, threshold, front, last, g.order);
      DecodeInvertsEncode(last + 1, value, g.size);
      DecodeOneMore(Pick(shares, front), shares[last], (IdsOf(front), ValuesOf(random, threshold, front, g.order)),
                    last + 1, value, g.size);
      assert Pick(shares, chosen) == Pick(shares, front) + [shares[last]];
    }
  }

  lemma SmallIdsDistinct(chosen: seq<nat>, n: nat, q: nat)
    requires n < q && Distinct(chosen) && forall i :: 0 <= i < |chosen| ==> chosen[i] < n
    ensures DistinctModulo(IdsOf(chosen), q)
  {
    hide Zero;
    var pids := IdsOf(chosen);
    forall i, j | 0 <= i < j < |chosen| ensures !Same(pids[i], pids[j], q) {
      SameResidue(pids[i], pids[j], q);
      SmallResidue(pids[i], q);
      SmallResidue(pids[j], q);
    }
  }

  /** Any quorum restores the keypair: at least `threshold` of the shares, each at most once, in any order.
      What comes back is the original exactly when the original was well-formed. */
  lemma AnyQuorumRestores(
      lib: Library, g: Group, kp: Keypair, threshold: nat, shareCount: nat, labelBytes: Bytes, random: Random,
      chosen: seq<nat>)
    requires Faithful(lib.converter) && Sound(lib.gcm)
    requires Prime(g.order) && shareCount < g.order && Fits(g) && Draws(random, g.order)
    requires Backup(lib, g, kp, threshold, shareCount, labelBytes, random).Ok?
    requires threshold <= |chosen| && Distinct(chosen) && forall i :: 0 <= i < |chosen| ==> chosen[i] < shareCount
    ensures var created := Backup(lib, g, kp, threshold, shareCount, labelBytes, random).value;
      |created.shares| == shareCount
      && (Restore(lib, g, created.ciphertext, Pick(created.shares, chosen)) == Ok(kp) <==> WellFormed(kp))
  {
    hide Pow, ToDigits, Interpolate, ShareValues, SharesFor, OpenPayload, AesGcmEncrypt, Prime, DecodeShares;
    var created := Backup(lib, g, kp, threshold, shareCount, labelBytes, random).value;
    var secret := random.scalar(0);
    PickedSharesDecode(random, threshold, shareCount, chosen, g);
    SmallIdsDistinct(chosen, shareCount, g.order);
    AnyQuorumRecovers(secret, Coefficients(random, threshold), IdsOf(chosen), g.order);
    var blob := ExportKey(lib.converter, kp).value;
    OpenInvertsEncrypt(lib.gcm, ToDigits(secret, 256, g.size), random.nonce.value, labelBytes, blob);
    ImportInvertsExport(lib.converter, kp);
  }

  /** One share less than the threshold fits every sealing scalar, each in exactly one way. */
  lemma OneShareShortFitsEveryScalar(random: Random, threshold: nat, n: nat, chosen: seq<nat>, candidate: nat, g: Group)
    returns (coefficients: seq<nat>)
    requires threshold >= 1 && Prime(g.order) && n < g.order && candidate < g.order
    requires |chosen| == threshold - 1 && Distinct(chosen) && forall i :: 0 <= i < |chosen| ==> chosen[i] < n
    ensures Explains(coefficients, candidate, IdsOf(chosen), ValuesOf(random, threshold, chosen, g.order), g.order)
    ensures forall other ::
      Explains(other, candidate, IdsOf(chosen), ValuesOf(random, threshold, chosen, g.order), g.order)
      ==> other == coefficients
  {
    hide Explains, Eval;
    var pids := IdsOf(chosen);
    SmallIdsDistinct(chosen, n, g.order);
    forall i | 0 <= i < |pids| ensures !Zero(pids[i], g.order) {
      SmallResidue(pids[i], g.order);
    }
    var values := ValuesOf(random, threshold, chosen, g.order);
    coefficients := BelowThresholdNothingIsKnown(candidate, pids, values, g.order);
  }

  /** Too few shares are refused whatever they say, and a share that does not decode stops the restore. */
  lemma RestoreRefuses(lib: Library, g: Group, ciphertext: BackupCiphertext, shares: seq<Bytes>)
    requires g.order > 0
    ensures |shares| < ciphertext.threshold || ciphertext.threshold == 0
        ==> Restore(lib, g, ciphertext, shares) == Err(InvalidArgument)
    ensures (exists i :: 0 <= i < |shares| && DecodeShare(shares[i], g.size).Err?)
        ==> Restore(lib, g, ciphertext, shares) == Err(InvalidArgument)
  {
    hide DecodeShare;
    if i :| 0 <= i < |shares| && DecodeShare(shares[i], g.size).Err? {
      OneBadShare(shares, i, g.size);
    }
  }

  lemma {:induction false} OneBadShare(shares: seq<Bytes>, i: nat, size: nat)
    requires i < |shares| && DecodeShare(shares[i], size).Err?
    ensures DecodeShares(shares, size) == Err(InvalidArgument)
  {
    var front := shares[..|shares| - 1];
    ErrorsAreInvalidArgument(front, size);
    if i < |front| {
      OneBadShare(front, i, size);
    }
  }

  lemma {:induction false} ErrorsAreInvalidArgument(shares: seq<Bytes>, size: nat)
    ensures DecodeShares(shares, size).Err? ==> DecodeShares(shares, size) == Err(InvalidArgument)
  {
    if shares != [] {
      ErrorsAreInvalidArgument(shares[..|shares| - 1], size);
    }
  }
}
