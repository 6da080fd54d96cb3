/** Keypairs and their serialised form: ImportKey and ExportKey of cpp/src/bridge.cpp, and the mappings
    between the bridge's enumerations and those of the protocol library. */
module Keys {
  import opened Common

  /** A C++ enumeration value: any 32-bit code, named or not. */
  type Code = n: nat | n < 0x1_0000_0000

  const SECP256K1: Code := 0
  const ED25519: Code := 1

  const ECDSA_2P: Code := 0

  const DEVICE: Code := 0
  const SERVER: Code := 1

  datatype Party = P1 | P2

  /** A curve of the protocol library, of which the bridge knows one. */
  datatype LibraryCurve = LibrarySecp256k1 | OtherLibraryCurve(id: nat)

  function ToCbCurve(curve: Code): Result<LibraryCurve> {
    if curve == SECP256K1 then Ok(LibrarySecp256k1)
    else if curve == ED25519 then Err(Unsupported)
    else Err(InvalidArgument)
  }

  function FromCbCurve(curve: LibraryCurve): Result<Code> {
    if curve == LibrarySecp256k1 then Ok(SECP256K1) else Err(Unsupported)
  }

  function ToParty(kind: Code): Result<Party> {
    if kind == DEVICE then Ok(P1) else if kind == SERVER then Ok(P2) else Err(InvalidArgument)
  }

  /** The protocol library's two-party key share; its group and cipher parts are opaque bytes. */
  datatype Key = Key(role: Party, curve: LibraryCurve, point: Bytes, xShare: nat, cKey: nat, paillier: Bytes)

  datatype Keypair = Keypair(kind: Code, scheme: Code, curve: Code, keyId: Bytes, key: Key)

  /** What every keypair handed out by the bridge satisfies: the outer description fits the key inside. By
      number (cpp/include/bridge.h:50-64): curve 0, and either kind 0 with the first role or kind 1 with the
      second. */
  predicate WellFormed(kp: Keypair): (fits: bool)
    ensures fits <==>
      && kp.key.curve == LibrarySecp256k1 && kp.curve == 0
      && ((kp.kind == 0 && kp.key.role == P1) || (kp.kind == 1 && kp.key.role == P2))
  {
    FromCbCurve(kp.key.curve) == Ok(kp.curve) && ToParty(kp.kind) == Ok(kp.key.role)
  }

  const KEY_BLOB_MAGIC: Code := 0x4D50434B
  const KEY_BLOB_VERSION: Code := 1

  datatype KeyBlob = KeyBlob(
    magic: Code, version: Code, scheme: Code, kind: Code, keyId: Bytes, curve: LibraryCurve,
    point: Bytes, xShare: nat, cKey: nat, paillier: Bytes)

  /** The library's field converter, in its writing and its reading direction; None is its error value. */
  datatype Converter = Converter(write: KeyBlob -> Option<Bytes>, read: Bytes -> Option<KeyBlob>)

  ghost predicate Faithful(conv: Converter) {
    forall blob :: conv.write(blob).Some? ==>
      conv.write(blob).value != [] && conv.read(conv.write(blob).value) == Some(blob)
  }

  /** The blob has the magic number "MPCK" and version 1, and every part of the keypair at its place; the
      curve's code and the role are not stored. */
  predicate Describes(blob: KeyBlob, kp: Keypair) {
    && blob.magic == 0x4D50434B && blob.version == 1
    && blob.scheme == kp.scheme && blob.kind == kp.kind && blob.keyId == kp.keyId
    && blob.curve == kp.key.curve && blob.point == kp.key.point
    && blob.xShare == kp.key.xShare && blob.cKey == kp.key.cKey && blob.paillier == kp.key.paillier
  }

  function ToBlob(kp: Keypair): (blob: KeyBlob)
    ensures Describes(blob, kp)
  {
    KeyBlob(KEY_BLOB_MAGIC, KEY_BLOB_VERSION, kp.scheme, kp.kind, kp.keyId, kp.key.curve,
            kp.key.point, kp.key.xShare, kp.key.cKey, kp.key.paillier)
  }

  /** What the converter writes for a keypair, or a general error if it writes nothing. */
  function ExportKey(conv: Converter, kp: Keypair): (r: Result<Bytes>)
    ensures r.Ok? ==> conv.write(ToBlob(kp)) == Some(r.value)
    ensures r.Err? ==> conv.write(ToBlob(kp)).None? && r.code == General
  {
    match conv.write(ToBlob(kp))
    case Some(bytes) => Ok(bytes)
    case None => Err(General)
  }

  /** Which blobs are a key: magic and version fit, the curve is known, and the kind is one of two. */
  predicate Importable(blob: KeyBlob) {
    blob.magic == 0x4D50434B && blob.version == 1 && blob.curve == LibrarySecp256k1 && blob.kind <= 1
  }

  /** A keypair from a readable and importable blob, with all of the blob's parts and the role that its kind
      plays; an unknown curve is unsupported, everything else an invalid argument. */
  function ImportKey(conv: Converter, bytes: Bytes): (r: Result<Keypair>)
    ensures r.Ok? <==> conv.read(bytes).Some? && Importable(conv.read(bytes).value)
    ensures r.Ok? ==> Describes(conv.read(bytes).value, r.value) && r.value.curve == 0
    ensures r.Ok? ==> r.value.key.role == if r.value.kind == 0 then P1 else P2
    ensures r.Err? ==> r.code == (match conv.read(bytes)
      case None => InvalidArgument
      case Some(blob) =>
        if blob.magic == 0x4D50434B && blob.version == 1 && blob.curve != LibrarySecp256k1 then Unsupported
        else InvalidArgument)
  {
    match conv.read(bytes)
    case None => Err(InvalidArgument)
    case Some(blob) =>
      if blob.magic != KEY_BLOB_MAGIC || blob.version != KEY_BLOB_VERSION then Err(InvalidArgument)
      else
        match (FromCbCurve(blob.curve), ToParty(blob.kind))
        case (Err(code), _) => Err(code)
        case (_, Err(code)) => Err(code)
        case (Ok(curve), Ok(role)) =>
          Ok(Keypair(blob.kind, blob.scheme, curve, blob.keyId,
                     Key(role, blob.curve, blob.point, blob.xShare, blob.cKey, blob.paillier)))
  }

  /** Exactly the well-formed keypairs survive an export and an import. */
  lemma ImportInvertsExport(conv: Converter, kp: Keypair)
    requires Faithful(conv) && ExportKey(conv, kp).Ok?
    ensures ImportKey(conv, ExportKey(conv, kp).value) == Ok(kp) <==> WellFormed(kp)
  {
    assert conv.read(ExportKey(conv, kp).value) == Some(ToBlob(kp));
  }

  /** Whatever is imported is well-formed and spells the blob it came from. */
  lemma ImportedIsWellFormed(conv: Converter, bytes: Bytes)
    requires ImportKey(conv, bytes).Ok?
    ensures WellFormed(ImportKey(conv, bytes).value)
    ensures conv.read(bytes) == Some(ToBlob(ImportKey(conv, bytes).value))
  {
  }

  /** A keypair made by a session from the curve and the kind that its constructor has translated. */
  lemma SessionKeyIsWellFormed(kp: Keypair)
    requires ToCbCurve(kp.curve) == Ok(kp.key.curve) && ToParty(kp.kind) == Ok(kp.key.role)
    ensures WellFormed(kp)
  {
  }
}
