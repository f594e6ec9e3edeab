/** The data of an enclave's public upgrade chain, and the library primitives the validator
    calls (CBOR, SHA-256, ECDSA, attestation documents) as arbitrary functions of their input. */
module ChainTypes {
  import opened Wrappers
  import Hex

  type Uuid = nat

  /** An instant in nanoseconds. */
  type Time = int

  const SECOND: int := 1_000_000_000
  const UPGRADE_WINDOW_MIN: int := 3600 * SECOND
  const CLOCK_SKEW_TOLERANCE: int := 60 * SECOND

  datatype Kind = Boot | Upgrade | Revocation

  datatype ChainLink = ChainLink(
    id: Option<Uuid>,
    sequence: Option<nat>,
    kind: Kind,
    payload: Bytes,
    attestation: Bytes,
    signature: Option<Bytes>)

  /** PCR0-2 as raw bytes. */
  datatype Pcrs = Pcrs(pcr0: Bytes, pcr1: Bytes, pcr2: Bytes)

  /** PCR0-2 as the hex text payloads and rows carry. */
  datatype PcrsHex = PcrsHex(pcr0: string, pcr1: string, pcr2: string)

  /** A full pin identity: PCR0-2 and user PCRs 16-31. */
  datatype PinIdentity = PinIdentity(image: Pcrs, user: seq<Bytes>)

  datatype AntiRollback = AntiRollback(
    enabled: bool,
    upgradeTarget: bool,
    debugAttestation: bool,
    synchronizerPcrs: seq<PcrsHex>)

  datatype AntiRollbackChange =
    TurnedOff | TurnedOn | NotUpgradeTarget | DebugAttestationChanged | NoTrustedSynchronizer

  datatype BootPayload = BootPayload(
    enclaveId: Uuid,
    imageDigest: string,
    pcrs: PcrsHex,
    bootedAt: Time,
    nonce: Bytes,
    antiRollback: AntiRollback)

  datatype UpgradePayload = UpgradePayload(
    enclaveId: Uuid,
    from: PinIdentity,
    to: PinIdentity,
    imageDigest: string,
    validFrom: Time,
    validUntil: Time,
    issuedAt: Time,
    nonce: Bytes)

  datatype RevocationPayload = RevocationPayload(
    enclaveId: Uuid,
    revokes: Uuid,
    issuedAt: Time,
    nonce: Bytes,
    revokesLink: Bytes)

  datatype Outcome = Append(sequence: nat) | Dedup

  datatype ChainError =
    | Attestation
    | EmptyAttestation
    | PayloadDecode(kind: Kind)
    | EnclaveIdMismatch
    | PcrMismatch
    | UpgradeFromMismatch
    | UpgradeWindowInvalid
    | ImageDigestMismatch
    | BootHasSignature
    | SignatureMissing(kind: Kind)
    | BadControlPubkey
    | SignatureShape
    | SignatureInvalid
    | NonUpgradableSigned(kind: Kind)
    | NonUpgradableSecondBoot
    | AntiRollbackChanged(change: AntiRollbackChange)
    | NoGenesisYet
    | RevokeTargetMissing
    | RevokeTargetWrongKind(kind: Kind)
    | RevokePastActivation
    | AlreadyRevoked
    | RevokeLinkHashMismatch
    | DuplicatePayload(kind: Kind)
    | UpgradeNotYetActive
    | UpgradeExpired
    | PromotionIdentityMismatch
    | CorruptStoredPayload(kind: Kind)
    | CorruptStoredPcrHex(index: nat)

  /** One CBOR type: any reader with any writer. */
  datatype Codec<!T> = Codec(parse: Bytes -> Option<T>, encode: T -> Bytes) {
    /** Accept only the bytes the writer produces for the value read. */
    function DecodeCanonical(bytes: Bytes): (r: Option<T>)
      ensures r.Some? ==> encode(r.value) == bytes
    {
      var value := parse(bytes);
      if value.Some? && encode(value.value) == bytes then value else None
    }
  }

  /** A decoded attestation document: its user data and, when the PCR map is valid, its identity. */
  datatype Document = Document(userData: Option<Bytes>, identity: Option<PinIdentity>)

  /** The library primitives. Every result holds for every choice of these functions. */
  datatype Crypto = Crypto(
    boot: Codec<BootPayload>,
    upgrade: Codec<UpgradePayload>,
    revocation: Codec<RevocationPayload>,
    sha256: Bytes -> Bytes,
    document: (Bytes, bool) -> Option<Document>,
    keyDecodes: Bytes -> bool,
    signatureShape: Bytes -> bool,
    verifies: (Bytes, Bytes, Bytes) -> bool)

  function ToPcrs(p: PcrsHex): (r: Result<Pcrs, ChainError>) {
    var d0, d1, d2 := Hex.Decode(p.pcr0), Hex.Decode(p.pcr1), Hex.Decode(p.pcr2);
    if d0.None? then Err(CorruptStoredPcrHex(0))
    else if d1.None? then Err(CorruptStoredPcrHex(1))
    else if d2.None? then Err(CorruptStoredPcrHex(2))
    else Ok(Pcrs(d0.value, d1.value, d2.value))
  }

  function ImagePcrsHex(identity: PinIdentity): (r: PcrsHex)
    ensures ToPcrs(r) == Ok(identity.image)
  {
    Hex.DecodeEncode(identity.image.pcr0);
    Hex.DecodeEncode(identity.image.pcr1);
    Hex.DecodeEncode(identity.image.pcr2);
    PcrsHex(Hex.Encode(identity.image.pcr0), Hex.Encode(identity.image.pcr1), Hex.Encode(identity.image.pcr2))
  }

  predicate WindowIsValid(validFrom: Time, validUntil: Time) {
    validUntil - validFrom >= UPGRADE_WINDOW_MIN
  }

  function CheckSuccessor(prev: AntiRollback, next: AntiRollback): (r: Result<(), AntiRollbackChange>) {
    if !prev.enabled && !next.enabled then Ok(())
    else if prev.enabled && !next.enabled then Err(TurnedOff)
    else if !prev.enabled && next.enabled then Err(TurnedOn)
    else if !next.upgradeTarget then Err(NotUpgradeTarget)
    else if next.debugAttestation != prev.debugAttestation then Err(DebugAttestationChanged)
    else if next.synchronizerPcrs == [] then Err(NoTrustedSynchronizer)
    else Ok(())
  }
}
