/** Every refusal of the validator names a fault the link really has: what each of its errors means. */
module Refusals {
  import opened Wrappers
  import opened ChainTypes
  import opened LinkValidation
  import opened LinkAcceptance
  import Hex

  // ----- The anti-rollback rule -----

  /** A successor keeps protection off, or keeps it on in the same attestation mode, as an upgrade target that trusts a
      synchronizer. */
  ghost predicate KeepsProtection(prev: AntiRollback, next: AntiRollback) {
    prev.enabled == next.enabled &&
    (next.enabled ==>
       next.upgradeTarget && next.debugAttestation == prev.debugAttestation && next.synchronizerPcrs != [])
  }

  ghost predicate ChangeIs(prev: AntiRollback, next: AntiRollback, change: AntiRollbackChange) {
    match change
    case TurnedOff => prev.enabled && !next.enabled
    case TurnedOn => !prev.enabled && next.enabled
    case NotUpgradeTarget => prev.enabled && next.enabled && !next.upgradeTarget
    case DebugAttestationChanged => prev.enabled && next.enabled && next.debugAttestation != prev.debugAttestation
    case NoTrustedSynchronizer => prev.enabled && next.enabled && next.synchronizerPcrs == []
  }

  lemma SuccessorIff(prev: AntiRollback, next: AntiRollback)
    ensures CheckSuccessor(prev, next).Ok? <==> KeepsProtection(prev, next)
    ensures CheckSuccessor(prev, next).Err? ==> ChangeIs(prev, next, CheckSuccessor(prev, next).error)
  {
  }

  // ----- The validator -----

  function HexAt(p: PcrsHex, i: nat): string
    requires i < 3
  {
    if i == 0 then p.pcr0 else if i == 1 then p.pcr1 else p.pcr2
  }

  lemma PcrsReadIff(p: PcrsHex)
    ensures match ToPcrs(p)
            case Ok(raw) => Hex.Decode(p.pcr0) == Some(raw.pcr0) && Hex.Decode(p.pcr1) == Some(raw.pcr1)
                            && Hex.Decode(p.pcr2) == Some(raw.pcr2)
            case Err(e) => e.CorruptStoredPcrHex? && e.index < 3 && Hex.Decode(HexAt(p, e.index)).None?
                           && forall i :: 0 <= i < e.index ==> Hex.Decode(HexAt(p, i)).Some?
  {
  }

  /** The id, in whichever payload the link's kind has. */
  function NamedEnclave(c: Crypto, link: ChainLink): Option<Uuid> {
    match link.kind
    case Boot => var p := c.boot.DecodeCanonical(link.payload); if p.Some? then Some(p.value.enclaveId) else None
    case Upgrade => var p := c.upgrade.DecodeCanonical(link.payload); if p.Some? then Some(p.value.enclaveId) else None
    case Revocation =>
      var p := c.revocation.DecodeCanonical(link.payload);
      if p.Some? then Some(p.value.enclaveId) else None
  }

  /** What a refused boot has against it. */
  ghost predicate BootFault(c: Crypto, e: Enclave, v: Version, prior: seq<ChainLink>, link: ChainLink,
                            error: ChainError) {
    var p, last := c.boot.DecodeCanonical(link.payload), LastBoot(prior);
    match error
    case BootHasSignature => link.signature.Some?
    case PayloadDecode(kind) => kind.Boot? && p.None?
    case EnclaveIdMismatch => p.Some? && p.value.enclaveId != e.id
    case PcrMismatch => p.Some? && p.value.pcrs != v.pcrs
    case ImageDigestMismatch => p.Some? && p.value.imageDigest != v.digest
    case CorruptStoredPayload(kind) => kind.Boot? && last >= 0 && c.boot.DecodeCanonical(prior[last].payload).None?
    case NonUpgradableSecondBoot => !e.upgradable && p.Some? &&
      exists b: nat, prev :: LatestBoot(c, prior, b, prev) && prev.imageDigest != p.value.imageDigest
    case AntiRollbackChanged(change) => p.Some? &&
      exists b: nat, prev :: LatestBoot(c, prior, b, prev) && ChangeIs(prev.antiRollback, p.value.antiRollback, change)
    case _ => false
  }

  /** The link is a revocation of `id`. */
  ghost predicate Names(c: Crypto, link: ChainLink, id: Uuid) {
    var p := c.revocation.DecodeCanonical(link.payload);
    link.kind.Revocation? && p.Some? && p.value.revokes == id
  }

  ghost predicate Illegible(c: Crypto, link: ChainLink) {
    link.kind.Revocation? && c.revocation.DecodeCanonical(link.payload).None?
  }

  /** What a refused revocation's target has against it. */
  ghost predicate TargetFault(c: Crypto, prior: seq<ChainLink>, p: RevocationPayload, now: Time, error: ChainError) {
    var t := FirstWithId(prior, p.revokes);
    match error
    case RevokeTargetMissing => forall k :: 0 <= k < |prior| ==> prior[k].id != Some(p.revokes)
    case RevokeTargetWrongKind(kind) => t >= 0 && kind == prior[t].kind && !kind.Upgrade?
    case RevokeLinkHashMismatch => t >= 0 && p.revokesLink != c.sha256(prior[t].payload)
    case RevokePastActivation => t >= 0 &&
      var u := c.upgrade.DecodeCanonical(prior[t].payload); u.Some? && u.value.validFrom <= now
    case AlreadyRevoked => exists k :: 0 <= k < |prior| && Names(c, prior[k], p.revokes)
    case CorruptStoredPayload(kind) =>
      if kind.Upgrade? then t >= 0 && c.upgrade.DecodeCanonical(prior[t].payload).None?
      else kind.Revocation? && exists k :: 0 <= k < |prior| && Illegible(c, prior[k])
    case _ => false
  }

  /** What a refused signed link has against it. */
  ghost predicate SignedFault(c: Crypto, e: Enclave, prior: seq<ChainLink>, link: ChainLink, attested: PinIdentity,
                              now: Time, error: ChainError) {
    match error
    case NonUpgradableSigned(kind) => kind == link.kind && !e.upgradable
    case SignatureMissing(kind) => kind == link.kind && link.signature.None?
    case BadControlPubkey => e.controlKey.None? || !c.keyDecodes(e.controlKey.value)
    case SignatureShape => link.signature.Some? && !c.signatureShape(link.signature.value)
    case SignatureInvalid => !SignedInDomain(c, e, link)
    case PayloadDecode(kind) => kind == link.kind && NamedEnclave(c, link).None?
    case EnclaveIdMismatch => NamedEnclave(c, link).Some? && NamedEnclave(c, link) != Some(e.id)
    case UpgradeWindowInvalid => link.kind.Upgrade? &&
      var p := c.upgrade.DecodeCanonical(link.payload);
      p.Some? && p.value.validUntil < p.value.validFrom + 3600 * SECOND
    case UpgradeFromMismatch => link.kind.Upgrade? &&
      var p := c.upgrade.DecodeCanonical(link.payload); p.Some? && p.value.from != attested
    case NoGenesisYet => prior == []
    case _ =>
      link.kind.Revocation? &&
      var p := c.revocation.DecodeCanonical(link.payload); p.Some? && TargetFault(c, prior, p.value, now, error)
  }

  ghost predicate Fault(c: Crypto, e: Enclave, v: Version, prior: seq<ChainLink>, link: ChainLink, now: Time,
                        error: ChainError) {
    match error
    case EmptyAttestation => link.attestation == []
    case CorruptStoredPcrHex(i) => i < 3 && Hex.Decode(HexAt(v.pcrs, i)).None?
    case Attestation => !AttestedAs(c, e, v, link)
    case _ =>
      if link.kind.Boot? then BootFault(c, e, v, prior, link, error)
      else
        exists attested :: Vouches(c, e.debug, link, attested) && SignedFault(c, e, prior, link, attested, now, error)
  }

  lemma BootRefused(c: Crypto, e: Enclave, v: Version, prior: seq<ChainLink>, link: ChainLink)
    requires link.kind.Boot? && ValidateBoot(c, e, v, prior, link).Err?
    ensures BootFault(c, e, v, prior, link, ValidateBoot(c, e, v, prior, link).error)
  {
    hide Codec.DecodeCanonical, CheckSuccessor, ChangeIs;
    var p, last := c.boot.DecodeCanonical(link.payload), LastBoot(prior);
    if last >= 0 {
      var prev := c.boot.DecodeCanonical(prior[last].payload);
      if prev.Some? {
        assert LatestBoot(c, prior, last, prev.value);
        if p.Some? { SuccessorIff(prev.value.antiRollback, p.value.antiRollback); }
      }
    }
  }

  lemma {:induction false} ScanRefused(c: Crypto, prior: seq<ChainLink>, id: Uuid, from: nat)
    requires from <= |prior| && CheckNotRevoked(c, prior, id, from).Err?
    ensures var error := CheckNotRevoked(c, prior, id, from).error;
            || (error == AlreadyRevoked && exists k :: from <= k < |prior| && Names(c, prior[k], id))
            || (error == CorruptStoredPayload(Revocation) && exists k :: from <= k < |prior| && Illegible(c, prior[k]))
    decreases |prior| - from
  {
    hide Codec.DecodeCanonical;
    var p := c.revocation.DecodeCanonical(prior[from].payload);
    if !prior[from].kind.Revocation? || (p.Some? && p.value.revokes != id) {
      ScanRefused(c, prior, id, from + 1);
    } else {
      assert Names(c, prior[from], id) || Illegible(c, prior[from]);
    }
  }

  lemma TargetRefused(c: Crypto, prior: seq<ChainLink>, p: RevocationPayload, now: Time)
    requires CheckRevokeTarget(c, prior, p, now).Err?
    ensures TargetFault(c, prior, p, now, CheckRevokeTarget(c, prior, p, now).error)
  {
    hide Codec.DecodeCanonical, CheckNotRevoked;
    if CheckNotRevoked(c, prior, p.revokes).Err? { ScanRefused(c, prior, p.revokes, 0); }
  }

  lemma SignatureRefused(c: Crypto, e: Enclave, prior: seq<ChainLink>, link: ChainLink, attested: PinIdentity,
                         now: Time)
    requires !link.kind.Boot? && CheckSignature(c, e, link).Err?
    ensures SignedFault(c, e, prior, link, attested, now, CheckSignature(c, e, link).error)
  {
    hide Codec.DecodeCanonical, TargetFault;
  }

  lemma SignedRefused(c: Crypto, e: Enclave, prior: seq<ChainLink>, link: ChainLink, attested: PinIdentity, now: Time)
    requires !link.kind.Boot? && ValidateSigned(c, e, prior, link, attested, now).Err?
    ensures SignedFault(c, e, prior, link, attested, now, ValidateSigned(c, e, prior, link, attested, now).error)
  {
    hide Codec.DecodeCanonical, CheckRevokeTarget, TargetFault, SignedPayloadSeen, CheckSignature, SignedInDomain;
    if CheckSignature(c, e, link).Err? {
      SignatureRefused(c, e, prior, link, attested, now);
    } else if link.kind.Revocation? {
      var p := c.revocation.DecodeCanonical(link.payload);
      if p.Some? && CheckRevokeTarget(c, prior, p.value, now).Err? {
        TargetRefused(c, prior, p.value, now);
        TargetErrors(c, prior, p.value, now);
      }
    }
  }

  lemma TargetErrors(c: Crypto, prior: seq<ChainLink>, p: RevocationPayload, now: Time)
    requires CheckRevokeTarget(c, prior, p, now).Err?
    ensures var error := CheckRevokeTarget(c, prior, p, now).error;
            || error.RevokeTargetMissing? || error.RevokeTargetWrongKind? || error.RevokeLinkHashMismatch?
            || error.RevokePastActivation? || error.AlreadyRevoked? || error.CorruptStoredPayload?
  {
    hide Codec.DecodeCanonical, CheckNotRevoked;
    if CheckNotRevoked(c, prior, p.revokes).Err? { ScanRefused(c, prior, p.revokes, 0); }
  }

  lemma BootFaultIsFault(c: Crypto, e: Enclave, v: Version, prior: seq<ChainLink>, link: ChainLink, now: Time)
    requires link.kind.Boot? && ValidateBoot(c, e, v, prior, link).Err?
    ensures Fault(c, e, v, prior, link, now, ValidateBoot(c, e, v, prior, link).error)
  {
    hide ValidateBoot, BootFault, SignedFault, AttestedAs, Vouches;
    BootRefused(c, e, v, prior, link);
    BootErrors(c, e, v, prior, link);
  }

  lemma SignedFaultIsFault(c: Crypto, e: Enclave, v: Version, prior: seq<ChainLink>, link: ChainLink,
                           attested: PinIdentity, now: Time)
    requires !link.kind.Boot? && Vouches(c, e.debug, link, attested)
    requires ValidateSigned(c, e, prior, link, attested, now).Err?
    ensures Fault(c, e, v, prior, link, now, ValidateSigned(c, e, prior, link, attested, now).error)
  {
    hide ValidateSigned, BootFault, SignedFault, AttestedAs, Vouches;
    SignedRefused(c, e, prior, link, attested, now);
    SignedErrors(c, e, prior, link, attested, now);
  }

  /** Every refusal is deserved: the error names a fault of the link against the recorded version, chain and clock. */
  lemma RefusalIsTrue(c: Crypto, e: Enclave, v: Version, prior: seq<ChainLink>, link: ChainLink, now: Time)
    requires ValidateChainLink(c, e, v, prior, link, now).Err?
    ensures Fault(c, e, v, prior, link, now, ValidateChainLink(c, e, v, prior, link, now).error)
  {
    hide ValidateBoot, ValidateSigned, BootFault, SignedFault, ToPcrs;
    PcrsReadIff(v.pcrs);
    var identity := LinkAttestation(c, link, e.debug);
    if AttestedAs(c, e, v, link) && link.attestation != [] {
      assert Vouches(c, e.debug, link, identity.value);
      hide Fault;
      if link.kind.Boot? {
        BootFaultIsFault(c, e, v, prior, link, now);
      } else {
        SignedFaultIsFault(c, e, v, prior, link, identity.value, now);
      }
    }
  }

  lemma BootErrors(c: Crypto, e: Enclave, v: Version, prior: seq<ChainLink>, link: ChainLink)
    requires ValidateBoot(c, e, v, prior, link).Err?
    ensures var error := ValidateBoot(c, e, v, prior, link).error;
            !error.EmptyAttestation? && !error.CorruptStoredPcrHex? && !error.Attestation?
  {
    hide Codec.DecodeCanonical, CheckSuccessor;
  }

  lemma SignedErrors(c: Crypto, e: Enclave, prior: seq<ChainLink>, link: ChainLink, attested: PinIdentity, now: Time)
    requires !link.kind.Boot? && ValidateSigned(c, e, prior, link, attested, now).Err?
    ensures var error := ValidateSigned(c, e, prior, link, attested, now).error;
            !error.EmptyAttestation? && !error.CorruptStoredPcrHex? && !error.Attestation?
  {
    hide Codec.DecodeCanonical, CheckRevokeTarget, SignedPayloadSeen;
    if link.kind.Revocation? {
      var p := c.revocation.DecodeCanonical(link.payload);
      if p.Some? && CheckRevokeTarget(c, prior, p.value, now).Err? { TargetErrors(c, prior, p.value, now); }
    }
  }
}
