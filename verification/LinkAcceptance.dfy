/** Exactly when a link is appended, and exactly when it is recognised as a copy. */
module LinkAcceptance {
  import opened Wrappers
  import opened ChainTypes
  import opened LinkValidation

  ghost predicate Admitted(c: Crypto, e: Enclave, v: Version, link: ChainLink) {
    link.attestation != [] && AttestedAs(c, e, v, link)
  }

  // ----- Boots -----

  ghost predicate PlainBoot(c: Crypto, e: Enclave, v: Version, link: ChainLink) {
    Admitted(c, e, v, link) && link.signature.None? && BootOf(c, e, v, link)
  }

  /** Position `b` holds the chain's latest boot and its payload reads as `prev`. */
  ghost predicate LatestBoot(c: Crypto, prior: seq<ChainLink>, b: nat, prev: BootPayload) {
    && b < |prior| && prior[b].kind.Boot? && (forall k :: b < k < |prior| ==> !prior[k].kind.Boot?)
    && c.boot.DecodeCanonical(prior[b].payload) == Some(prev)
  }

  ghost predicate NoBoot(prior: seq<ChainLink>) {
    forall k :: 0 <= k < |prior| ==> !prior[k].kind.Boot?
  }

  /** The genesis boot, or a boot of another image that keeps the anti-rollback setting of the latest one. */
  ghost predicate BootFollows(c: Crypto, e: Enclave, prior: seq<ChainLink>, boot: BootPayload) {
    || NoBoot(prior)
    || exists b: nat, prev :: LatestBoot(c, prior, b, prev) && e.upgradable && prev.imageDigest != boot.imageDigest &&
                              CheckSuccessor(prev.antiRollback, boot.antiRollback).Ok?
  }

  lemma LatestBootUnique(c: Crypto, prior: seq<ChainLink>, b: nat, prev: BootPayload)
    requires LatestBoot(c, prior, b, prev)
    ensures LastBoot(prior) == b
  {
  }

  lemma BootAppendIff(c: Crypto, e: Enclave, v: Version, prior: seq<ChainLink>, link: ChainLink, now: Time)
    requires link.kind.Boot?
    ensures ValidateChainLink(c, e, v, prior, link, now) == Ok(Append(|prior|)) <==>
            PlainBoot(c, e, v, link) && BootFollows(c, e, prior, c.boot.DecodeCanonical(link.payload).value)
  {
    hide CheckSuccessor, ToPcrs;
    if PlainBoot(c, e, v, link) {
      var boot := c.boot.DecodeCanonical(link.payload).value;
      BootFollowsIff(c, e, prior, boot);
    }
  }

  lemma BootFollowsIff(c: Crypto, e: Enclave, prior: seq<ChainLink>, boot: BootPayload)
    ensures BootFollows(c, e, prior, boot) <==>
            var last := LastBoot(prior);
            last < 0 ||
            var prev := c.boot.DecodeCanonical(prior[last].payload);
            prev.Some? && e.upgradable && prev.value.imageDigest != boot.imageDigest &&
            CheckSuccessor(prev.value.antiRollback, boot.antiRollback).Ok?
  {
    hide CheckSuccessor, Codec.DecodeCanonical;
    var last := LastBoot(prior);
    if last >= 0 {
      var prev := c.boot.DecodeCanonical(prior[last].payload);
      if prev.Some? { assert LatestBoot(c, prior, last, prev.value); }
      forall b: nat, p | LatestBoot(c, prior, b, p) ensures b == last { LatestBootUnique(c, prior, b, p); }
    }
  }

  /** A boot is a copy exactly when the latest boot names the same image. */
  lemma BootDedupIff(c: Crypto, e: Enclave, v: Version, prior: seq<ChainLink>, link: ChainLink, now: Time)
    requires link.kind.Boot?
    ensures ValidateChainLink(c, e, v, prior, link, now) == Ok(Dedup) <==>
            PlainBoot(c, e, v, link) &&
            exists b: nat, prev :: LatestBoot(c, prior, b, prev) &&
                                   prev.imageDigest == c.boot.DecodeCanonical(link.payload).value.imageDigest
  {
    hide CheckSuccessor, ToPcrs;
    var last := LastBoot(prior);
    if last >= 0 {
      var prev := c.boot.DecodeCanonical(prior[last].payload);
      if prev.Some? { assert LatestBoot(c, prior, last, prev.value); }
    }
    forall b: nat, p | LatestBoot(c, prior, b, p) ensures b == last { LatestBootUnique(c, prior, b, p); }
  }

  lemma AcceptedIsPlain(c: Crypto, e: Enclave, v: Version, prior: seq<ChainLink>, link: ChainLink, now: Time)
    requires link.kind.Boot? && ValidateChainLink(c, e, v, prior, link, now).Ok?
    ensures PlainBoot(c, e, v, link)
  {
    hide CheckSuccessor, ToPcrs;
  }

  // ----- Signed links -----

  ghost predicate WellSigned(c: Crypto, e: Enclave, v: Version, link: ChainLink) {
    && Admitted(c, e, v, link) && SignedInDomain(c, e, link)
    && c.keyDecodes(e.controlKey.value) && c.signatureShape(link.signature.value)
  }

  lemma SignedPasses(c: Crypto, e: Enclave, v: Version, prior: seq<ChainLink>, link: ChainLink, now: Time)
    requires !link.kind.Boot?
    ensures WellSigned(c, e, v, link) ==>
            ValidateChainLink(c, e, v, prior, link, now) ==
            ValidateSigned(c, e, prior, link, LinkAttestation(c, link, e.debug).value, now)
    ensures WellSigned(c, e, v, link) ==> CheckSignature(c, e, link).Ok?
    ensures ValidateChainLink(c, e, v, prior, link, now).Ok? ==> WellSigned(c, e, v, link)
  {
    hide CheckUpgrade, CheckRevokeTarget, SignedPayloadSeen, ToPcrs, Codec.DecodeCanonical;
  }

  /** An upgrade is appended exactly when it is attested by the recorded version, signed in its domain, names this
      enclave and the attested identity, leaves a valid window, and is new to a chain that has begun; the same link
      already on the chain is a copy. */
  lemma UpgradeAppendIff(c: Crypto, e: Enclave, v: Version, prior: seq<ChainLink>, link: ChainLink, now: Time)
    requires link.kind.Upgrade?
    ensures ValidateChainLink(c, e, v, prior, link, now) == Ok(Append(|prior|)) <==>
            WellSigned(c, e, v, link) && UpgradeOf(c, e, link) && !SignedPayloadSeen(link, prior) && prior != []
    ensures ValidateChainLink(c, e, v, prior, link, now) == Ok(Dedup) <==>
            WellSigned(c, e, v, link) && UpgradeOf(c, e, link) && SignedPayloadSeen(link, prior)
  {
    hide SignedPayloadSeen, ToPcrs, CheckSignature;
    SignedPasses(c, e, v, prior, link, now);
  }

  /** Position `t` holds the first link with the revoked id: an upgrade of the named hash that is not yet active. */
  ghost predicate Target(c: Crypto, prior: seq<ChainLink>, t: nat, p: RevocationPayload, now: Time) {
    && t < |prior| && prior[t].id == Some(p.revokes) && (forall k :: 0 <= k < t ==> prior[k].id != Some(p.revokes))
    && prior[t].kind.Upgrade? && p.revokesLink == c.sha256(prior[t].payload)
    && var u := c.upgrade.DecodeCanonical(prior[t].payload); u.Some? && now < u.value.validFrom
  }

  /** Every stored revocation reads and names another upgrade. */
  ghost predicate Unrevoked(c: Crypto, prior: seq<ChainLink>, id: Uuid) {
    forall k :: 0 <= k < |prior| && prior[k].kind.Revocation? ==>
      var q := c.revocation.DecodeCanonical(prior[k].payload); q.Some? && q.value.revokes != id
  }

  lemma RevokeTargetIff(c: Crypto, prior: seq<ChainLink>, p: RevocationPayload, now: Time)
    ensures CheckRevokeTarget(c, prior, p, now).Ok? <==>
            (exists t: nat :: Target(c, prior, t, p, now)) && Unrevoked(c, prior, p.revokes)
  {
    hide Codec.DecodeCanonical;
    var first := FirstWithId(prior, p.revokes);
    forall t: nat | Target(c, prior, t, p, now) ensures t == first { }
    if CheckRevokeTarget(c, prior, p, now).Ok? {
      assert Target(c, prior, first, p, now);
    }
  }

  ghost predicate RevocationOf(c: Crypto, e: Enclave, link: ChainLink) {
    var p := c.revocation.DecodeCanonical(link.payload);
    p.Some? && p.value.enclaveId == e.id
  }

  /** A revocation is appended exactly when it is well signed, new, and revokes a pending upgrade no stored revocation
      names. */
  lemma RevocationAppendIff(c: Crypto, e: Enclave, v: Version, prior: seq<ChainLink>, link: ChainLink, now: Time)
    requires link.kind.Revocation?
    ensures ValidateChainLink(c, e, v, prior, link, now) == Ok(Append(|prior|)) <==>
            && WellSigned(c, e, v, link) && RevocationOf(c, e, link) && !SignedPayloadSeen(link, prior)
            && var p := c.revocation.DecodeCanonical(link.payload).value;
            && (exists t: nat :: Target(c, prior, t, p, now)) && Unrevoked(c, prior, p.revokes)
    ensures ValidateChainLink(c, e, v, prior, link, now) == Ok(Dedup) <==>
            WellSigned(c, e, v, link) && RevocationOf(c, e, link) && SignedPayloadSeen(link, prior)
  {
    hide SignedPayloadSeen, ToPcrs, LinkAttestation, CheckSignature, CheckRevokeTarget, Unrevoked, Target;
    SignedPasses(c, e, v, prior, link, now);
    var p := c.revocation.DecodeCanonical(link.payload);
    if p.Some? {
      RevokeTargetIff(c, prior, p.value, now);
      forall t: nat | Target(c, prior, t, p.value, now) ensures prior != [] {
        TargetOnChain(c, prior, t, p.value, now);
      }
    }
  }

  lemma TargetOnChain(c: Crypto, prior: seq<ChainLink>, t: nat, p: RevocationPayload, now: Time)
    requires Target(c, prior, t, p, now)
    ensures prior != []
  {
  }

  // ----- Verdicts across submissions -----

  lemma OkVerdicts(c: Crypto, e: Enclave, v: Version, prior: seq<ChainLink>, link: ChainLink, now: Time)
    requires ValidateChainLink(c, e, v, prior, link, now).Ok?
    ensures var r := ValidateChainLink(c, e, v, prior, link, now); r == Ok(Dedup) || r == Ok(Append(|prior|))
  {
    hide ValidateBoot, ValidateSigned, LinkAttestation, ToPcrs;
    var r := ValidateChainLink(c, e, v, prior, link, now);
    match r.value
    case Append(n) => assert r.value.Append? && n == |prior|;
    case Dedup =>
  }

  /** An upgrade once accepted is never refused under the same recorded version: on any chain that has begun and at any
      time it is appended, or recognised as a copy if the chain holds its payload. */
  lemma UpgradeNeverRefused(c: Crypto, e: Enclave, v: Version, prior: seq<ChainLink>, link: ChainLink, now: Time,
                            other: seq<ChainLink>, later: Time)
    requires link.kind.Upgrade? && ValidateChainLink(c, e, v, prior, link, now).Ok? && other != []
    ensures ValidateChainLink(c, e, v, other, link, later) ==
            if SignedPayloadSeen(link, other) then Ok(Dedup) else Ok(Append(|other|))
  {
    hide ValidateChainLink, SignedPayloadSeen, WellSigned, UpgradeOf;
    OkVerdicts(c, e, v, prior, link, now);
    UpgradeAppendIff(c, e, v, prior, link, now);
    UpgradeAppendIff(c, e, v, other, link, later);
  }

  /** Submitting an appended link again is harmless: under the same recorded version it is a copy, whatever was appended
      after it, for a boot as long as no other boot was. */
  lemma ResubmissionDedups(c: Crypto, e: Enclave, v: Version, prior: seq<ChainLink>, link: ChainLink, now: Time,
                           stored: ChainLink, more: seq<ChainLink>, later: Time)
    requires ValidateChainLink(c, e, v, prior, link, now) == Ok(Append(|prior|))
    requires stored.kind == link.kind && stored.payload == link.payload
    requires link.kind.Boot? ==> NoBoot(more)
    ensures ValidateChainLink(c, e, v, prior + [stored] + more, link, later) == Ok(Dedup)
  {
    hide ValidateChainLink, WellSigned, UpgradeOf, RevocationOf, PlainBoot, Target, Unrevoked, BootFollows;
    var chain := prior + [stored] + more;
    assert chain[|prior|] == stored && forall k :: |prior| < k < |chain| ==> chain[k] == more[k - |prior| - 1];
    match link.kind {
      case Boot =>
        BootAppendIff(c, e, v, prior, link, now);
        PlainBootDecodes(c, e, v, link);
        assert LatestBoot(c, chain, |prior|, c.boot.DecodeCanonical(link.payload).value);
        BootDedupIff(c, e, v, chain, link, later);
      case Upgrade =>
        UpgradeAppendIff(c, e, v, prior, link, now);
        UpgradeAppendIff(c, e, v, chain, link, later);
      case Revocation =>
        RevocationAppendIff(c, e, v, prior, link, now);
        RevocationAppendIff(c, e, v, chain, link, later);
    }
  }

  lemma PlainBootDecodes(c: Crypto, e: Enclave, v: Version, link: ChainLink)
    requires PlainBoot(c, e, v, link)
    ensures c.boot.DecodeCanonical(link.payload).Some?
  {
  }
}
