/** A concrete choice of the library primitives in which chains can be written down: a payload spells the version and
    digest it names, and a document spells the payload and the version that attests it. */
module ChainWorld {
  import opened Wrappers
  import opened ChainTypes
  import opened LinkValidation
  import opened LinkAcceptance
  import opened ChainWalk
  import opened WalkSoundness

  function Identity(version: byte): PinIdentity {
    PinIdentity(Pcrs([version], [version], [version]), [])
  }

  function Digest(d: byte): string {
    [d as char]
  }

  function VersionOf(version: byte, digest: byte): Version {
    Version(ImagePcrsHex(Identity(version)), Digest(digest))
  }

  const OFF := AntiRollback(false, false, false, [])

  /** A payload is a version, a digest and a nonce. */
  function BootIn(b: Bytes): BootPayload
    requires |b| == 3
  {
    BootPayload(0, Digest(b[1]), ImagePcrsHex(Identity(b[0])), 0, b, OFF)
  }

  function UpgradeIn(b: Bytes): UpgradePayload
    requires |b| == 3
  {
    UpgradePayload(0, Identity(0), Identity(b[0]), Digest(b[1]), 0, UPGRADE_WINDOW_MIN, 0, b)
  }

  const WORLD := Crypto(
    Codec((b: Bytes) => if |b| == 3 then Some(BootIn(b)) else None, (p: BootPayload) => p.nonce),
    Codec((b: Bytes) => if |b| == 3 then Some(UpgradeIn(b)) else None, (p: UpgradePayload) => p.nonce),
    Codec((b: Bytes) => None, (p: RevocationPayload) => p.nonce),
    (b: Bytes) => b,
    (doc: Bytes, debug: bool) => if |doc| == 4 then Some(Document(Some(doc[..3]), Some(Identity(doc[3])))) else None,
    (key: Bytes) => true,
    (sig: Bytes) => true,
    (key: Bytes, message: Bytes, sig: Bytes) => true)

  const ENCLAVE := Enclave(0, Some([]), true, false)

  const INPUT := WalkInput(ENCLAVE, VersionOf(0, 0), 0)

  /** Link `i`, naming a version and a digest, attested by `attester`. */
  function Link(i: byte, upgrade: bool, version: byte, digest: byte, attester: byte): ChainLink {
    ChainLink(Some(i), Some(i), if upgrade then Upgrade else Boot, [version, digest, i],
              [version, digest, i, attester], if upgrade then Some([]) else None)
  }

  lemma Decodes(b: Bytes)
    requires |b| == 3
    ensures WORLD.boot.DecodeCanonical(b) == Some(BootIn(b)) && WORLD.upgrade.DecodeCanonical(b) == Some(UpgradeIn(b))
  {
  }

  lemma Attests(i: byte, upgrade: bool, version: byte, digest: byte, attester: byte)
    ensures LinkAttestation(WORLD, Link(i, upgrade, version, digest, attester), false) == Some(Identity(attester))
    ensures Vouches(WORLD, false, Link(i, upgrade, version, digest, attester), Identity(attester))
  {
    assert [version, digest, i, attester][..3] == [version, digest, i];
  }

  lemma Distinct(a: byte, b: byte)
    requires a != b
    ensures ImagePcrsHex(Identity(a)) != ImagePcrsHex(Identity(b))
  {
    hide ImagePcrsHex;
    assert ToPcrs(ImagePcrsHex(Identity(a))) == Ok(Identity(a).image);
    assert ToPcrs(ImagePcrsHex(Identity(b))) == Ok(Identity(b).image);
    assert Identity(a).image.pcr0[0] == a && Identity(b).image.pcr0[0] == b;
  }

  lemma LinkAdmitted(i: byte, upgrade: bool, version: byte, digest: byte, attester: byte, v: Version)
    requires v.pcrs == ImagePcrsHex(Identity(attester))
    ensures Admitted(WORLD, ENCLAVE, v, Link(i, upgrade, version, digest, attester))
  {
    hide ImagePcrsHex, LinkAttestation;
    Attests(i, upgrade, version, digest, attester);
  }

  lemma BootIsPlain(i: byte, version: byte, digest: byte)
    ensures PlainBoot(WORLD, ENCLAVE, VersionOf(version, digest), Link(i, false, version, digest, version))
  {
    hide ImagePcrsHex, Admitted, Codec.DecodeCanonical;
    LinkAdmitted(i, false, version, digest, version, VersionOf(version, digest));
    Decodes([version, digest, i]);
  }

  /** An upgrade recorded by version 0 appends to any chain that has begun and does not hold it. */
  lemma UpgradeAppends(i: byte, version: byte, digest: byte, v: Version, prior: seq<ChainLink>)
    requires v.pcrs == ImagePcrsHex(Identity(0)) && prior != []
    requires !SignedPayloadSeen(Link(i, true, version, digest, 0), prior)
    ensures ValidateChainLink(WORLD, ENCLAVE, v, prior, Link(i, true, version, digest, 0), 0) == Ok(Append(|prior|))
  {
    hide ImagePcrsHex, Admitted, Codec.DecodeCanonical, Vouches, SignedPayloadSeen, ValidateChainLink;
    var link := Link(i, true, version, digest, 0);
    LinkAdmitted(i, true, version, digest, 0, v);
    Attests(i, true, version, digest, 0);
    Decodes(link.payload);
    UpgradeAppendIff(WORLD, ENCLAVE, v, prior, link, 0);
  }

  /** An unrepeated upgrade explains exactly the version it names, as long as nothing is revoked. */
  lemma UpgradeExplains(prior: seq<ChainLink>, j: nat, i: byte, version: byte, digest: byte, v: Version)
    requires j < |prior| && prior[j] == Link(i, true, version, digest, 0)
    requires forall k :: 0 <= k < |prior| ==> !prior[k].kind.Revocation?
    requires !SignedPayloadSeen(prior[j], prior[..j])
    ensures Explains(WORLD, prior, j, v) <==> v == VersionOf(version, digest)
  {
    hide ImagePcrsHex, Codec.DecodeCanonical, SignedPayloadSeen;
    Decodes(prior[j].payload);
  }

  /** The most recent explaining upgrade is the one no later link competes with. */
  lemma LastIs(prior: seq<ChainLink>, j: nat, v: Version)
    requires j < |prior| && Explains(WORLD, prior, j, v)
    requires forall k :: j < k < |prior| ==> !Explains(WORLD, prior, k, v)
    ensures LastExplaining(WORLD, prior, |prior|, v) == j
  {
    hide Explains, LastExplaining;
  }

  // ----- One position of a walk -----

  ghost predicate IsLink(links: seq<RecordedLink>, n: nat, link: ChainLink) {
    n < |links| && links[n] == RecordedLink(link, Some(0))
  }

  /** One position, given what the walker rebuilds for it and the validator's verdict. */
  lemma Position(links: seq<RecordedLink>, n: nat, v: Version, promotes: bool, outcome: Outcome)
    requires n < |links| && links[n].recordedAt == Some(0)
    requires var st := Walk(WORLD, INPUT, links, n);
             && Rebuild(WORLD, INPUT, st, links[n].link) == Against(v, promotes)
             && ValidateChainLink(WORLD, ENCLAVE, v, st.prior, links[n].link, 0) == Ok(outcome)
    ensures Accepted(WORLD, INPUT, links, n)
    ensures AdvancesAt(WORLD, INPUT, links, n) <==> promotes && outcome.Append?
    ensures InForceAt(WORLD, INPUT, links, n + 1) ==
            if promotes && outcome.Append? then Some(v) else InForceAt(WORLD, INPUT, links, n)
  {
    hide Rebuild, ValidateChainLink;
  }

  /** The genesis boot of version 0. */
  lemma Genesis(links: seq<RecordedLink>)
    requires IsLink(links, 0, Link(0, false, 0, 0, 0))
    ensures Accepted(WORLD, INPUT, links, 0) && AdvancesAt(WORLD, INPUT, links, 0)
    ensures InForceAt(WORLD, INPUT, links, 1) == Some(VersionOf(0, 0))
  {
    hide ImagePcrsHex, ValidateChainLink, Codec.DecodeCanonical, PlainBoot, Accepted, AdvancesAt;
    var link, v := Link(0, false, 0, 0, 0), VersionOf(0, 0);
    Decodes(link.payload);
    BootIsPlain(0, 0, 0);
    BootAppendIff(WORLD, ENCLAVE, v, [], link, 0);
    assert Walk(WORLD, INPUT, links, 0) == START;
    Position(links, 0, v, true, Append(0));
  }

  /** An upgrade recorded while version 0 is in force. */
  lemma Recorded(links: seq<RecordedLink>, n: nat, i: byte, version: byte, digest: byte)
    requires 0 < n && IsLink(links, n, Link(i, true, version, digest, 0))
    requires InForceAt(WORLD, INPUT, links, n) == Some(VersionOf(0, 0))
    requires !SignedPayloadSeen(links[n].link, Walk(WORLD, INPUT, links, n).prior)
    ensures Accepted(WORLD, INPUT, links, n) && !AdvancesAt(WORLD, INPUT, links, n)
    ensures InForceAt(WORLD, INPUT, links, n + 1) == Some(VersionOf(0, 0))
  {
    hide ImagePcrsHex, ValidateChainLink, SignedPayloadSeen, Walk, Accepted, AdvancesAt;
    UpgradeAppends(i, version, digest, VersionOf(0, 0), Walk(WORLD, INPUT, links, n).prior);
    Position(links, n, VersionOf(0, 0), false, Append(n));
  }

  /** A boot of another version that the upgrade at `j` explains. */
  lemma Promoted(links: seq<RecordedLink>, n: nat, j: nat, up: byte, i: byte, version: byte, digest: byte,
                 before: Version, outcome: Outcome)
    requires 0 < n && IsLink(links, n, Link(i, false, version, digest, version))
    requires InForceAt(WORLD, INPUT, links, n) == Some(before) && before.pcrs != ImagePcrsHex(Identity(version))
    requires var prior := Walk(WORLD, INPUT, links, n).prior;
             && LastExplaining(WORLD, prior, n, VersionOf(version, digest)) == j
             && prior[j].payload == [version, digest, up]
             && ValidateChainLink(WORLD, ENCLAVE, VersionOf(version, digest), prior, links[n].link, 0) == Ok(outcome)
    ensures Accepted(WORLD, INPUT, links, n)
    ensures AdvancesAt(WORLD, INPUT, links, n) <==> outcome.Append?
    ensures InForceAt(WORLD, INPUT, links, n + 1) ==
            Some(if outcome.Append? then VersionOf(version, digest) else before)
  {
    hide ImagePcrsHex, ValidateChainLink, Walk, Accepted, AdvancesAt, LinkAttestation, LastExplaining;
    hide Codec.DecodeCanonical;
    var st, link := Walk(WORLD, INPUT, links, n), links[n].link;
    Decodes(link.payload);
    Decodes(st.prior[j].payload);
    Attests(i, false, version, digest, version);
    assert PromotionTarget(WORLD, st.prior, VersionOf(version, digest)) == Some(UpgradeIn(st.prior[j].payload));
    Position(links, n, VersionOf(version, digest), true, outcome);
  }
}
