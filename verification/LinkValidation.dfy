/** Validation of one chain link against the enclave's recorded state and the chain so far. */
module LinkValidation {
  import opened Wrappers
  import opened ChainTypes
  import ControlSignature

  /** What does not change over an enclave's life. `debug` skips the certificate chain. */
  datatype Enclave = Enclave(id: Uuid, controlKey: Option<Bytes>, upgradable: bool, debug: bool)

  /** The recorded version: PCR0-2 and image digest. */
  datatype Version = Version(pcrs: PcrsHex, digest: string)

  /** The link carries a valid document made for its own payload, attesting `identity`. */
  predicate Vouches(c: Crypto, debug: bool, link: ChainLink, identity: PinIdentity) {
    c.document(link.attestation, debug) == Some(Document(Some(c.sha256(link.payload)), Some(identity)))
  }

  /** The identity a link's attestation proves, when the document is valid and bound to the payload. */
  function LinkAttestation(c: Crypto, link: ChainLink, debug: bool): (r: Option<PinIdentity>) {
    match c.document(link.attestation, debug)
    case None => None
    case Some(doc) => if doc.userData == Some(c.sha256(link.payload)) then doc.identity else None
  }

  /** Index of the last boot in `prior`, or -1. */
  function LastBoot(prior: seq<ChainLink>): (r: int)
    ensures -1 <= r < |prior|
    ensures r >= 0 ==> prior[r].kind.Boot?
    ensures forall k :: r < k < |prior| ==> !prior[k].kind.Boot?
  {
    if prior == [] then -1
    else if prior[|prior| - 1].kind.Boot? then |prior| - 1
    else
      var r := LastBoot(prior[..|prior| - 1]);
      assert forall k :: r < k < |prior| - 1 ==> prior[k] == prior[..|prior| - 1][k];
      r
  }

  /** Index of the first link in `prior[from..]` carrying `id`, or -1. */
  function FirstWithId(prior: seq<ChainLink>, id: Uuid, from: nat := 0): (r: int)
    requires from <= |prior|
    ensures r == -1 || from <= r < |prior|
    ensures r >= 0 ==> prior[r].id == Some(id) && forall k :: from <= k < r ==> prior[k].id != Some(id)
    ensures r == -1 ==> forall k :: from <= k < |prior| ==> prior[k].id != Some(id)
    decreases |prior| - from
  {
    if from == |prior| then -1
    else if prior[from].id == Some(id) then from
    else FirstWithId(prior, id, from + 1)
  }

  predicate SignedPayloadSeen(link: ChainLink, prior: seq<ChainLink>) {
    exists i :: 0 <= i < |prior| && prior[i].kind == link.kind && prior[i].payload == link.payload
  }

  /** The double-revoke scan: every stored revocation must decode and name another entry. */
  function CheckNotRevoked(c: Crypto, prior: seq<ChainLink>, id: Uuid, from: nat := 0): (r: Result<(), ChainError>)
    requires from <= |prior|
    ensures r.Ok? <==> forall k :: from <= k < |prior| && prior[k].kind.Revocation? ==>
        var p := c.revocation.DecodeCanonical(prior[k].payload); p.Some? && p.value.revokes != id
    decreases |prior| - from
  {
    if from == |prior| then Ok(())
    else if !prior[from].kind.Revocation? then CheckNotRevoked(c, prior, id, from + 1)
    else
      match c.revocation.DecodeCanonical(prior[from].payload)
      case None => Err(CorruptStoredPayload(Revocation))
      case Some(p) => if p.revokes == id then Err(AlreadyRevoked) else CheckNotRevoked(c, prior, id, from + 1)
  }

  function ValidateBoot(c: Crypto, e: Enclave, v: Version, prior: seq<ChainLink>, link: ChainLink)
    : (r: Result<Outcome, ChainError>)
    ensures r.Ok? && r.value.Append? ==> r.value.sequence == |prior|
  {
    if link.signature.Some? then Err(BootHasSignature)
    else
      match c.boot.DecodeCanonical(link.payload)
      case None => Err(PayloadDecode(Boot))
      case Some(parsed) =>
        if parsed.enclaveId != e.id then Err(EnclaveIdMismatch)
        else if parsed.pcrs != v.pcrs then Err(PcrMismatch)
        else if parsed.imageDigest != v.digest then Err(ImageDigestMismatch)
        else
          var last := LastBoot(prior);
          if last < 0 then Ok(Append(|prior|))
          else
            match c.boot.DecodeCanonical(prior[last].payload)
            case None => Err(CorruptStoredPayload(Boot))
            case Some(prev) =>
              if prev.imageDigest == parsed.imageDigest then Ok(Dedup)
              else if !e.upgradable then Err(NonUpgradableSecondBoot)
              else
                match CheckSuccessor(prev.antiRollback, parsed.antiRollback)
                case Err(change) => Err(AntiRollbackChanged(change))
                case Ok(_) => Ok(Append(|prior|))
  }

  function DomainOf(kind: Kind): ControlSignature.SignedDomain {
    if kind.Upgrade? then ControlSignature.UpgradePayload else ControlSignature.RevocationPayload
  }

  function CheckSignature(c: Crypto, e: Enclave, link: ChainLink): (r: Result<(), ChainError>) {
    if !e.upgradable then Err(NonUpgradableSigned(link.kind))
    else if link.signature.None? then Err(SignatureMissing(link.kind))
    else if e.controlKey.None? || !c.keyDecodes(e.controlKey.value) then Err(BadControlPubkey)
    else if !c.signatureShape(link.signature.value) then Err(SignatureShape)
    else
      var message := ControlSignature.SignedMessage(DomainOf(link.kind), link.payload);
      if c.verifies(e.controlKey.value, message, link.signature.value) then Ok(()) else Err(SignatureInvalid)
  }

  function CheckUpgrade(c: Crypto, e: Enclave, link: ChainLink, attested: PinIdentity): (r: Result<(), ChainError>) {
    match c.upgrade.DecodeCanonical(link.payload)
    case None => Err(PayloadDecode(Upgrade))
    case Some(parsed) =>
      if parsed.enclaveId != e.id then Err(EnclaveIdMismatch)
      else if !WindowIsValid(parsed.validFrom, parsed.validUntil) then Err(UpgradeWindowInvalid)
      else if parsed.from != attested then Err(UpgradeFromMismatch)
      else Ok(())
  }

  /** Target lookup, kind, hash, activation and double-revoke checks of a fresh revocation. */
  function CheckRevokeTarget(c: Crypto, prior: seq<ChainLink>, revoke: RevocationPayload, now: Time)
    : (r: Result<(), ChainError>)
  {
    var t := FirstWithId(prior, revoke.revokes);
    if t < 0 then Err(RevokeTargetMissing)
    else if !prior[t].kind.Upgrade? then Err(RevokeTargetWrongKind(prior[t].kind))
    else if revoke.revokesLink != c.sha256(prior[t].payload) then Err(RevokeLinkHashMismatch)
    else
      match c.upgrade.DecodeCanonical(prior[t].payload)
      case None => Err(CorruptStoredPayload(Upgrade))
      case Some(target) =>
        if target.validFrom <= now then Err(RevokePastActivation)
        else CheckNotRevoked(c, prior, revoke.revokes)
  }

  function ValidateSigned(c: Crypto, e: Enclave, prior: seq<ChainLink>, link: ChainLink,
                          attested: PinIdentity, now: Time)
    : (r: Result<Outcome, ChainError>)
    ensures r.Ok? && r.value.Append? ==> r.value.sequence == |prior|
  {
    var _ :- CheckSignature(c, e, link);
    if link.kind.Upgrade? then
      var _ :- CheckUpgrade(c, e, link, attested);
      if SignedPayloadSeen(link, prior) then Ok(Dedup)
      else if prior == [] then Err(NoGenesisYet)
      else Ok(Append(|prior|))
    else
      match c.revocation.DecodeCanonical(link.payload)
      case None => Err(PayloadDecode(Revocation))
      case Some(revoke) =>
        if revoke.enclaveId != e.id then Err(EnclaveIdMismatch)
        else if SignedPayloadSeen(link, prior) then Ok(Dedup)
        else
          var _ :- CheckRevokeTarget(c, prior, revoke, now);
          if prior == [] then Err(NoGenesisYet) else Ok(Append(|prior|))
  }

  /** The validator both ingest and the walker call: `v` is the recorded version, `prior` the chain so far. */
  function ValidateChainLink(c: Crypto, e: Enclave, v: Version, prior: seq<ChainLink>, link: ChainLink, now: Time)
    : (r: Result<Outcome, ChainError>)
    ensures r.Ok? && r.value.Append? ==> r.value.sequence == |prior|
  {
    if link.attestation == [] then Err(EmptyAttestation)
    else
      var recorded :- ToPcrs(v.pcrs);
      match LinkAttestation(c, link, e.debug)
      case None => Err(Attestation)
      case Some(identity) =>
        if identity.image != recorded then Err(Attestation)
        else if link.kind.Boot? then ValidateBoot(c, e, v, prior, link)
        else ValidateSigned(c, e, prior, link, identity, now)
  }

  // ----- What acceptance means -----

  /** An accepted link is attested by an enclave measuring exactly the recorded PCR0-2. */
  ghost predicate AttestedAs(c: Crypto, e: Enclave, v: Version, link: ChainLink) {
    var doc := c.document(link.attestation, e.debug);
    && doc.Some? && doc.value.userData == Some(c.sha256(link.payload)) && doc.value.identity.Some?
    && ToPcrs(v.pcrs) == Ok(doc.value.identity.value.image)
  }

  /** A link signed by the control key in the domain of its own kind. */
  ghost predicate SignedInDomain(c: Crypto, e: Enclave, link: ChainLink) {
    !link.kind.Boot? && link.signature.Some? && e.controlKey.Some? && e.upgradable
    && var context := if link.kind.Upgrade? then ControlSignature.Ascii("enclavia/upgrade-payload/v1")
                      else ControlSignature.Ascii("enclavia/revocation-payload/v1");
       c.verifies(e.controlKey.value, context + [0] + link.payload, link.signature.value)
  }

  /** An accepted boot states the recorded version of this very enclave. */
  ghost predicate BootOf(c: Crypto, e: Enclave, v: Version, link: ChainLink) {
    var p := c.boot.DecodeCanonical(link.payload);
    link.kind.Boot? && p.Some? && p.value.enclaveId == e.id && v == Version(p.value.pcrs, p.value.imageDigest)
  }

  ghost predicate UpgradeOf(c: Crypto, e: Enclave, link: ChainLink) {
    var p := c.upgrade.DecodeCanonical(link.payload);
    link.kind.Upgrade? && p.Some? && p.value.enclaveId == e.id
    && p.value.validFrom + 3600 * SECOND <= p.value.validUntil
    && Vouches(c, e.debug, link, p.value.from)
  }

  lemma AcceptedBoot(c: Crypto, e: Enclave, v: Version, prior: seq<ChainLink>, link: ChainLink, now: Time)
    requires link.kind.Boot? && ValidateChainLink(c, e, v, prior, link, now).Ok?
    ensures AttestedAs(c, e, v, link) && BootOf(c, e, v, link)
  {
  }

  lemma AcceptedUpgrade(c: Crypto, e: Enclave, v: Version, prior: seq<ChainLink>, link: ChainLink, now: Time)
    requires link.kind.Upgrade? && ValidateChainLink(c, e, v, prior, link, now).Ok?
    ensures AttestedAs(c, e, v, link) && SignedInDomain(c, e, link) && UpgradeOf(c, e, link)
  {
  }

  /** Whatever its kind, an accepted link carries a valid document made for its own payload by an enclave that measures
      the recorded PCR0-2. */
  lemma AcceptedIsAttested(c: Crypto, e: Enclave, v: Version, prior: seq<ChainLink>, link: ChainLink, now: Time)
    requires ValidateChainLink(c, e, v, prior, link, now).Ok?
    ensures AttestedAs(c, e, v, link)
  {
    hide ValidateBoot, ValidateSigned, ToPcrs;
  }

  /** A document cannot be carried over to another payload: accepted links with the same attestation octets have
      payloads of the same hash, on whatever chains, rows and clocks they were accepted. */
  lemma DocumentFitsOnePayload(c: Crypto, e: Enclave, v1: Version, p1: seq<ChainLink>, l1: ChainLink, t1: Time,
                               v2: Version, p2: seq<ChainLink>, l2: ChainLink, t2: Time)
    requires ValidateChainLink(c, e, v1, p1, l1, t1).Ok? && ValidateChainLink(c, e, v2, p2, l2, t2).Ok?
    requires l1.attestation == l2.attestation
    ensures c.sha256(l1.payload) == c.sha256(l2.payload)
  {
    hide ValidateChainLink, ToPcrs;
    AcceptedIsAttested(c, e, v1, p1, l1, t1);
    AcceptedIsAttested(c, e, v2, p2, l2, t2);
  }

  ghost predicate FitsOneMessage(c: Crypto, key: Bytes, signature: Bytes) {
    forall m1, m2 :: c.verifies(key, m1, signature) && c.verifies(key, m2, signature) ==> m1 == m2
  }

  /** A signature that fits one message only cannot be relabelled: a signed link accepted under one kind is refused
      under the other. */
  lemma KindCannotBeRelabelled(c: Crypto, e: Enclave, v1: Version, p1: seq<ChainLink>, l1: ChainLink, t1: Time,
                               v2: Version, p2: seq<ChainLink>, l2: ChainLink, t2: Time)
    requires l1.kind.Upgrade? && l2.kind.Revocation? && l1.signature == l2.signature && l1.signature.Some?
    requires ValidateChainLink(c, e, v1, p1, l1, t1).Ok? && e.controlKey.Some?
    requires FitsOneMessage(c, e.controlKey.value, l1.signature.value)
    ensures ValidateChainLink(c, e, v2, p2, l2, t2).Err?
  {
    hide CheckUpgrade, CheckRevokeTarget, SignedPayloadSeen, ToPcrs, Codec.DecodeCanonical;
    hide ControlSignature.SignedMessage;
    var m1 := ControlSignature.SignedMessage(ControlSignature.UpgradePayload, l1.payload);
    var m2 := ControlSignature.SignedMessage(ControlSignature.RevocationPayload, l2.payload);
    assert c.verifies(e.controlKey.value, m1, l1.signature.value);
    if c.verifies(e.controlKey.value, m2, l1.signature.value) {
      ControlSignature.SignedMessageInjective(ControlSignature.UpgradePayload, l1.payload,
                                              ControlSignature.RevocationPayload, l2.payload);
    }
  }

  /** No signed link is accepted onto an empty chain. */
  lemma SignedNeedsGenesis(c: Crypto, e: Enclave, v: Version, link: ChainLink, now: Time)
    requires !link.kind.Boot?
    ensures ValidateChainLink(c, e, v, [], link, now).Err?
  {
  }

  /** The validator does not look at the id and sequence the backend assigns on insert. */
  lemma AssignmentIrrelevant(c: Crypto, e: Enclave, v: Version, prior: seq<ChainLink>, link: ChainLink, now: Time,
                             id: Option<Uuid>, sequence: Option<nat>)
    ensures ValidateChainLink(c, e, v, prior, link.(id := id, sequence := sequence), now)
         == ValidateChainLink(c, e, v, prior, link, now)
  {
    var stored := link.(id := id, sequence := sequence);
    assert LinkAttestation(c, stored, e.debug) == LinkAttestation(c, link, e.debug);
    if link.kind.Boot? {
      assert ValidateBoot(c, e, v, prior, stored) == ValidateBoot(c, e, v, prior, link);
    } else {
      assert SignedPayloadSeen(stored, prior) == SignedPayloadSeen(link, prior);
      assert CheckSignature(c, e, stored) == CheckSignature(c, e, link);
    }
  }
}
