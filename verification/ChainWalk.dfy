/** The retrospective walk over a stored chain: it rebuilds the version each link was ingested
    against from the chain alone. */
module ChainWalk {
  import opened Wrappers
  import opened ChainTypes
  import opened LinkValidation

  datatype RecordedLink = RecordedLink(link: ChainLink, recordedAt: Option<Time>)

  /** The caller's view of the enclave: its fixed data, the current row and the fallback instant. */
  datatype WalkInput = WalkInput(e: Enclave, row: Version, now: Time)

  datatype WalkState = WalkState(
    outcomes: seq<Result<Outcome, ChainError>>,
    prior: seq<ChainLink>,
    inForce: Option<Version>,
    identity: Option<PinIdentity>)

  const START := WalkState([], [], None, None)

  // ----- The upgrade that explains a boot -----

  /** Some decodable revocation in `prior` names `id`. */
  predicate Revoked(c: Crypto, prior: seq<ChainLink>, id: Option<Uuid>) {
    id.Some? && exists k :: 0 <= k < |prior| && prior[k].kind.Revocation?
                         && var p := c.revocation.DecodeCanonical(prior[k].payload);
                            p.Some? && p.value.revokes == id.value
  }

  /** Link `j` is an unrevoked upgrade to `v` whose payload no earlier upgrade carries. */
  predicate Explains(c: Crypto, prior: seq<ChainLink>, j: nat, v: Version)
    requires j < |prior|
  {
    prior[j].kind.Upgrade?
    && !Revoked(c, prior, prior[j].id)
    && !SignedPayloadSeen(prior[j], prior[..j])
    && var p := c.upgrade.DecodeCanonical(prior[j].payload);
       p.Some? && v == Version(ImagePcrsHex(p.value.to), p.value.imageDigest)
  }

  /** The most recent explaining upgrade below `n`, or -1. */
  function LastExplaining(c: Crypto, prior: seq<ChainLink>, n: nat, v: Version): (r: int)
    requires n <= |prior|
    ensures -1 <= r < n
    ensures r >= 0 ==> Explains(c, prior, r, v)
    ensures forall k :: r < k < n ==> !Explains(c, prior, k, v)
  {
    if n == 0 then -1
    else if Explains(c, prior, n - 1, v) then n - 1
    else LastExplaining(c, prior, n - 1, v)
  }

  function PromotionTarget(c: Crypto, prior: seq<ChainLink>, v: Version): (r: Option<UpgradePayload>) {
    var j := LastExplaining(c, prior, |prior|, v);
    if j < 0 then None else c.upgrade.DecodeCanonical(prior[j].payload)
  }

  /** The ids that decodable revocations in `prior` name. */
  method RevokedIds(c: Crypto, prior: seq<ChainLink>) returns (revoked: seq<Uuid>)
    ensures forall id :: id in revoked <==> Revoked(c, prior, Some(id))
  {
    revoked := [];
    for i := 0 to |prior|
      invariant forall id :: id in revoked <==> Revoked(c, prior[..i], Some(id))
    {
      var next := prior[..i + 1];
      assert next[..i] == prior[..i] && next[i] == prior[i];
      var found: Option<Uuid> := None;
      if prior[i].kind.Revocation? {
        var p := c.revocation.DecodeCanonical(prior[i].payload);
        if p.Some? {
          found := Some(p.value.revokes);
          revoked := revoked + [p.value.revokes];
        }
      }
      forall id: Uuid ensures Revoked(c, next, Some(id)) <==> Revoked(c, prior[..i], Some(id)) || found == Some(id) {
        RevokedExtends(c, prior[..i], prior[i], id);
        assert next == prior[..i] + [prior[i]];
      }
    }
    assert prior[..|prior|] == prior;
  }

  lemma RevokedExtends(c: Crypto, prior: seq<ChainLink>, link: ChainLink, id: Uuid)
    ensures Revoked(c, prior + [link], Some(id)) <==>
            Revoked(c, prior, Some(id))
            || (link.kind.Revocation? && var p := c.revocation.DecodeCanonical(link.payload);
                p.Some? && p.value.revokes == id)
  {
    var next := prior + [link];
    assert next[|prior|] == link;
    if Revoked(c, prior, Some(id)) {
      var k :| 0 <= k < |prior| && prior[k].kind.Revocation?
               && var p := c.revocation.DecodeCanonical(prior[k].payload); p.Some? && p.value.revokes == id;
      assert next[k] == prior[k];
    }
  }

  method FindPromotionTarget(c: Crypto, prior: seq<ChainLink>, bootPcrs: PcrsHex, bootDigest: string)
    returns (target: Option<UpgradePayload>)
    ensures target == PromotionTarget(c, prior, Version(bootPcrs, bootDigest))
  {
    hide ImagePcrsHex;
    ghost var v := Version(bootPcrs, bootDigest);
    var revoked := RevokedIds(c, prior);
    var i := |prior|;
    while i > 0
      invariant 0 <= i <= |prior|
      invariant LastExplaining(c, prior, |prior|, v) == LastExplaining(c, prior, i, v)
    {
      i := i - 1;
      var l := prior[i];
      assert l.id.Some? && l.id.value in revoked <==> Revoked(c, prior, l.id);
      if l.kind != Upgrade { continue; }
      if l.id.Some? && l.id.value in revoked { continue; }
      if SignedPayloadSeen(l, prior[..i]) { continue; }
      var p := c.upgrade.DecodeCanonical(l.payload);
      if p.None? { continue; }
      if ImagePcrsHex(p.value.to) == bootPcrs && p.value.imageDigest == bootDigest {
        return p;
      }
    }
    return None;
  }

  // ----- One position of the walk -----

  /** What a link is validated against, and whether success advances the version in force. */
  datatype Rebuilt = Refused(error: ChainError) | Against(v: Version, promotes: bool)

  /** The fallback context: the version in force, or the row before any genesis. */
  function Standing(input: WalkInput, st: WalkState): Version {
    if st.inForce.Some? then st.inForce.value else input.row
  }

  /** A boot of another version than the one in force: promotion, or a context it cannot meet. */
  function RebuildPromotion(c: Crypto, input: WalkInput, st: WalkState, link: ChainLink, p: BootPayload): (r: Rebuilt) {
    match PromotionTarget(c, st.prior, Version(p.pcrs, p.imageDigest))
    case None => Against(Standing(input, st), false)
    case Some(target) =>
      if p.bootedAt < target.validFrom - CLOCK_SKEW_TOLERANCE then Refused(UpgradeNotYetActive)
      else if p.bootedAt > target.validUntil + CLOCK_SKEW_TOLERANCE then Refused(UpgradeExpired)
      else
        var attested := LinkAttestation(c, link, input.e.debug);
        if attested.Some? && attested.value != target.to then Refused(PromotionIdentityMismatch)
        else Against(Version(ImagePcrsHex(target.to), target.imageDigest), true)
  }

  function Rebuild(c: Crypto, input: WalkInput, st: WalkState, link: ChainLink): (r: Rebuilt) {
    if !link.kind.Boot? then
      if SignedPayloadSeen(link, st.prior) then Refused(DuplicatePayload(link.kind))
      else Against(Standing(input, st), false)
    else
      var p := c.boot.DecodeCanonical(link.payload);
      if st.prior == [] then
        if p.Some? then Against(Version(p.value.pcrs, p.value.imageDigest), true) else Against(input.row, false)
      else if p.None? || st.inForce.None? || p.value.pcrs == st.inForce.value.pcrs then
        Against(Standing(input, st), false)
      else RebuildPromotion(c, input, st, link, p.value)
  }

  function OutcomeOf(c: Crypto, input: WalkInput, st: WalkState, rec: RecordedLink): (r: Result<Outcome, ChainError>) {
    match Rebuild(c, input, st, rec.link)
    case Refused(error) => Err(error)
    case Against(v, _) =>
      var reference := if rec.recordedAt.Some? then rec.recordedAt.value else input.now;
      ValidateChainLink(c, input.e, v, st.prior, rec.link, reference)
  }

  /** The link at this position changes the version in force. */
  predicate Advances(c: Crypto, input: WalkInput, st: WalkState, rec: RecordedLink) {
    var ctx := Rebuild(c, input, st, rec.link);
    var outcome := OutcomeOf(c, input, st, rec);
    ctx.Against? && ctx.promotes && outcome.Ok? && outcome.value.Append?
  }

  function WalkStep(c: Crypto, input: WalkInput, st: WalkState, rec: RecordedLink): (r: WalkState) {
    var advanced := Advances(c, input, st, rec);
    WalkState(
      st.outcomes + [OutcomeOf(c, input, st, rec)],
      st.prior + [rec.link],
      if advanced then Some(Rebuild(c, input, st, rec.link).v) else st.inForce,
      if advanced then LinkAttestation(c, rec.link, input.e.debug) else st.identity)
  }

  /** The walk after the first `n` links. */
  function Walk(c: Crypto, input: WalkInput, links: seq<RecordedLink>, n: nat): (st: WalkState)
    requires n <= |links|
    ensures |st.outcomes| == n && |st.prior| == n
    ensures forall i :: 0 <= i < n ==> st.prior[i] == links[i].link
  {
    if n == 0 then START else WalkStep(c, input, Walk(c, input, links, n - 1), links[n - 1])
  }

  /** The result record: outcomes, the version in force at the end, and its agreement with the row. */
  datatype ChainWalkResult = ChainWalkResult(
    outcomes: seq<Result<Outcome, ChainError>>,
    finalPcrs: Option<PcrsHex>,
    finalImageDigest: Option<string>,
    finalIdentity: Option<PinIdentity>,
    tipMatchesRow: bool)

  function Finish(input: WalkInput, st: WalkState): ChainWalkResult {
    ChainWalkResult(
      st.outcomes,
      if st.inForce.Some? then Some(st.inForce.value.pcrs) else None,
      if st.inForce.Some? then Some(st.inForce.value.digest) else None,
      st.identity,
      st.inForce == Some(input.row))
  }

  /** The context a non-duplicate link saw at ingest, from the walk's own state. */
  method ReconstructContext(c: Crypto, input: WalkInput, st: WalkState, link: ChainLink) returns (ctx: Rebuilt)
    requires link.kind.Boot? || !SignedPayloadSeen(link, st.prior)
    ensures ctx == Rebuild(c, input, st, link)
  {
    var standing := if st.inForce.Some? then st.inForce.value else input.row;
    if !link.kind.Boot? { return Against(standing, false); }
    var p := c.boot.DecodeCanonical(link.payload);
    if st.prior == [] {
      return if p.Some? then Against(Version(p.value.pcrs, p.value.imageDigest), true) else Against(input.row, false);
    }
    if p.None? || st.inForce.None? || p.value.pcrs == st.inForce.value.pcrs { return Against(standing, false); }
    var target := FindPromotionTarget(c, st.prior, p.value.pcrs, p.value.imageDigest);
    if target.None? { return Against(standing, false); }
    if p.value.bootedAt < target.value.validFrom - CLOCK_SKEW_TOLERANCE { return Refused(UpgradeNotYetActive); }
    if p.value.bootedAt > target.value.validUntil + CLOCK_SKEW_TOLERANCE { return Refused(UpgradeExpired); }
    var attested := LinkAttestation(c, link, input.e.debug);
    if attested.Some? && attested.value != target.value.to { return Refused(PromotionIdentityMismatch); }
    return Against(Version(ImagePcrsHex(target.value.to), target.value.imageDigest), true);
  }

  method ValidateChain(c: Crypto, links: seq<RecordedLink>, input: WalkInput) returns (walk: ChainWalkResult)
    ensures walk == Finish(input, Walk(c, input, links, |links|))
  {
    var outcomes: seq<Result<Outcome, ChainError>> := [];
    var prior: seq<ChainLink> := [];
    var inForce: Option<Version> := None;
    var inForceIdentity: Option<PinIdentity> := None;

    for i := 0 to |links|
      invariant WalkState(outcomes, prior, inForce, inForceIdentity) == Walk(c, input, links, i)
    {
      var st := WalkState(outcomes, prior, inForce, inForceIdentity);
      assert Walk(c, input, links, i + 1) == WalkStep(c, input, st, links[i]);
      var link := links[i].link;
      var reference := if links[i].recordedAt.Some? then links[i].recordedAt.value else input.now;

      if !link.kind.Boot? && SignedPayloadSeen(link, prior) {
        outcomes, prior := outcomes + [Err(DuplicatePayload(link.kind))], prior + [link];
        continue;
      }
      var ctx := ReconstructContext(c, input, st, link);
      if ctx.Refused? {
        outcomes, prior := outcomes + [Err(ctx.error)], prior + [link];
        continue;
      }
      var outcome := ValidateChainLink(c, input.e, ctx.v, prior, link, reference);
      if ctx.promotes && outcome.Ok? && outcome.value.Append? {
        inForce, inForceIdentity := Some(ctx.v), LinkAttestation(c, link, input.e.debug);
      }
      outcomes, prior := outcomes + [outcome], prior + [link];
    }
    walk := Finish(input, WalkState(outcomes, prior, inForce, inForceIdentity));
  }
}
