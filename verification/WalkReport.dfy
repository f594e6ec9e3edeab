/** What the walk reports, link by link and at the end, whether or not the chain is accepted. */
module WalkReport {
  import opened Wrappers
  import opened ChainTypes
  import opened LinkValidation
  import opened ChainWalk
  import opened WalkSoundness
  import opened PcrDescent
  import opened Refusals

  // ----- The promotion target -----

  /** Link `j` is the first upgrade with its payload, names `v`, and no decodable revocation of the chain names it. */
  ghost predicate Answers(c: Crypto, prior: seq<ChainLink>, j: nat, v: Version, up: UpgradePayload)
    requires j < |prior|
  {
    && prior[j].kind.Upgrade? && c.upgrade.DecodeCanonical(prior[j].payload) == Some(up)
    && v == Version(ImagePcrsHex(up.to), up.imageDigest)
    && (forall i :: 0 <= i < j && prior[i].kind.Upgrade? ==> prior[i].payload != prior[j].payload)
    && (forall k :: 0 <= k < |prior| && prior[j].id.Some? ==> !Names(c, prior[k], prior[j].id.value))
  }

  lemma AnswersIff(c: Crypto, prior: seq<ChainLink>, j: nat, v: Version)
    requires j < |prior|
    ensures Explains(c, prior, j, v) <==>
            c.upgrade.DecodeCanonical(prior[j].payload).Some? &&
            Answers(c, prior, j, v, c.upgrade.DecodeCanonical(prior[j].payload).value)
  {
    hide ImagePcrsHex, Codec.DecodeCanonical;
    var front := prior[..j];
    assert forall i :: 0 <= i < j ==> front[i] == prior[i];
    assert Revoked(c, prior, prior[j].id) <==>
           prior[j].id.Some? && exists k :: 0 <= k < |prior| && Names(c, prior[k], prior[j].id.value);
  }

  ghost predicate NoneAfter(c: Crypto, prior: seq<ChainLink>, j: nat, v: Version) {
    forall k, up :: j < k < |prior| ==> !Answers(c, prior, k, v, up)
  }

  /** The target is the payload of the last link that answers for the version, and there is one whenever some link
      does. */
  lemma TargetIff(c: Crypto, prior: seq<ChainLink>, v: Version)
    ensures match PromotionTarget(c, prior, v)
            case Some(up) => exists j: nat :: j < |prior| && Answers(c, prior, j, v, up) && NoneAfter(c, prior, j, v)
            case None => forall k, u :: 0 <= k < |prior| ==> !Answers(c, prior, k, v, u)
  {
    hide Explains, Answers, LastExplaining, Codec.DecodeCanonical;
    forall k: nat, u | k < |prior| && Answers(c, prior, k, v, u) ensures Explains(c, prior, k, v) {
      AnswersIff(c, prior, k, v);
      AnswersDecodes(c, prior, k, v, u);
    }
    var j := LastExplaining(c, prior, |prior|, v);
    if j >= 0 { AnswersIff(c, prior, j, v); }
  }

  lemma AnswersDecodes(c: Crypto, prior: seq<ChainLink>, j: nat, v: Version, up: UpgradePayload)
    requires j < |prior| && Answers(c, prior, j, v, up)
    ensures c.upgrade.DecodeCanonical(prior[j].payload) == Some(up)
  {
  }

  // ----- Each outcome -----

  /** A link without a record time is judged at the caller's instant. */
  lemma UnrecordedIsNow(c: Crypto, input: WalkInput, st: WalkState, rec: RecordedLink)
    requires rec.recordedAt.None?
    ensures OutcomeOf(c, input, st, rec) == OutcomeOf(c, input, st, rec.(recordedAt := Some(input.now)))
  {
  }

  /** While nothing is in force, links after the first are judged against the caller's row: a replay is refused, and
      every other link has the validator's own verdict. */
  lemma RowStandsIn(c: Crypto, input: WalkInput, st: WalkState, rec: RecordedLink, at: Time)
    requires st.inForce.None? && st.prior != [] && rec.recordedAt == Some(at)
    ensures OutcomeOf(c, input, st, rec) ==
            if !rec.link.kind.Boot? && SignedPayloadSeen(rec.link, st.prior) then Err(DuplicatePayload(rec.link.kind))
            else ValidateChainLink(c, input.e, input.row, st.prior, rec.link, at)
  {
    hide ValidateChainLink, SignedPayloadSeen;
  }

  /** With a version in force, a signed link and a boot of the same PCR0-2 are judged against that version. */
  lemma InForceStands(c: Crypto, input: WalkInput, st: WalkState, rec: RecordedLink, at: Time)
    requires st.inForce.Some? && st.prior != [] && rec.recordedAt == Some(at)
    requires if rec.link.kind.Boot?
             then var p := c.boot.DecodeCanonical(rec.link.payload); p.Some? ==> p.value.pcrs == st.inForce.value.pcrs
             else !SignedPayloadSeen(rec.link, st.prior)
    ensures OutcomeOf(c, input, st, rec) ==
            ValidateChainLink(c, input.e, st.inForce.value, st.prior, rec.link, at)
  {
    hide ValidateChainLink, SignedPayloadSeen;
  }

  /** What a link the walker refuses has against it. */
  ghost predicate WalkFault(c: Crypto, input: WalkInput, st: WalkState, rec: RecordedLink, error: ChainError) {
    var link, p := rec.link, c.boot.DecodeCanonical(rec.link.payload);
    match error
    case DuplicatePayload(kind) => kind == link.kind && !kind.Boot? && SignedPayloadSeen(link, st.prior)
    case UpgradeNotYetActive => p.Some? &&
      exists j: nat, up :: j < |st.prior| && Answers(c, st.prior, j, Version(p.value.pcrs, p.value.imageDigest), up) &&
                           p.value.bootedAt < up.validFrom - 60 * SECOND
    case UpgradeExpired => p.Some? &&
      exists j: nat, up :: j < |st.prior| && Answers(c, st.prior, j, Version(p.value.pcrs, p.value.imageDigest), up) &&
                           p.value.bootedAt > up.validUntil + 60 * SECOND
    case PromotionIdentityMismatch => p.Some? &&
      exists j: nat, up :: j < |st.prior| && Answers(c, st.prior, j, Version(p.value.pcrs, p.value.imageDigest), up) &&
                           !Vouches(c, input.e.debug, link, up.to)
    case _ =>
      var reference := if rec.recordedAt.Some? then rec.recordedAt.value else input.now;
      var ctx := Rebuild(c, input, st, link);
      ctx.Against? && Fault(c, input.e, ctx.v, st.prior, link, reference, error)
  }

  lemma WalkRefusalIsTrue(c: Crypto, input: WalkInput, st: WalkState, rec: RecordedLink)
    requires OutcomeOf(c, input, st, rec).Err?
    ensures WalkFault(c, input, st, rec, OutcomeOf(c, input, st, rec).error)
  {
    hide ValidateChainLink, SignedPayloadSeen, Fault, Answers, PromotionTarget, Codec.DecodeCanonical;
    var ctx := Rebuild(c, input, st, rec.link);
    var reference := if rec.recordedAt.Some? then rec.recordedAt.value else input.now;
    var p := c.boot.DecodeCanonical(rec.link.payload);
    if ctx.Refused? {
      if p.Some? { TargetIff(c, st.prior, Version(p.value.pcrs, p.value.imageDigest)); }
    } else {
      RefusalIsTrue(c, input.e, ctx.v, st.prior, rec.link, reference);
      ValidatorErrors(c, input.e, ctx.v, st.prior, rec.link, reference);
    }
  }

  /** The walker's own errors are not the validator's. */
  lemma ValidatorErrors(c: Crypto, e: Enclave, v: Version, prior: seq<ChainLink>, link: ChainLink, now: Time)
    requires ValidateChainLink(c, e, v, prior, link, now).Err?
    ensures var error := ValidateChainLink(c, e, v, prior, link, now).error;
            && !error.DuplicatePayload? && !error.UpgradeNotYetActive? && !error.UpgradeExpired?
            && !error.PromotionIdentityMismatch?
  {
    hide ValidateChainLink, ToPcrs, TargetFault;
    RefusalIsTrue(c, e, v, prior, link, now);
    var error := ValidateChainLink(c, e, v, prior, link, now).error;
    if error.DuplicatePayload? || error.UpgradeNotYetActive? || error.UpgradeExpired? ||
       error.PromotionIdentityMismatch? {
      WalkErrorIsNoTargetFault(c, prior, link, now, error);
    }
  }

  lemma WalkErrorIsNoTargetFault(c: Crypto, prior: seq<ChainLink>, link: ChainLink, now: Time, error: ChainError)
    requires error.DuplicatePayload? || error.UpgradeNotYetActive? || error.UpgradeExpired?
          || error.PromotionIdentityMismatch?
    ensures forall p :: !TargetFault(c, prior, p, now, error)
  {
  }

  // ----- The summary -----

  /** The final version, identity and agreement with the row are those of the last boot put in force: the PCR0-2 and
      digest its payload states and the identity its document attests. Before any, there is none. */
  lemma SummaryMeans(c: Crypto, input: WalkInput, links: seq<RecordedLink>)
    ensures var report, k := Finish(input, Walk(c, input, links, |links|)), LastAdvance(c, input, links, |links|);
            if k < 0 then
              && report.finalPcrs.None? && report.finalImageDigest.None? && report.finalIdentity.None?
              && !report.tipMatchesRow
            else
              var p := c.boot.DecodeCanonical(links[k].link.payload);
              && p.Some? && report.finalPcrs == Some(p.value.pcrs)
              && report.finalImageDigest == Some(p.value.imageDigest)
              && report.finalIdentity.Some?
              && Vouches(c, input.e.debug, links[k].link, report.finalIdentity.value)
              && (report.tipMatchesRow <==> input.row == Version(p.value.pcrs, p.value.imageDigest))
  {
    hide AdvancesAt, LastAdvance, Codec.DecodeCanonical, ToPcrs, Walk;
    var k := LastAdvance(c, input, links, |links|);
    InForceSince(c, input, links, |links|);
    IdentitySince(c, input, links, |links|);
    if k >= 0 { AdvanceMeans(c, input, links, k); }
  }

  lemma {:induction false} IdentitySince(c: Crypto, input: WalkInput, links: seq<RecordedLink>, n: nat)
    requires n <= |links|
    ensures var s := LastAdvance(c, input, links, n);
            && (s < 0 ==> Walk(c, input, links, n).identity.None?)
            && (s >= 0 ==> Walk(c, input, links, n).identity == LinkAttestation(c, links[s].link, input.e.debug))
  {
    hide OutcomeOf, Advances, Rebuild, LinkAttestation;
    if n == 0 {
    } else if !AdvancesAt(c, input, links, n - 1) {
      IdentitySince(c, input, links, n - 1);
    }
  }

  /** The PCR0-2 in force at the end are those the last boot put in force attests. */
  lemma TipIsAttested(c: Crypto, input: WalkInput, links: seq<RecordedLink>)
    ensures var k := LastAdvance(c, input, links, |links|);
            if k < 0 then InForcePcrs(c, input, links, |links|).None?
            else exists identity :: Vouches(c, input.e.debug, links[k].link, identity) &&
                                    InForcePcrs(c, input, links, |links|) == Some(identity.image)
  {
    hide Walk, LastAdvance, ToPcrs;
    SummaryMeans(c, input, links);
    IdentityAgrees(c, input, links, |links|);
  }
}
