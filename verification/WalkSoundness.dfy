/** Every version a fully accepted walk puts in force is justified by a signed, unrevoked upgrade. */
module WalkSoundness {
  import opened Wrappers
  import opened ChainTypes
  import opened LinkValidation
  import opened ChainWalk

  ghost predicate Accepted(c: Crypto, input: WalkInput, links: seq<RecordedLink>, i: nat)
    requires i < |links|
  {
    OutcomeOf(c, input, Walk(c, input, links, i), links[i]).Ok?
  }

  /** Every one of the first `n` links was accepted. */
  ghost predicate AllAccepted(c: Crypto, input: WalkInput, links: seq<RecordedLink>, n: nat)
    requires n <= |links|
  {
    n == 0 || (AllAccepted(c, input, links, n - 1) && Accepted(c, input, links, n - 1))
  }

  lemma {:induction false} AcceptedPrefix(c: Crypto, input: WalkInput, links: seq<RecordedLink>, n: nat, m: nat)
    requires m <= n <= |links| && AllAccepted(c, input, links, n)
    ensures AllAccepted(c, input, links, m)
  {
    hide Accepted;
    if m == n {
    } else {
      AcceptedPrefix(c, input, links, n - 1, m);
    }
  }

  ghost function InForceAt(c: Crypto, input: WalkInput, links: seq<RecordedLink>, n: nat): Option<Version>
    requires n <= |links|
  {
    Walk(c, input, links, n).inForce
  }

  ghost predicate AdvancesAt(c: Crypto, input: WalkInput, links: seq<RecordedLink>, k: nat)
    requires k < |links|
  {
    Advances(c, input, Walk(c, input, links, k), links[k])
  }

  lemma {:induction false} OutcomeAt(c: Crypto, input: WalkInput, links: seq<RecordedLink>, n: nat, i: nat)
    requires i < n <= |links|
    ensures Walk(c, input, links, n).outcomes[i] == OutcomeOf(c, input, Walk(c, input, links, i), links[i])
  {
    hide OutcomeOf, Advances, Rebuild;
    var st, last := Walk(c, input, links, n - 1), OutcomeOf(c, input, Walk(c, input, links, n - 1), links[n - 1]);
    assert Walk(c, input, links, n).outcomes == st.outcomes + [last];
    if i < n - 1 { OutcomeAt(c, input, links, n - 1, i); }
  }

  /** The reported outcomes are all Ok exactly when every position was accepted. */
  lemma {:induction false} OutcomesAllOk(c: Crypto, input: WalkInput, links: seq<RecordedLink>, n: nat)
    requires n <= |links|
    ensures AllAccepted(c, input, links, n) <==> AllOk(Walk(c, input, links, n).outcomes)
  {
    hide OutcomeOf, Advances, Rebuild;
    if n == 0 {
    } else {
      var st, last := Walk(c, input, links, n - 1), OutcomeOf(c, input, Walk(c, input, links, n - 1), links[n - 1]);
      assert Walk(c, input, links, n).outcomes == st.outcomes + [last];
      AllOkSnoc(st.outcomes, last);
      OutcomesAllOk(c, input, links, n - 1);
    }
  }

  predicate AllOk(outcomes: seq<Result<Outcome, ChainError>>) {
    forall i :: 0 <= i < |outcomes| ==> outcomes[i].Ok?
  }

  lemma AllOkSnoc(outcomes: seq<Result<Outcome, ChainError>>, last: Result<Outcome, ChainError>)
    ensures AllOk(outcomes + [last]) <==> AllOk(outcomes) && last.Ok?
  {
    assert (outcomes + [last])[..|outcomes|] == outcomes;
    assert forall i :: 0 <= i < |outcomes| ==> (outcomes + [last])[i] == outcomes[i];
    assert (outcomes + [last])[|outcomes|] == last;
  }

  /** A version in force was set by an appended boot that states it, attested as exactly its PCRs. */
  lemma AdvanceMeans(c: Crypto, input: WalkInput, links: seq<RecordedLink>, k: nat)
    requires k < |links| && AdvancesAt(c, input, links, k)
    ensures var next := Walk(c, input, links, k + 1);
            && next.inForce.Some? && next.identity == LinkAttestation(c, links[k].link, input.e.debug)
            && AttestedAs(c, input.e, next.inForce.value, links[k].link)
            && BootOf(c, input.e, next.inForce.value, links[k].link)
            && Accepted(c, input, links, k)
  {
    var st := Walk(c, input, links, k);
    var ctx := Rebuild(c, input, st, links[k].link);
    var reference := if links[k].recordedAt.Some? then links[k].recordedAt.value else input.now;
    AcceptedBoot(c, input.e, ctx.v, st.prior, links[k].link, reference);
  }

  /** After any walk an identity is in force exactly when a version is, and its image PCRs are that version's. */
  lemma {:induction false} IdentityAgrees(c: Crypto, input: WalkInput, links: seq<RecordedLink>, n: nat)
    requires n <= |links|
    ensures var st := Walk(c, input, links, n);
            && (st.identity.Some? <==> st.inForce.Some?)
            && (st.inForce.Some? ==> ToPcrs(st.inForce.value.pcrs) == Ok(st.identity.value.image))
  {
    if n == 0 {
    } else {
      IdentityAgrees(c, input, links, n - 1);
      if AdvancesAt(c, input, links, n - 1) { AdvanceMeans(c, input, links, n - 1); }
    }
  }

  /** A fully accepted chain starts with a boot, which stays the anchor of the version in force. */
  lemma {:induction false} GenesisAnchors(c: Crypto, input: WalkInput, links: seq<RecordedLink>, n: nat)
    requires 0 < n <= |links| && AllAccepted(c, input, links, n)
    ensures links[0].link.kind.Boot? && AdvancesAt(c, input, links, 0)
    ensures InForceAt(c, input, links, n).Some?
  {
    if n == 1 {
      assert Accepted(c, input, links, 0);
      var link := links[0].link;
      assert Walk(c, input, links, 0) == START;
      var ctx := Rebuild(c, input, START, link);
      var reference := if links[0].recordedAt.Some? then links[0].recordedAt.value else input.now;
      if link.kind.Boot? {
        AcceptedBoot(c, input.e, ctx.v, [], link, reference);
      } else {
        SignedNeedsGenesis(c, input.e, ctx.v, link, reference);
      }
      AdvanceMeans(c, input, links, 0);
    } else {
      GenesisAnchors(c, input, links, n - 1);
    }
  }

  /** Upgrade `j` justifies the boot at `k`: signed in its own domain, attested by the version in force
      where it stands, naming exactly the booted version and identity, unrevoked at `k`, and open when
      the boot happened. */
  ghost predicate Justifies(c: Crypto, input: WalkInput, links: seq<RecordedLink>, j: nat, k: nat)
    requires j < k < |links|
  {
    var up, boot := c.upgrade.DecodeCanonical(links[j].link.payload), c.boot.DecodeCanonical(links[k].link.payload);
    var at := InForceAt(c, input, links, j);
    && SignedInDomain(c, input.e, links[j].link) && UpgradeOf(c, input.e, links[j].link)
    && at.Some? && ToPcrs(at.value.pcrs) == Ok(up.value.from.image)
    && boot.Some?
    && ImagePcrsHex(up.value.to) == boot.value.pcrs && up.value.imageDigest == boot.value.imageDigest
    && Vouches(c, input.e.debug, links[k].link, up.value.to)
    && !Revoked(c, Walk(c, input, links, k).prior, links[j].link.id)
    && up.value.validFrom - 60 * SECOND <= boot.value.bootedAt <= up.value.validUntil + 60 * SECOND
  }

  /** An accepted upgrade at `j` was attested by the version then in force and signed in its domain. */
  lemma UpgradeAttestedInForce(c: Crypto, input: WalkInput, links: seq<RecordedLink>, j: nat)
    requires j < |links| && AllAccepted(c, input, links, j + 1) && links[j].link.kind.Upgrade?
    ensures j > 0 && InForceAt(c, input, links, j).Some?
    ensures SignedInDomain(c, input.e, links[j].link) && UpgradeOf(c, input.e, links[j].link)
    ensures AttestedAs(c, input.e, InForceAt(c, input, links, j).value, links[j].link)
  {
    GenesisAnchors(c, input, links, j + 1);
    GenesisAnchors(c, input, links, j);
    assert Accepted(c, input, links, j);
    var st := Walk(c, input, links, j);
    var reference := if links[j].recordedAt.Some? then links[j].recordedAt.value else input.now;
    AcceptedUpgrade(c, input.e, Standing(input, st), st.prior, links[j].link, reference);
  }

  /** What an accepted boot of PCR0-2 other than those in force went through: the most recent upgrade to exactly its
      version, unrevoked, open at the boot time, and naming the attested identity. */
  ghost predicate PromotedBy(c: Crypto, input: WalkInput, prior: seq<ChainLink>, link: ChainLink, j: nat)
    requires j < |prior|
  {
    var up, boot := c.upgrade.DecodeCanonical(prior[j].payload), c.boot.DecodeCanonical(link.payload);
    && prior[j].kind.Upgrade? && up.Some? && boot.Some?
    && j == LastExplaining(c, prior, |prior|, Version(boot.value.pcrs, boot.value.imageDigest))
    && ImagePcrsHex(up.value.to) == boot.value.pcrs && up.value.imageDigest == boot.value.imageDigest
    && !Revoked(c, prior, prior[j].id) && Vouches(c, input.e.debug, link, up.value.to)
    && up.value.validFrom - 60 * SECOND <= boot.value.bootedAt <= up.value.validUntil + 60 * SECOND
  }

  lemma ForeignBootPromoted(c: Crypto, input: WalkInput, st: WalkState, rec: RecordedLink) returns (j: nat)
    requires rec.link.kind.Boot? && st.prior != [] && st.inForce.Some? && OutcomeOf(c, input, st, rec).Ok?
    requires var p := c.boot.DecodeCanonical(rec.link.payload); p.Some? ==> p.value.pcrs != st.inForce.value.pcrs
    ensures j < |st.prior| && PromotedBy(c, input, st.prior, rec.link, j)
  {
    hide ValidateChainLink, LastExplaining, ImagePcrsHex, Codec.DecodeCanonical, SignedPayloadSeen, Revoked, ToPcrs;
    var link := rec.link;
    var ctx := Rebuild(c, input, st, link);
    var reference := if rec.recordedAt.Some? then rec.recordedAt.value else input.now;
    AcceptedBoot(c, input.e, ctx.v, st.prior, link, reference);
    var p := c.boot.DecodeCanonical(link.payload).value;
    var v := Version(p.pcrs, p.imageDigest);
    assert ctx == RebuildPromotion(c, input, st, link, p) && PromotionTarget(c, st.prior, v).Some?;
    j := LastExplaining(c, st.prior, |st.prior|, v);
    assert Explains(c, st.prior, j, v);
  }

  /** The accepted boot at `k` of a version other than the one in force, promoted or deduplicated:
      some earlier upgrade justifies it, and it is the most recent one that matches. */
  lemma BootOfOtherVersion(c: Crypto, input: WalkInput, links: seq<RecordedLink>, k: nat) returns (j: nat)
    requires 0 < k < |links| && AllAccepted(c, input, links, k + 1) && links[k].link.kind.Boot?
    requires var p := c.boot.DecodeCanonical(links[k].link.payload);
             var v := InForceAt(c, input, links, k);
             p.Some? ==> Some(p.value.pcrs) != (if v.Some? then Some(v.value.pcrs) else None)
    ensures 0 < j < k && Justifies(c, input, links, j, k)
    ensures var p := c.boot.DecodeCanonical(links[k].link.payload);
            j == LastExplaining(c, Walk(c, input, links, k).prior, k, Version(p.value.pcrs, p.value.imageDigest))
  {
    hide OutcomeOf, LastExplaining, ImagePcrsHex, Codec.DecodeCanonical, Revoked, ToPcrs, SignedInDomain;
    GenesisAnchors(c, input, links, k);
    assert Accepted(c, input, links, k);
    j := ForeignBootPromoted(c, input, Walk(c, input, links, k), links[k]);
    AcceptedPrefix(c, input, links, k, j + 1);
    UpgradeAttestedInForce(c, input, links, j);
  }

  /** Walk soundness: in a fully accepted walk every change of the version in force after genesis is an
      appended boot that an earlier upgrade justifies. */
  lemma WalkSound(c: Crypto, input: WalkInput, links: seq<RecordedLink>, k: nat)
    requires 0 < k < |links| && AllAccepted(c, input, links, k + 1)
    requires InForceAt(c, input, links, k + 1) != InForceAt(c, input, links, k)
    ensures links[k].link.kind.Boot?
    ensures OutcomeOf(c, input, Walk(c, input, links, k), links[k]) == Ok(Append(k))
    ensures BootOf(c, input.e, InForceAt(c, input, links, k + 1).value, links[k].link)
    ensures exists j: nat :: 0 < j < k && Justifies(c, input, links, j, k)
  {
    assert AdvancesAt(c, input, links, k);
    AdvanceMeans(c, input, links, k);
    GenesisAnchors(c, input, links, k);
    var j := BootOfOtherVersion(c, input, links, k);
  }
}
