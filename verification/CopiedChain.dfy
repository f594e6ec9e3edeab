/** Version 0 records an upgrade to version 1 that keeps the image digest, and version 1 boots. The boot is taken for a
    copy and never put in force: the descent check accepts a pin of version 1 and returns version 0. */
module CopiedChain {
  import opened Wrappers
  import opened ChainTypes
  import opened LinkValidation
  import opened LinkAcceptance
  import opened ChainWalk
  import opened WalkSoundness
  import opened PcrDescent
  import opened LinearDescent
  import opened DescentPromise
  import opened ChainWorld

  const BOOT_0 := Link(0, false, 0, 0, 0)
  const UPGRADE := Link(1, true, 1, 0, 0)
  const BOOT_1 := Link(2, false, 1, 0, 1)

  function Chain(): (r: seq<RecordedLink>)
    ensures |r| == 3 && IsLink(r, 0, BOOT_0) && IsLink(r, 1, UPGRADE) && IsLink(r, 2, BOOT_1)
  {
    [RecordedLink(BOOT_0, Some(0)), RecordedLink(UPGRADE, Some(0)), RecordedLink(BOOT_1, Some(0))]
  }

  lemma PriorIs()
    ensures Walk(WORLD, INPUT, Chain(), 1).prior == [BOOT_0]
    ensures Walk(WORLD, INPUT, Chain(), 2).prior == [BOOT_0, UPGRADE]
  {
    hide OutcomeOf, Advances, Rebuild;
    var one, two := Walk(WORLD, INPUT, Chain(), 1).prior, Walk(WORLD, INPUT, Chain(), 2).prior;
    assert one[0] == BOOT_0 && two[0] == BOOT_0 && two[1] == UPGRADE;
  }

  lemma Explained()
    ensures LastExplaining(WORLD, [BOOT_0, UPGRADE], 2, VersionOf(1, 0)) == 1
  {
    hide Explains, LastExplaining, ImagePcrsHex, Codec.DecodeCanonical;
    UpgradeExplains([BOOT_0, UPGRADE], 1, 1, 1, 0, VersionOf(1, 0));
    LastIs([BOOT_0, UPGRADE], 1, VersionOf(1, 0));
  }

  /** The last boot repeats the digest of the first. */
  lemma BootIsCopy()
    ensures ValidateChainLink(WORLD, ENCLAVE, VersionOf(1, 0), [BOOT_0, UPGRADE], BOOT_1, 0) == Ok(Dedup)
    ensures RepeatsDigest(WORLD, Chain(), [BOOT_0, UPGRADE], 2)
  {
    hide ImagePcrsHex, ValidateChainLink, PlainBoot, Codec.DecodeCanonical;
    BootIsPlain(2, 1, 0);
    Decodes(BOOT_0.payload);
    Decodes(BOOT_1.payload);
    assert LatestBoot(WORLD, [BOOT_0, UPGRADE], 0, BootIn(BOOT_0.payload));
    BootDedupIff(WORLD, ENCLAVE, VersionOf(1, 0), [BOOT_0, UPGRADE], BOOT_1, 0);
  }

  lemma ChainAccepted()
    ensures AllAccepted(WORLD, INPUT, Chain(), 3)
    ensures AdvancesAt(WORLD, INPUT, Chain(), 0) && !AdvancesAt(WORLD, INPUT, Chain(), 1)
    ensures !AdvancesAt(WORLD, INPUT, Chain(), 2)
    ensures InForceAt(WORLD, INPUT, Chain(), 2) == InForceAt(WORLD, INPUT, Chain(), 3) == Some(VersionOf(0, 0))
  {
    hide Accepted, AdvancesAt, Walk, ValidateChainLink, ImagePcrsHex, LastExplaining;
    PriorIs();
    Genesis(Chain());
    Recorded(Chain(), 1, 1, 1, 0);
    Explained();
    BootIsCopy();
    Distinct(0, 1);
    Promoted(Chain(), 2, 1, 1, 2, 1, 0, VersionOf(0, 0), Dedup);
    assert AllAccepted(WORLD, INPUT, Chain(), 1);
    assert AllAccepted(WORLD, INPUT, Chain(), 2);
  }

  /** The pin of version 1 is accepted and version 0 returned, its ancestor, though every upgrade was current. */
  lemma TipMayPrecedePin()
    ensures AllAccepted(WORLD, INPUT, Chain(), |Chain()|)
    ensures PinnedAt(WORLD, Chain(), 2, Identity(1).image)
    ensures InForcePcrs(WORLD, INPUT, Chain(), |Chain()|) == Some(Identity(0).image)
    ensures Tip(WORLD, INPUT, Chain()) == 0 && UpgradesAreCurrent(WORLD, INPUT, Chain(), 0)
    ensures ForeignCopy(WORLD, INPUT, Chain(), 2) && !Upstream(WORLD, INPUT, Chain(), 2)
  {
    hide Accepted, AdvancesAt, AllAccepted, Lineage, ImagePcrsHex, Codec.DecodeCanonical, RepeatsDigest, Walk;
    ChainAccepted();
    PriorIs();
    BootIsCopy();
    Decodes(BOOT_1.payload);
    Distinct(0, 1);
    assert LastAdvance(WORLD, INPUT, Chain(), 1) == 0;
    assert LastAdvance(WORLD, INPUT, Chain(), 2) == 0;
    assert Foreign(WORLD, INPUT, Chain(), 2);
  }
}
