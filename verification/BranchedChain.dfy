/** Two upgrades are recorded by version 0, then both targets boot in turn. The descent check accepts a pin of the first
    target and returns the second, whose lineage skips it. */
module BranchedChain {
  import opened Wrappers
  import opened ChainTypes
  import opened LinkValidation
  import opened LinkAcceptance
  import opened ChainWalk
  import opened WalkSoundness
  import opened PcrDescent
  import opened LinearDescent
  import opened DescentPromise
  import opened ChainWorld

  /** Boot of 0, upgrades of 0 to 1 and to 2, boots of 1 and of 2. */
  function LinkAt(i: byte): ChainLink {
    if i == 1 || i == 2 then Link(i, true, i, i, 0)
    else if i == 0 then Link(0, false, 0, 0, 0)
    else Link(i, false, Booted(i), Booted(i), Booted(i))
  }

  /** The version that boots at 3 and at 4. */
  function Booted(i: byte): byte {
    if i == 3 then 1 else 2
  }

  function Chain(): (r: seq<RecordedLink>)
    ensures |r| == 5 && forall i :: 0 <= i < 5 ==> r[i] == RecordedLink(LinkAt(i), Some(0))
  {
    seq(5, i requires 0 <= i < 5 => RecordedLink(LinkAt(i), Some(0)))
  }

  function Prior(n: nat): (r: seq<ChainLink>)
    requires n <= 5
    ensures |r| == n && forall i :: 0 <= i < n ==> r[i] == LinkAt(i)
  {
    seq(n, i requires 0 <= i < n => LinkAt(i))
  }

  lemma PriorIs(n: nat)
    requires n <= 5
    ensures Walk(WORLD, INPUT, Chain(), n).prior == Prior(n)
  {
    hide OutcomeOf, Advances, Rebuild;
    var prior := Walk(WORLD, INPUT, Chain(), n).prior;
  }

  ghost predicate After(n: nat, v: byte)
    requires n <= 5
  {
    InForceAt(WORLD, INPUT, Chain(), n) == Some(VersionOf(v, v))
  }

  lemma GenesisStep()
    ensures Accepted(WORLD, INPUT, Chain(), 0) && AdvancesAt(WORLD, INPUT, Chain(), 0) && After(1, 0)
  {
    hide Accepted, AdvancesAt;
    Genesis(Chain());
  }

  lemma UpgradeStep(n: nat)
    requires 1 <= n <= 2 && After(n, 0)
    ensures Accepted(WORLD, INPUT, Chain(), n) && !AdvancesAt(WORLD, INPUT, Chain(), n) && After(n + 1, 0)
  {
    hide Accepted, AdvancesAt, Walk;
    PriorIs(n);
    var prior := Prior(n);
    assert forall i :: 0 <= i < n ==> prior[i].payload[2] == i;
    Recorded(Chain(), n, n, n, n);
  }

  /** Link `j` is the upgrade whose target boots at `n`. */
  lemma Explained(n: nat, j: nat)
    requires 3 <= n <= 4 && j == n - 2
    ensures LastExplaining(WORLD, Prior(n), n, VersionOf(j, j)) == j
  {
    hide Explains, LastExplaining, ImagePcrsHex;
    var prior := Prior(n);
    ExplainsOnly(n, 1, VersionOf(j, j));
    ExplainsOnly(n, 2, VersionOf(j, j));
    assert Digest(1)[0] != Digest(2)[0];
    OnlyUpgradesExplain(prior, VersionOf(j, j));
    LastIs(prior, j, VersionOf(j, j));
  }

  lemma ExplainsOnly(n: nat, j: nat, v: Version)
    requires 1 <= j <= 2 < n <= 4
    ensures Explains(WORLD, Prior(n), j, v) <==> v == VersionOf(j, j)
  {
    hide Explains;
    var prior := Prior(n);
    assert forall i :: 0 <= i < j ==> prior[..j][i].payload[2] == i;
    UpgradeExplains(prior, j, j, j, j, v);
  }

  lemma OnlyUpgradesExplain(prior: seq<ChainLink>, v: Version)
    ensures forall k :: 0 <= k < |prior| && !prior[k].kind.Upgrade? ==> !Explains(WORLD, prior, k, v)
  {
  }

  lemma BootAppends(n: nat)
    requires 3 <= n <= 4
    ensures var v := Booted(n);
            ValidateChainLink(WORLD, ENCLAVE, VersionOf(v, v), Prior(n), LinkAt(n), 0) == Ok(Append(n))
  {
    hide ImagePcrsHex, ValidateChainLink, PlainBoot, Codec.DecodeCanonical;
    var v, prior, link := Booted(n), Prior(n), LinkAt(n);
    var b: nat := if n == 3 then 0 else 3;
    BootIsPlain(n, v, v);
    Decodes(prior[b].payload);
    Decodes(link.payload);
    var prev := BootIn(prior[b].payload);
    assert LatestBoot(WORLD, prior, b, prev);
    assert prev.imageDigest[0] != BootIn(link.payload).imageDigest[0];
    assert BootFollows(WORLD, ENCLAVE, prior, BootIn(link.payload));
    BootAppendIff(WORLD, ENCLAVE, VersionOf(v, v), prior, link, 0);
  }

  lemma PromotionStep(n: nat, before: byte)
    requires (n == 3 && before == 0) || (n == 4 && before == 1)
    requires After(n, before)
    ensures Accepted(WORLD, INPUT, Chain(), n) && AdvancesAt(WORLD, INPUT, Chain(), n) && After(n + 1, Booted(n))
  {
    hide ValidateChainLink, Accepted, AdvancesAt, Walk, LastExplaining, ImagePcrsHex;
    var v := Booted(n);
    PriorIs(n);
    Explained(n, n - 2);
    BootAppends(n);
    Distinct(before, v);
    Promoted(Chain(), n, n - 2, v, n, v, v, VersionOf(before, before), Append(n));
  }

  /** The whole chain is accepted, version 1 was in force at position 3, and the tip is version 2. */
  lemma ChainAccepted()
    ensures AllAccepted(WORLD, INPUT, Chain(), 5)
    ensures AdvancesAt(WORLD, INPUT, Chain(), 3) && AdvancesAt(WORLD, INPUT, Chain(), 4)
    ensures AdvancesAt(WORLD, INPUT, Chain(), 0) && !AdvancesAt(WORLD, INPUT, Chain(), 1)
    ensures After(5, 2)
  {
    hide Accepted, AdvancesAt, After;
    GenesisStep();
    UpgradeStep(1);
    UpgradeStep(2);
    PromotionStep(3, 0);
    PromotionStep(4, 1);
    assert AllAccepted(WORLD, INPUT, Chain(), 1);
    assert AllAccepted(WORLD, INPUT, Chain(), 2);
    assert AllAccepted(WORLD, INPUT, Chain(), 3);
    assert AllAccepted(WORLD, INPUT, Chain(), 4);
  }

  lemma TipLineage()
    requires After(5, 2) && AdvancesAt(WORLD, INPUT, Chain(), 0) && !AdvancesAt(WORLD, INPUT, Chain(), 1)
    ensures Explanation(WORLD, INPUT, Chain(), 4) == 2
    ensures Lineage(WORLD, INPUT, Chain(), 4) == [0, 4]
  {
    hide AdvancesAt, LastExplaining, Walk, PromotionTarget, ImagePcrsHex;
    Explained(4, 2);
    PriorIs(4);
    PriorIs(0);
    assert Explanation(WORLD, INPUT, Chain(), 4) == 2;
    assert LastAdvance(WORLD, INPUT, Chain(), 1) == 0;
    assert LastAdvance(WORLD, INPUT, Chain(), 2) == 0;
    assert Parent(WORLD, INPUT, Chain(), 0) == -1;
    assert Lineage(WORLD, INPUT, Chain(), 0) == [0];
  }

  /** The descent check accepts the pin of version 1 and returns version 2, and the pinned boot is not upstream. */
  lemma TipNeedNotDescendFromPin()
    ensures AllAccepted(WORLD, INPUT, Chain(), |Chain()|)
    ensures PinnedAt(WORLD, Chain(), 3, Identity(1).image)
    ensures InForcePcrs(WORLD, INPUT, Chain(), |Chain()|) == Some(Identity(2).image)
    ensures Tip(WORLD, INPUT, Chain()) == 4 && Lineage(WORLD, INPUT, Chain(), 4) == [0, 4]
    ensures !Upstream(WORLD, INPUT, Chain(), 3) && !UpgradesAreCurrent(WORLD, INPUT, Chain(), 4)
  {
    hide Accepted, AdvancesAt, AllAccepted, Lineage, Explanation, ImagePcrsHex, Codec.DecodeCanonical, Walk, Foreign;
    ChainAccepted();
    Decodes(LinkAt(3).payload);
    TipLineage();
    assert Setter(WORLD, INPUT, Chain(), 3) == 3;
    assert !UpgradesAreCurrent(WORLD, INPUT, Chain(), 4) by { assert 3 < 4; }
  }
}
