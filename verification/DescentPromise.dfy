/** The documented promise of the descent check, that a pin it accepts is upstream of the tip it returns: exactly when
    it holds, first for the boots a pin can match, then for its PCR0-2. A boot is upstream when the position that put
    its version in force is on the tip's lineage; PCR0-2 are upstream when some version on the lineage has them. */
module DescentPromise {
  import opened Wrappers
  import opened ChainTypes
  import opened LinkValidation
  import opened LinkAcceptance
  import opened ChainWalk
  import opened WalkSoundness
  import opened PcrDescent
  import opened LinearDescent

  // ----- One boot -----

  /** The boot at `q` states PCR0-2 other than those in force. */
  ghost predicate Foreign(c: Crypto, input: WalkInput, links: seq<RecordedLink>, q: nat)
    requires q < |links|
  {
    var p, v := c.boot.DecodeCanonical(links[q].link.payload), InForceAt(c, input, links, q);
    links[q].link.kind.Boot? && p.Some? && v.Some? && p.value.pcrs != v.value.pcrs
  }

  /** The boot at `q` states the image digest of the boot before it. */
  ghost predicate RepeatsDigest(c: Crypto, links: seq<RecordedLink>, prior: seq<ChainLink>, q: nat)
    requires q < |links|
  {
    var p := c.boot.DecodeCanonical(links[q].link.payload);
    p.Some? && exists b: nat, prev :: LatestBoot(c, prior, b, prev) && prev.imageDigest == p.value.imageDigest
  }

  /** A boot that changes the PCRs but not the image digest is taken for a copy and never put in force. */
  ghost predicate ForeignCopy(c: Crypto, input: WalkInput, links: seq<RecordedLink>, q: nat)
    requires q < |links|
  {
    Foreign(c, input, links, q) && RepeatsDigest(c, links, Walk(c, input, links, q).prior, q)
  }

  /** The position that put the version booted at `q` in force, or -1 if none did. */
  ghost function Setter(c: Crypto, input: WalkInput, links: seq<RecordedLink>, q: nat): (s: int)
    requires q < |links|
    ensures -1 <= s <= q
    ensures s >= 0 ==> AdvancesAt(c, input, links, s)
  {
    if AdvancesAt(c, input, links, q) then q
    else if Foreign(c, input, links, q) then -1
    else LastAdvance(c, input, links, q)
  }

  lemma ForeignIsPromotion(c: Crypto, input: WalkInput, links: seq<RecordedLink>, q: nat)
    requires 0 < q < |links| && AllAccepted(c, input, links, q + 1) && Foreign(c, input, links, q)
    ensures var ctx := Rebuild(c, input, Walk(c, input, links, q), links[q].link); ctx.Against? && ctx.promotes
  {
    hide ValidateChainLink, Justifies, AllAccepted;
    var j := BootOfOtherVersion(c, input, links, q);
    assert Accepted(c, input, links, q) by { LastAccepted(c, input, links, q); }
    var st, link := Walk(c, input, links, q), links[q].link;
    var p := c.boot.DecodeCanonical(link.payload).value;
    assert Rebuild(c, input, st, link) == RebuildPromotion(c, input, st, link, p);
  }

  lemma LastAccepted(c: Crypto, input: WalkInput, links: seq<RecordedLink>, q: nat)
    requires q < |links| && AllAccepted(c, input, links, q + 1)
    ensures Accepted(c, input, links, q)
  {
  }

  /** An accepted boot of other PCRs is put in force unless it repeats the digest. */
  lemma ForeignAdvances(c: Crypto, input: WalkInput, links: seq<RecordedLink>, q: nat)
    requires 0 < q < |links| && AllAccepted(c, input, links, q + 1) && Foreign(c, input, links, q)
    ensures AdvancesAt(c, input, links, q) <==> !ForeignCopy(c, input, links, q)
  {
    hide ValidateChainLink, Rebuild, AllAccepted, LatestBoot, PlainBoot;
    ForeignIsPromotion(c, input, links, q);
    LastAccepted(c, input, links, q);
    var st, link := Walk(c, input, links, q), links[q].link;
    var v := Rebuild(c, input, st, link).v;
    var reference := if links[q].recordedAt.Some? then links[q].recordedAt.value else input.now;
    var outcome := ValidateChainLink(c, input.e, v, st.prior, link, reference);
    assert OutcomeOf(c, input, st, links[q]) == outcome && outcome.Ok?;
    AcceptedIsPlain(c, input.e, v, st.prior, link, reference);
    BootDedupIff(c, input.e, v, st.prior, link, reference);
  }

  /** A boot on an accepted chain was put in force by some position unless it is such a copy. */
  lemma SetterIff(c: Crypto, input: WalkInput, links: seq<RecordedLink>, q: nat)
    requires q < |links| && AllAccepted(c, input, links, q + 1) && links[q].link.kind.Boot?
    ensures Setter(c, input, links, q) >= 0 <==> !ForeignCopy(c, input, links, q)
  {
    hide AdvancesAt, AllAccepted, RepeatsDigest;
    GenesisAnchors(c, input, links, q + 1);
    if q == 0 {
      assert InForceAt(c, input, links, 0).None?;
    } else {
      AcceptedPrefix(c, input, links, q + 1, q);
      LastAdvanceIsLast(c, input, links, q, 0);
      if Foreign(c, input, links, q) { ForeignAdvances(c, input, links, q); }
    }
  }

  // ----- One position of the lineage -----

  /** No promotion on the path after `s` rests on an upgrade recorded before `s`. */
  ghost predicate NotPassed(c: Crypto, input: WalkInput, links: seq<RecordedLink>, s: int, path: seq<nat>) {
    forall m :: m in path && s < m < |links| ==> s < Explanation(c, input, links, m)
  }

  /** A version put in force at `s` is on the lineage of the one put in force at `k` exactly when no promotion of that
      lineage reaches back past it. */
  lemma {:induction false} OnLineageIff(c: Crypto, input: WalkInput, links: seq<RecordedLink>, s: nat, k: nat)
    requires s <= k < |links| && AllAccepted(c, input, links, k + 1)
    requires AdvancesAt(c, input, links, k) && AdvancesAt(c, input, links, s)
    ensures s in Lineage(c, input, links, k) <==>
            NotPassed(c, input, links, s, Lineage(c, input, links, k))
    decreases k
  {
    hide AdvancesAt, Explanation, AllAccepted, Parent, Justifies, LastAdvance;
    forall m | m in Lineage(c, input, links, k) ensures m <= k { LineageAdvances(c, input, links, k, m); }
    if s == k {
    } else {
      PromotionExplained(c, input, links, k);
      var parent, j := Parent(c, input, links, k), Explanation(c, input, links, k);
      assert parent == LastAdvance(c, input, links, j) by { ParentIs(c, input, links, k); }
      AcceptedPrefix(c, input, links, k + 1, parent + 1);
      forall m | m in Lineage(c, input, links, parent) ensures m <= parent {
        LineageAdvances(c, input, links, parent, m);
      }
      if s < j { LastAdvanceIsLast(c, input, links, j, s); }
      if s <= parent { OnLineageIff(c, input, links, s, parent); }
    }
  }

  lemma ParentIs(c: Crypto, input: WalkInput, links: seq<RecordedLink>, k: nat)
    requires k < |links| && Explanation(c, input, links, k) >= 0
    ensures Parent(c, input, links, k) == LastAdvance(c, input, links, Explanation(c, input, links, k))
  {
  }

  // ----- The promise -----

  /** The position whose boot put the final version in force. */
  ghost function Tip(c: Crypto, input: WalkInput, links: seq<RecordedLink>): int {
    LastAdvance(c, input, links, |links|)
  }

  /** The boot at `q` is upstream of the tip. */
  ghost predicate Upstream(c: Crypto, input: WalkInput, links: seq<RecordedLink>, q: nat)
    requires q < |links| && Tip(c, input, links) >= 0
  {
    Setter(c, input, links, q) >= 0 && Setter(c, input, links, q) in Lineage(c, input, links, Tip(c, input, links))
  }

  /** Whatever boot the pin matches, it is upstream of the tip. */
  ghost predicate PromiseHolds(c: Crypto, input: WalkInput, links: seq<RecordedLink>)
    requires Tip(c, input, links) >= 0
  {
    forall q: nat :: q < |links| && links[q].link.kind.Boot? ==> Upstream(c, input, links, q)
  }

  ghost predicate NoForeignCopy(c: Crypto, input: WalkInput, links: seq<RecordedLink>) {
    forall q: nat :: q < |links| ==> !ForeignCopy(c, input, links, q)
  }

  lemma TipExists(c: Crypto, input: WalkInput, links: seq<RecordedLink>)
    requires links != [] && AllAccepted(c, input, links, |links|)
    ensures Tip(c, input, links) >= 0 && AllAccepted(c, input, links, Tip(c, input, links) + 1)
    ensures forall q: nat :: q < |links| && AdvancesAt(c, input, links, q) ==> q <= Tip(c, input, links)
  {
    hide AdvancesAt, AllAccepted;
    GenesisAnchors(c, input, links, |links|);
    forall q: nat | q < |links| && AdvancesAt(c, input, links, q) ensures q <= Tip(c, input, links) {
      LastAdvanceIsLast(c, input, links, |links|, q);
    }
    assert AdvancesAt(c, input, links, 0) && 0 <= Tip(c, input, links);
    AcceptedPrefix(c, input, links, |links|, Tip(c, input, links) + 1);
  }

  /** The boot at `q` is no foreign copy, and no promotion of the tip's lineage reaches back past its position. */
  ghost predicate Reached(c: Crypto, input: WalkInput, links: seq<RecordedLink>, q: nat)
    requires q < |links| && Tip(c, input, links) >= 0
  {
    !ForeignCopy(c, input, links, q) &&
    NotPassed(c, input, links, Setter(c, input, links, q), Lineage(c, input, links, Tip(c, input, links)))
  }

  /** One pin: a boot is upstream exactly when it is no foreign copy and no promotion of the tip's lineage reaches back
      past the position that put it in force. */
  lemma UpstreamIff(c: Crypto, input: WalkInput, links: seq<RecordedLink>, q: nat)
    requires q < |links| && AllAccepted(c, input, links, |links|) && links[q].link.kind.Boot?
    ensures Tip(c, input, links) >= 0
    ensures Upstream(c, input, links, q) <==> Reached(c, input, links, q)
  {
    hide AdvancesAt, AllAccepted, ForeignCopy, Lineage, Explanation, LastAdvance;
    TipExists(c, input, links);
    AcceptedPrefix(c, input, links, |links|, q + 1);
    SetterIff(c, input, links, q);
    var s := Setter(c, input, links, q);
    if s >= 0 { OnLineageIff(c, input, links, s, Tip(c, input, links)); }
  }

  /** All pins: the promise holds exactly when every promotion's upgrade was recorded after the version it replaced was
      put in force, and no boot changes the PCRs while it repeats the digest. */
  lemma PromiseIff(c: Crypto, input: WalkInput, links: seq<RecordedLink>)
    requires links != [] && AllAccepted(c, input, links, |links|)
    ensures Tip(c, input, links) >= 0
    ensures PromiseHolds(c, input, links) <==>
            UpgradesAreCurrent(c, input, links, Tip(c, input, links)) && NoForeignCopy(c, input, links)
  {
    hide AllAccepted, AdvancesAt, ForeignCopy, UpgradesAreCurrent, Lineage;
    TipExists(c, input, links);
    var k := Tip(c, input, links);
    CoversIffCurrent(c, input, links, k);
    if PromiseHolds(c, input, links) { PromiseCovers(c, input, links); }
    if Covers(c, input, links, k) && NoForeignCopy(c, input, links) { CoversPromise(c, input, links); }
  }

  lemma PromiseCovers(c: Crypto, input: WalkInput, links: seq<RecordedLink>)
    requires links != [] && AllAccepted(c, input, links, |links|)
    requires Tip(c, input, links) >= 0 && PromiseHolds(c, input, links)
    ensures Covers(c, input, links, Tip(c, input, links)) && NoForeignCopy(c, input, links)
  {
    hide AllAccepted, AdvancesAt, ForeignCopy, Lineage, LastAdvance;
    forall q: nat | q <= Tip(c, input, links) && AdvancesAt(c, input, links, q)
      ensures q in Lineage(c, input, links, Tip(c, input, links))
    {
      AdvanceMeans(c, input, links, q);
      assert Upstream(c, input, links, q);
    }
    forall q: nat | q < |links| ensures !ForeignCopy(c, input, links, q) {
      if links[q].link.kind.Boot? {
        AcceptedPrefix(c, input, links, |links|, q + 1);
        SetterIff(c, input, links, q);
        assert Upstream(c, input, links, q);
      } else {
        CopyIsBoot(c, input, links, q);
      }
    }
  }

  lemma CopyIsBoot(c: Crypto, input: WalkInput, links: seq<RecordedLink>, q: nat)
    requires q < |links|
    ensures ForeignCopy(c, input, links, q) ==> links[q].link.kind.Boot?
  {
  }

  lemma CoversPromise(c: Crypto, input: WalkInput, links: seq<RecordedLink>)
    requires links != [] && AllAccepted(c, input, links, |links|) && Tip(c, input, links) >= 0
    requires Covers(c, input, links, Tip(c, input, links)) && NoForeignCopy(c, input, links)
    ensures PromiseHolds(c, input, links)
  {
    hide AllAccepted, AdvancesAt, ForeignCopy, Lineage, LastAdvance;
    TipExists(c, input, links);
    forall q: nat | q < |links| && links[q].link.kind.Boot? ensures Upstream(c, input, links, q) {
      AcceptedPrefix(c, input, links, |links|, q + 1);
      SetterIff(c, input, links, q);
    }
  }

  // ----- The promise for PCRs -----

  /** The position that put a pinned boot in force has the pinned PCR0-2. */
  lemma SetterIsPinned(c: Crypto, input: WalkInput, links: seq<RecordedLink>, q: nat, pinned: Pcrs)
    requires q < |links| && AllAccepted(c, input, links, q + 1) && PinnedAt(c, links, q, pinned)
    requires Setter(c, input, links, q) >= 0
    ensures PinnedAt(c, links, Setter(c, input, links, q), pinned)
  {
    hide AllAccepted, AdvancesAt, AttestedAs, LastAdvance, Walk, ToPcrs, Codec.DecodeCanonical, InForceAt;
    var s := Setter(c, input, links, q);
    if s == q {
    } else {
      InForceSince(c, input, links, q);
      StatesInForce(c, input, links, s);
    }
  }

  /** The boot that put a version in force states its PCR0-2. */
  lemma StatesInForce(c: Crypto, input: WalkInput, links: seq<RecordedLink>, s: nat)
    requires s < |links| && AdvancesAt(c, input, links, s)
    ensures var p, v := c.boot.DecodeCanonical(links[s].link.payload), InForceAt(c, input, links, s + 1);
            links[s].link.kind.Boot? && p.Some? && v.Some? && p.value.pcrs == v.value.pcrs
  {
    hide AdvancesAt, AttestedAs, Walk, Codec.DecodeCanonical;
    AdvanceMeans(c, input, links, s);
  }

  /** A version on the tip's lineage has the pinned PCR0-2. */
  ghost predicate PcrsUpstream(c: Crypto, input: WalkInput, links: seq<RecordedLink>, pinned: Pcrs)
    requires Tip(c, input, links) >= 0
  {
    exists s: nat :: s < |links| && s in Lineage(c, input, links, Tip(c, input, links)) && PinnedAt(c, links, s, pinned)
  }

  /** The pinned PCR0-2 are upstream of the tip exactly when some boot of them is reached. The same PCRs may boot more
      than once, or under hex of another case; any one of these boots will do. */
  lemma PcrsUpstreamIff(c: Crypto, input: WalkInput, links: seq<RecordedLink>, pinned: Pcrs)
    requires links != [] && AllAccepted(c, input, links, |links|)
    ensures Tip(c, input, links) >= 0
    ensures PcrsUpstream(c, input, links, pinned) <==>
            exists q: nat :: q < |links| && PinnedAt(c, links, q, pinned) && Reached(c, input, links, q)
  {
    hide AllAccepted, AdvancesAt, Lineage, ForeignCopy, NotPassed, PinnedAt;
    TipExists(c, input, links);
    if PcrsUpstream(c, input, links, pinned) {
      var s: nat :| s < |links| && s in Lineage(c, input, links, Tip(c, input, links)) && PinnedAt(c, links, s, pinned);
      LineageAdvances(c, input, links, Tip(c, input, links), s);
      PinnedIsBoot(c, links, s, pinned);
      UpstreamIff(c, input, links, s);
      assert Reached(c, input, links, s);
    }
    forall q: nat | q < |links| && PinnedAt(c, links, q, pinned) && Reached(c, input, links, q)
      ensures PcrsUpstream(c, input, links, pinned)
    {
      PinnedIsBoot(c, links, q, pinned);
      UpstreamIff(c, input, links, q);
      AcceptedPrefix(c, input, links, |links|, q + 1);
      SetterIsPinned(c, input, links, q, pinned);
    }
  }

  lemma PinnedIsBoot(c: Crypto, links: seq<RecordedLink>, q: nat, pinned: Pcrs)
    requires q < |links| && PinnedAt(c, links, q, pinned)
    ensures links[q].link.kind.Boot?
  {
  }

  /** When the promise holds of every boot, it holds of the PCR0-2 of every pin the check accepts. */
  lemma PromiseCoversPcrs(c: Crypto, input: WalkInput, links: seq<RecordedLink>, pinned: Pcrs)
    requires links != [] && AllAccepted(c, input, links, |links|) && PinnedAmongBoots(c, links, |links|, pinned)
    requires Tip(c, input, links) >= 0 && PromiseHolds(c, input, links)
    ensures PcrsUpstream(c, input, links, pinned)
  {
    hide AllAccepted, Lineage, PinnedAt, LastAdvance, ForeignCopy, NotPassed;
    var q: nat :| q < |links| && PinnedAt(c, links, q, pinned);
    PinnedIsBoot(c, links, q, pinned);
    UpstreamIff(c, input, links, q);
    PcrsUpstreamIff(c, input, links, pinned);
  }
}
