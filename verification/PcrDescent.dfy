/** The trust conclusion of the walk: when the descent check returns a tip, the tip and every
    version that was in force trace back to genesis through signed upgrades. */
module PcrDescent {
  import opened Wrappers
  import opened ChainTypes
  import opened LinkValidation
  import opened ChainWalk
  import opened WalkSoundness

  datatype DescentError =
    | NoGenesis
    | LinkInvalid(position: nat, source: ChainError)
    | PinnedNotInLineage
    | BootPayloadUnreadable(position: nat)

  /** Boot `q` states the pinned PCR0-2. */
  predicate PinnedAt(c: Crypto, links: seq<RecordedLink>, q: nat, pinned: Pcrs)
    requires q < |links|
  {
    var p := c.boot.DecodeCanonical(links[q].link.payload);
    links[q].link.kind.Boot? && p.Some? && ToPcrs(p.value.pcrs) == Ok(pinned)
  }

  ghost predicate PinnedAmongBoots(c: Crypto, links: seq<RecordedLink>, n: nat, pinned: Pcrs)
    requires n <= |links|
  {
    exists q: nat :: q < n && PinnedAt(c, links, q, pinned)
  }

  /** An accepted boot is readable: its payload decodes to PCR0-2 that are the attested ones. */
  lemma AcceptedBootReadable(c: Crypto, input: WalkInput, links: seq<RecordedLink>, q: nat)
    requires q < |links| && Accepted(c, input, links, q) && links[q].link.kind.Boot?
    ensures var p := c.boot.DecodeCanonical(links[q].link.payload);
            p.Some? && AttestedAs(c, input.e, Version(p.value.pcrs, p.value.imageDigest), links[q].link)
  {
    var st := Walk(c, input, links, q);
    var ctx := Rebuild(c, input, st, links[q].link);
    var reference := if links[q].recordedAt.Some? then links[q].recordedAt.value else input.now;
    AcceptedBoot(c, input.e, ctx.v, st.prior, links[q].link, reference);
  }

  /** A boot that carries a valid document, made for its own payload, of exactly these PCR0-2. */
  ghost predicate BootAttests(c: Crypto, debug: bool, link: ChainLink, pinned: Pcrs) {
    link.kind.Boot? && exists identity :: Vouches(c, debug, link, identity) && identity.image == pinned
  }

  ghost predicate SomeBootAttests(c: Crypto, debug: bool, links: seq<RecordedLink>, pinned: Pcrs) {
    exists q :: 0 <= q < |links| && BootAttests(c, debug, links[q].link, pinned)
  }

  lemma PinnedIsAttested(c: Crypto, input: WalkInput, links: seq<RecordedLink>, q: nat, pinned: Pcrs)
    requires q < |links| && Accepted(c, input, links, q)
    ensures PinnedAt(c, links, q, pinned) <==> BootAttests(c, input.e.debug, links[q].link, pinned)
  {
    hide Accepted, ToPcrs;
    if links[q].link.kind.Boot? {
      AcceptedBootReadable(c, input, links, q);
      var identity := c.document(links[q].link.attestation, input.e.debug).value.identity.value;
      assert Vouches(c, input.e.debug, links[q].link, identity);
    }
  }

  /** On an accepted chain a pin matches exactly what some boot attests. */
  lemma PinIff(c: Crypto, input: WalkInput, links: seq<RecordedLink>, pinned: Pcrs)
    requires AllAccepted(c, input, links, |links|)
    ensures PinnedAmongBoots(c, links, |links|, pinned) <==> SomeBootAttests(c, input.e.debug, links, pinned)
  {
    hide Accepted, PinnedAt, BootAttests;
    forall q: nat | q < |links|
      ensures PinnedAt(c, links, q, pinned) <==> BootAttests(c, input.e.debug, links[q].link, pinned)
    {
      AcceptedPrefix(c, input, links, |links|, q + 1);
      PinnedIsAttested(c, input, links, q, pinned);
    }
  }

  /** Gate 1: the first refused link, if any. */
  method FirstRefused(outcomes: seq<Result<Outcome, ChainError>>) returns (refused: Option<DescentError>)
    ensures refused.None? <==> AllOk(outcomes)
    ensures refused.Some? ==>
        && refused.value.LinkInvalid? && refused.value.position < |outcomes|
        && AllOk(outcomes[..refused.value.position])
        && outcomes[refused.value.position] == Err(refused.value.source)
  {
    for position := 0 to |outcomes|
      invariant AllOk(outcomes[..position])
    {
      if outcomes[position].Err? { return Some(LinkInvalid(position, outcomes[position].error)); }
    }
    assert outcomes[..|outcomes|] == outcomes;
    return None;
  }

  predicate Unreadable(c: Crypto, link: ChainLink) {
    var p := c.boot.DecodeCanonical(link.payload);
    link.kind.Boot? && (p.Some? ==> ToPcrs(p.value.pcrs).Err?)
  }

  /** Gate 2: whether the pinned PCR0-2 are those of some boot. */
  method PinnedInLineage(c: Crypto, pinned: Pcrs, links: seq<RecordedLink>) returns (r: Result<bool, DescentError>)
    ensures r.Ok? ==> (r.value <==> PinnedAmongBoots(c, links, |links|, pinned))
    ensures r.Ok? ==> forall i :: 0 <= i < |links| ==> !Unreadable(c, links[i].link)
    ensures r.Err? ==> && r.error.BootPayloadUnreadable? && r.error.position < |links|
                       && Unreadable(c, links[r.error.position].link)
                       && forall i :: 0 <= i < r.error.position ==> !Unreadable(c, links[i].link)
  {
    var found := false;
    for i := 0 to |links|
      invariant found <==> PinnedAmongBoots(c, links, i, pinned)
      invariant forall k :: 0 <= k < i ==> !Unreadable(c, links[k].link)
    {
      if !links[i].link.kind.Boot? { continue; }
      var payload := c.boot.DecodeCanonical(links[i].link.payload);
      if payload.None? { return Err(BootPayloadUnreadable(i)); }
      var state := ToPcrs(payload.value.pcrs);
      if state.Err? { return Err(BootPayloadUnreadable(i)); }
      if state.value == pinned {
        found := true;
        assert PinnedAt(c, links, i, pinned);
      }
    }
    return Ok(found);
  }

  ghost predicate RefusedWith(c: Crypto, input: WalkInput, links: seq<RecordedLink>, i: nat, error: ChainError)
    requires i < |links|
  {
    OutcomeOf(c, input, Walk(c, input, links, i), links[i]) == Err(error)
  }

  lemma FirstRefusedMeans(c: Crypto, input: WalkInput, links: seq<RecordedLink>, i: nat)
    requires i < |links|
    requires AllOk(Walk(c, input, links, |links|).outcomes[..i]) && Walk(c, input, links, |links|).outcomes[i].Err?
    ensures AllAccepted(c, input, links, i) && !AllAccepted(c, input, links, |links|)
    ensures RefusedWith(c, input, links, i, Walk(c, input, links, |links|).outcomes[i].error)
  {
    OutcomesAllOk(c, input, links, |links|);
    OutcomesAllOk(c, input, links, i);
    OutcomeAt(c, input, links, |links|, i);
    OutcomesPrefix(c, input, links, |links|, i);
  }

  lemma {:induction false} OutcomesPrefix(c: Crypto, input: WalkInput, links: seq<RecordedLink>, n: nat, i: nat)
    requires i <= n <= |links|
    ensures Walk(c, input, links, n).outcomes[..i] == Walk(c, input, links, i).outcomes
  {
    hide OutcomeOf, Advances, Rebuild;
    if i == n {
    } else {
      var st, last := Walk(c, input, links, n - 1), OutcomeOf(c, input, Walk(c, input, links, n - 1), links[n - 1]);
      assert Walk(c, input, links, n).outcomes == st.outcomes + [last];
      OutcomesPrefix(c, input, links, n - 1, i);
      assert (st.outcomes + [last])[..i] == st.outcomes[..i];
    }
  }

  /** The descent check. It succeeds exactly on a non-empty, fully accepted chain with a boot of the pinned
      PCR0-2, and then returns the PCR0-2 in force at the end. `BootPayloadUnreadable` cannot occur,
      `NoGenesis` is exactly the empty chain, and `LinkInvalid` names the first refused link. */
  method VerifyPcrDescent(c: Crypto, pinned: Pcrs, links: seq<RecordedLink>, input: WalkInput)
    returns (r: Result<Pcrs, DescentError>)
    ensures r.Ok? <==>
        links != [] && AllAccepted(c, input, links, |links|) && PinnedAmongBoots(c, links, |links|, pinned)
    ensures r.Ok? <==>
        links != [] && AllAccepted(c, input, links, |links|) && SomeBootAttests(c, input.e.debug, links, pinned)
    ensures r.Ok? ==> InForcePcrs(c, input, links, |links|) == Some(r.value)
    ensures r.Err? ==> !r.error.BootPayloadUnreadable?
    ensures r == Err(NoGenesis) <==> links == []
    ensures r.Err? && r.error.LinkInvalid? <==> !AllAccepted(c, input, links, |links|)
    ensures r.Err? && r.error.LinkInvalid? ==>
        && r.error.position < |links| && AllAccepted(c, input, links, r.error.position)
        && RefusedWith(c, input, links, r.error.position, r.error.source)
  {
    var walk := ValidateChain(c, links, input);
    var refused := FirstRefused(walk.outcomes);
    if refused.Some? {
      FirstRefusedMeans(c, input, links, refused.value.position);
      return Err(refused.value);
    }
    var tip := if walk.finalPcrs.Some? then ToPcrs(walk.finalPcrs.value) else Err(NoGenesisYet);
    var pinnedInLineage := PinnedInLineage(c, pinned, links);
    r := if walk.finalPcrs.None? then Err(NoGenesis)
         else if tip.Err? then Err(BootPayloadUnreadable(0))
         else if pinnedInLineage.Err? then Err(pinnedInLineage.error)
         else if pinnedInLineage.value then Ok(tip.value)
         else Err(PinnedNotInLineage);
    AcceptedChainReadable(c, input, links);
    PinIff(c, input, links, pinned);
  }

  /** On a fully accepted chain the version in force has readable PCR0-2, and so has every boot. */
  lemma AcceptedChainReadable(c: Crypto, input: WalkInput, links: seq<RecordedLink>)
    requires AllOk(Walk(c, input, links, |links|).outcomes)
    ensures AllAccepted(c, input, links, |links|)
    ensures InForcePcrs(c, input, links, |links|).Some? <==> links != []
    ensures InForceAt(c, input, links, |links|).Some? <==> links != []
    ensures forall q :: 0 <= q < |links| ==> !Unreadable(c, links[q].link)
  {
    OutcomesAllOk(c, input, links, |links|);
    IdentityAgrees(c, input, links, |links|);
    if links != [] { GenesisAnchors(c, input, links, |links|); }
    forall q: nat | q < |links| ensures !Unreadable(c, links[q].link) {
      if links[q].link.kind.Boot? {
        AcceptedPrefix(c, input, links, |links|, q + 1);
        AcceptedBootReadable(c, input, links, q);
      }
    }
  }

  /** The raw PCR0-2 in force before link `n`. */
  ghost function InForcePcrs(c: Crypto, input: WalkInput, links: seq<RecordedLink>, n: nat): Option<Pcrs>
    requires n <= |links|
  {
    var v := InForceAt(c, input, links, n);
    if v.Some? && ToPcrs(v.value.pcrs).Ok? then Some(ToPcrs(v.value.pcrs).value) else None
  }

  // ----- Lineage -----

  /** Position of the boot that set the version in force before link `n`. */
  ghost function LastAdvance(c: Crypto, input: WalkInput, links: seq<RecordedLink>, n: nat): (r: int)
    requires n <= |links|
    ensures -1 <= r < n
    ensures r >= 0 ==> AdvancesAt(c, input, links, r)
  {
    if n == 0 then -1
    else if AdvancesAt(c, input, links, n - 1) then n - 1
    else LastAdvance(c, input, links, n - 1)
  }

  /** The version in force is the one its setting boot put there. */
  lemma {:induction false} InForceSince(c: Crypto, input: WalkInput, links: seq<RecordedLink>, n: nat)
    requires n <= |links|
    ensures var s := LastAdvance(c, input, links, n);
            && (s < 0 ==> InForceAt(c, input, links, n).None?)
            && (s >= 0 ==> InForceAt(c, input, links, n) == InForceAt(c, input, links, s + 1))
  {
    hide OutcomeOf, Advances, Rebuild;
    if n > 0 && !AdvancesAt(c, input, links, n - 1) { InForceSince(c, input, links, n - 1); }
  }

  /** The upgrade that explains the promotion at `k`: the most recent match, or -1. */
  ghost function Explanation(c: Crypto, input: WalkInput, links: seq<RecordedLink>, k: nat): (j: int)
    requires k < |links|
    ensures -1 <= j < k
  {
    var v := InForceAt(c, input, links, k + 1);
    if v.None? then -1 else LastExplaining(c, Walk(c, input, links, k).prior, k, v.value)
  }

  /** The position that set the version which attested the explaining upgrade, or -1. */
  ghost function Parent(c: Crypto, input: WalkInput, links: seq<RecordedLink>, k: nat): (s: int)
    requires k < |links|
    ensures -1 <= s < k
  {
    var j := Explanation(c, input, links, k);
    if j < 0 then -1 else LastAdvance(c, input, links, j)
  }

  /** Every promotion has an explanation that justifies it, attested by an earlier version in force. */
  lemma PromotionExplained(c: Crypto, input: WalkInput, links: seq<RecordedLink>, k: nat)
    requires 0 < k < |links| && AllAccepted(c, input, links, k + 1) && AdvancesAt(c, input, links, k)
    ensures var j := Explanation(c, input, links, k); 0 < j < k && Justifies(c, input, links, j, k)
    ensures var s := Parent(c, input, links, k); 0 <= s && AdvancesAt(c, input, links, s)
  {
    AdvanceMeans(c, input, links, k);
    GenesisAnchors(c, input, links, k);
    var j := BootOfOtherVersion(c, input, links, k);
    InForceSince(c, input, links, j);
  }

  /** A chain of versions from genesis, each promoted by an upgrade that the one before it attested. */
  ghost predicate IsLineage(c: Crypto, input: WalkInput, links: seq<RecordedLink>, path: seq<nat>): (r: bool)
    ensures r ==> path != []
  {
    if |path| <= 1 then path == [0] && 0 < |links| && AdvancesAt(c, input, links, 0)
    else
      var n := |path| - 1;
      IsLineage(c, input, links, path[..n]) && path[n] < |links| && Edge(c, input, links, path[n - 1], path[n])
  }

  /** The version set at `a` attested a signed upgrade that justifies the later version set at `b`. */
  ghost predicate Edge(c: Crypto, input: WalkInput, links: seq<RecordedLink>, a: nat, b: nat)
    requires b < |links|
  {
    && a < b && AdvancesAt(c, input, links, b)
    && exists j: nat :: j < b && LastAdvance(c, input, links, j) == a && Justifies(c, input, links, j, b)
  }

  /** The parents of the version set at `k`, oldest first. */
  ghost function Lineage(c: Crypto, input: WalkInput, links: seq<RecordedLink>, k: nat): (path: seq<nat>)
    requires k < |links|
    ensures path != [] && path[|path| - 1] == k
    decreases k
  {
    var s := Parent(c, input, links, k);
    if s < 0 then [k] else Lineage(c, input, links, s) + [k]
  }

  /** Every version that was ever in force traces back to genesis. */
  lemma {:induction false} TracesToGenesis(c: Crypto, input: WalkInput, links: seq<RecordedLink>, k: nat)
    requires k < |links| && AllAccepted(c, input, links, k + 1) && AdvancesAt(c, input, links, k)
    ensures IsLineage(c, input, links, Lineage(c, input, links, k))
    decreases k
  {
    hide AdvancesAt, Justifies, AllAccepted, Explanation, LastAdvance;
    if k == 0 {
    } else {
      PromotionExplained(c, input, links, k);
      var s, j := Parent(c, input, links, k), Explanation(c, input, links, k);
      AcceptedPrefix(c, input, links, k + 1, s + 1);
      TracesToGenesis(c, input, links, s);
      assert Edge(c, input, links, s, k) by {
        assert LastAdvance(c, input, links, j) == s && Justifies(c, input, links, j, k);
      }
      var path := Lineage(c, input, links, s);
      assert (path + [k])[..|path|] == path;
    }
  }

  /** A boot on a fully accepted chain is the genesis, a reboot of the version in force, or the target of a
      signed unrevoked upgrade. */
  ghost predicate Classified(c: Crypto, input: WalkInput, links: seq<RecordedLink>, q: nat)
    requires q < |links|
  {
    || q == 0
    || (InForceAt(c, input, links, q).Some? && BootOf(c, input.e, InForceAt(c, input, links, q).value, links[q].link))
    || exists j: nat :: j < q && Justifies(c, input, links, j, q)
  }

  lemma BootClassified(c: Crypto, input: WalkInput, links: seq<RecordedLink>, q: nat)
    requires q < |links| && AllAccepted(c, input, links, q + 1) && links[q].link.kind.Boot?
    ensures Classified(c, input, links, q)
  {
    if q > 0 {
      GenesisAnchors(c, input, links, q);
      AcceptedBootReadable(c, input, links, q);
      var p := c.boot.DecodeCanonical(links[q].link.payload).value;
      var st := Walk(c, input, links, q);
      if p.pcrs != st.inForce.value.pcrs {
        var j := BootOfOtherVersion(c, input, links, q);
      } else {
        assert Rebuild(c, input, st, links[q].link) == Against(st.inForce.value, false);
        var reference := if links[q].recordedAt.Some? then links[q].recordedAt.value else input.now;
        AcceptedBoot(c, input.e, st.inForce.value, st.prior, links[q].link, reference);
      }
    }
  }

  /** The tip is the PCR0-2 of the boot that set the final version, whose lineage reaches genesis. */
  lemma TipTraces(c: Crypto, input: WalkInput, links: seq<RecordedLink>, tip: Pcrs) returns (path: seq<nat>)
    requires AllAccepted(c, input, links, |links|) && InForcePcrs(c, input, links, |links|) == Some(tip)
    ensures IsLineage(c, input, links, path) && PinnedAt(c, links, path[|path| - 1], tip)
  {
    hide AdvancesAt, LastAdvance, AllAccepted, IsLineage, Walk, AttestedAs;
    InForceSince(c, input, links, |links|);
    var k := LastAdvance(c, input, links, |links|);
    AcceptedPrefix(c, input, links, |links|, k + 1);
    AdvanceMeans(c, input, links, k);
    path := Lineage(c, input, links, k);
    assert PinnedAt(c, links, k, tip);
    TracesToGenesis(c, input, links, k);
  }

  /** The pinned PCR0-2 belong to an accepted boot of a known kind. */
  lemma PinClassified(c: Crypto, input: WalkInput, links: seq<RecordedLink>, pinned: Pcrs) returns (q: nat)
    requires AllAccepted(c, input, links, |links|) && PinnedAmongBoots(c, links, |links|, pinned)
    ensures q < |links| && PinnedAt(c, links, q, pinned) && Classified(c, input, links, q)
  {
    q :| q < |links| && PinnedAt(c, links, q, pinned);
    AcceptedPrefix(c, input, links, |links|, q + 1);
    BootClassified(c, input, links, q);
  }

  /** Descent: when the check succeeds, the returned tip is the PCR0-2 of a version whose lineage reaches
      genesis, and the pinned PCR0-2 are those of an accepted, classified boot. */
  lemma DescentSound(c: Crypto, pinned: Pcrs, links: seq<RecordedLink>, input: WalkInput, tip: Pcrs)
    returns (path: seq<nat>, q: nat)
    requires AllAccepted(c, input, links, |links|) && PinnedAmongBoots(c, links, |links|, pinned)
    requires InForcePcrs(c, input, links, |links|) == Some(tip)
    ensures IsLineage(c, input, links, path) && PinnedAt(c, links, path[|path| - 1], tip)
    ensures q < |links| && PinnedAt(c, links, q, pinned) && Classified(c, input, links, q)
  {
    path := TipTraces(c, input, links, tip);
    q := PinClassified(c, input, links, pinned);
  }
}
