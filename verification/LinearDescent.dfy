/** When the tip descends from every version before it. The descent check accepts any boot of the pinned PCR0-2 on
    an accepted chain; that the tip's lineage passes through every version in force before it holds exactly when
    each promotion's upgrade was recorded after the version it replaced was put in force. */
module LinearDescent {
  import opened ChainTypes
  import opened ChainWalk
  import opened WalkSoundness
  import opened PcrDescent

  /** The lineage of the version set at `k` passes through every version in force up to `k`. */
  ghost predicate Covers(c: Crypto, input: WalkInput, links: seq<RecordedLink>, k: nat)
    requires k < |links|
  {
    forall q: nat :: q <= k && AdvancesAt(c, input, links, q) ==> q in Lineage(c, input, links, k)
  }

  /** No version was put in force between the upgrade that explains a promotion and the promotion itself. */
  ghost predicate UpgradesAreCurrent(c: Crypto, input: WalkInput, links: seq<RecordedLink>, k: nat)
    requires k < |links|
  {
    forall m: nat, q: nat :: 0 < m <= k && AdvancesAt(c, input, links, m) && Explanation(c, input, links, m) < q < m ==>
      !AdvancesAt(c, input, links, q)
  }

  lemma {:induction false} LastAdvanceIsLast(c: Crypto, input: WalkInput, links: seq<RecordedLink>, n: nat, m: nat)
    requires m < n <= |links| && AdvancesAt(c, input, links, m)
    ensures m <= LastAdvance(c, input, links, n)
  {
    hide AdvancesAt;
    if !AdvancesAt(c, input, links, n - 1) { LastAdvanceIsLast(c, input, links, n - 1, m); }
  }

  lemma {:induction false} LineageAdvances(c: Crypto, input: WalkInput, links: seq<RecordedLink>, k: nat, q: nat)
    requires k < |links| && AdvancesAt(c, input, links, k) && q in Lineage(c, input, links, k)
    ensures q <= k && AdvancesAt(c, input, links, q)
    decreases k
  {
    hide AdvancesAt, Explanation;
    var s := Parent(c, input, links, k);
    if s >= 0 && q != k { LineageAdvances(c, input, links, s, q); }
  }

  lemma {:induction false} CurrentCovers(c: Crypto, input: WalkInput, links: seq<RecordedLink>, k: nat, q: nat)
    requires k < |links| && AllAccepted(c, input, links, k + 1) && AdvancesAt(c, input, links, k)
    requires UpgradesAreCurrent(c, input, links, k) && q <= k && AdvancesAt(c, input, links, q)
    ensures q in Lineage(c, input, links, k)
    decreases k
  {
    hide AdvancesAt, Explanation, AllAccepted, Justifies, LastAdvance;
    if q == k {
    } else {
      PromotionExplained(c, input, links, k);
      var s, j := Parent(c, input, links, k), Explanation(c, input, links, k);
      assert !(j < q < k);
      UpgradeDoesNotAdvance(c, input, links, j, k);
      LastAdvanceIsLast(c, input, links, j, q);
      AcceptedPrefix(c, input, links, k + 1, s + 1);
      CurrentCovers(c, input, links, s, q);
    }
  }

  /** The explaining upgrade itself changes nothing. */
  lemma UpgradeDoesNotAdvance(c: Crypto, input: WalkInput, links: seq<RecordedLink>, j: nat, k: nat)
    requires j < k < |links| && Justifies(c, input, links, j, k)
    ensures !AdvancesAt(c, input, links, j)
  {
    assert links[j].link.kind.Upgrade?;
  }

  /** A covering lineage goes through the version in force just before. */
  lemma CoversPrevious(c: Crypto, input: WalkInput, links: seq<RecordedLink>, k: nat, q: nat)
    requires k < |links| && AllAccepted(c, input, links, k + 1) && AdvancesAt(c, input, links, k)
    requires Covers(c, input, links, k) && q < k && AdvancesAt(c, input, links, q)
    ensures q <= Parent(c, input, links, k) && q in Lineage(c, input, links, Parent(c, input, links, k))
  {
    hide AdvancesAt, Explanation, AllAccepted, Parent;
    assert q in Lineage(c, input, links, k);
    PromotionExplained(c, input, links, k);
    LineageAdvances(c, input, links, Parent(c, input, links, k), q);
  }

  lemma CoversParent(c: Crypto, input: WalkInput, links: seq<RecordedLink>, k: nat)
    requires 0 < k < |links| && AllAccepted(c, input, links, k + 1) && AdvancesAt(c, input, links, k)
    requires Covers(c, input, links, k)
    ensures var s := Parent(c, input, links, k); s >= 0 && AdvancesAt(c, input, links, s) && Covers(c, input, links, s)
  {
    hide AdvancesAt, Explanation, AllAccepted, Parent, Lineage, Justifies;
    PromotionExplained(c, input, links, k);
    var s := Parent(c, input, links, k);
    forall r: nat | r <= s && AdvancesAt(c, input, links, r) ensures r in Lineage(c, input, links, s) {
      CoversPrevious(c, input, links, k, r);
    }
  }

  lemma {:induction false} CoversCurrent(c: Crypto, input: WalkInput, links: seq<RecordedLink>, k: nat, m: nat, q: nat)
    requires k < |links| && AllAccepted(c, input, links, k + 1) && AdvancesAt(c, input, links, k)
    requires Covers(c, input, links, k)
    requires q < m <= k && AdvancesAt(c, input, links, m) && AdvancesAt(c, input, links, q)
    ensures q < Explanation(c, input, links, m)
    decreases k
  {
    hide AdvancesAt, Explanation, AllAccepted, Covers, Lineage;
    CoversParent(c, input, links, k);
    var s := Parent(c, input, links, k);
    if m < k {
      CoversPrevious(c, input, links, k, m);
      AcceptedPrefix(c, input, links, k + 1, s + 1);
      CoversCurrent(c, input, links, s, m, q);
    } else {
      CoversPrevious(c, input, links, k, q);
    }
  }

  /** The tip's lineage covers every version before it if and only if every explaining upgrade was current. */
  lemma CoversIffCurrent(c: Crypto, input: WalkInput, links: seq<RecordedLink>, k: nat)
    requires k < |links| && AllAccepted(c, input, links, k + 1) && AdvancesAt(c, input, links, k)
    ensures Covers(c, input, links, k) <==> UpgradesAreCurrent(c, input, links, k)
  {
    hide AdvancesAt, Explanation, AllAccepted, Lineage;
    if UpgradesAreCurrent(c, input, links, k) {
      forall q: nat | q <= k && AdvancesAt(c, input, links, q) ensures q in Lineage(c, input, links, k) {
        CurrentCovers(c, input, links, k, q);
      }
    }
    if Covers(c, input, links, k) {
      forall m: nat, q: nat | 0 < m <= k && AdvancesAt(c, input, links, m) && Explanation(c, input, links, m) < q < m
        ensures !AdvancesAt(c, input, links, q)
      {
        if AdvancesAt(c, input, links, q) { CoversCurrent(c, input, links, k, m, q); }
      }
    }
  }
}
