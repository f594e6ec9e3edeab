/** What every chain built by ingest from empty satisfies, whatever is submitted and however the row moves. */
module IngestInvariants {
  import opened Wrappers
  import opened ChainTypes
  import opened LinkValidation
  import opened LinkAcceptance
  import opened ChainWalk
  import opened ChainIngest

  // ----- The invariant -----

  /** Entry 0 is a boot, entry `i` has sequence `i`, and ids are assigned once. */
  ghost predicate Sequenced(chain: seq<ChainLink>) {
    && (chain != [] ==> chain[0].kind.Boot?)
    && (forall i :: 0 <= i < |chain| ==> chain[i].sequence == Some(i) && chain[i].id.Some?)
    && forall i, j :: 0 <= i < j < |chain| ==> chain[i].id != chain[j].id
  }

  /** No two signed links share kind and payload. */
  ghost predicate NoReplay(chain: seq<ChainLink>) {
    forall i, j :: 0 <= i < j < |chain| && !chain[j].kind.Boot? ==>
      chain[i].kind != chain[j].kind || chain[i].payload != chain[j].payload
  }

  function BootAt(c: Crypto, chain: seq<ChainLink>, i: nat): Option<BootPayload>
    requires i < |chain|
  {
    if chain[i].kind.Boot? then c.boot.DecodeCanonical(chain[i].payload) else None
  }

  /** Boot `i` and boot `j` with no boot in between. */
  ghost predicate Consecutive(chain: seq<ChainLink>, i: nat, j: nat)
    requires i < j < |chain|
  {
    chain[i].kind.Boot? && chain[j].kind.Boot? && forall k :: i < k < j ==> !chain[k].kind.Boot?
  }

  /** Boots decode, and consecutive boots differ in digest. */
  ghost predicate BootsChange(c: Crypto, chain: seq<ChainLink>) {
    && (forall i :: 0 <= i < |chain| && chain[i].kind.Boot? ==> BootAt(c, chain, i).Some?)
    && forall i, j :: 0 <= i < j < |chain| && Consecutive(chain, i, j) ==>
        BootAt(c, chain, i).value.imageDigest != BootAt(c, chain, j).value.imageDigest
  }

  /** Every later boot is a valid anti-rollback successor of every earlier one. */
  ghost predicate RollbackKept(c: Crypto, chain: seq<ChainLink>) {
    forall i, j :: 0 <= i < j < |chain| && BootAt(c, chain, i).Some? && BootAt(c, chain, j).Some? ==>
      CheckSuccessor(BootAt(c, chain, i).value.antiRollback, BootAt(c, chain, j).value.antiRollback).Ok?
  }

  /** Revocation `r` names upgrade `u` by id and by the hash of its payload. */
  ghost predicate Cancels(c: Crypto, chain: seq<ChainLink>, u: nat, r: nat)
    requires u < |chain| && r < |chain|
  {
    var p := c.revocation.DecodeCanonical(chain[r].payload);
    && chain[r].kind.Revocation? && p.Some? && chain[u].kind.Upgrade?
    && chain[u].id == Some(p.value.revokes) && c.sha256(chain[u].payload) == p.value.revokesLink
  }

  /** Every revocation cancels an earlier upgrade. */
  ghost predicate RevocationsResolve(c: Crypto, chain: seq<ChainLink>) {
    forall r: nat :: r < |chain| && chain[r].kind.Revocation? ==> exists u: nat :: u < r && Cancels(c, chain, u, r)
  }

  function RevokesAt(c: Crypto, chain: seq<ChainLink>, r: nat): Option<Uuid>
    requires r < |chain|
  {
    var p := c.revocation.DecodeCanonical(chain[r].payload);
    if chain[r].kind.Revocation? && p.Some? then Some(p.value.revokes) else None
  }

  /** No upgrade is revoked twice. */
  ghost predicate RevokedOnce(c: Crypto, chain: seq<ChainLink>) {
    forall i, j :: 0 <= i < j < |chain| && RevokesAt(c, chain, i).Some? ==>
      RevokesAt(c, chain, i) != RevokesAt(c, chain, j)
  }

  ghost predicate Structured(c: Crypto, e: Enclave, chain: seq<ChainLink>) {
    && Sequenced(chain) && NoReplay(chain) && BootsChange(c, chain) && RollbackKept(c, chain)
    && RevocationsResolve(c, chain) && RevokedOnce(c, chain)
    && (!e.upgradable ==> |chain| <= 1)
  }

  // ----- Each clause survives an append -----

  lemma SequencedGrows(chain: seq<ChainLink>, link: ChainLink)
    requires Sequenced(chain) && (chain == [] ==> link.kind.Boot?)
    requires link.sequence == Some(|chain|) && link.id.Some?
    requires forall i :: 0 <= i < |chain| ==> chain[i].id != link.id
    ensures Sequenced(chain + [link])
  {
  }

  lemma NoReplayGrows(chain: seq<ChainLink>, link: ChainLink)
    requires NoReplay(chain) && (!link.kind.Boot? ==> !SignedPayloadSeen(link, chain))
    ensures NoReplay(chain + [link])
  {
  }

  lemma BootsGrow(c: Crypto, e: Enclave, chain: seq<ChainLink>, link: ChainLink)
    requires BootsChange(c, chain) && RollbackKept(c, chain)
    requires link.kind.Boot? ==>
        var p := c.boot.DecodeCanonical(link.payload); p.Some? && BootFollows(c, e, chain, p.value)
    ensures BootsChange(c, chain + [link]) && RollbackKept(c, chain + [link])
  {
    var next, n, last := chain + [link], |chain|, LastBoot(chain);
    if link.kind.Boot? { BootFollowsIff(c, e, chain, c.boot.DecodeCanonical(link.payload).value); }
    assert next[n] == link && forall i :: 0 <= i < n ==> next[i] == chain[i];
    forall i: nat, j: nat | i < j < |next| && Consecutive(next, i, j)
      ensures BootAt(c, next, i).value.imageDigest != BootAt(c, next, j).value.imageDigest
    {
      if j < n {
        assert Consecutive(chain, i, j);
      } else {
        assert i == last;
      }
    }
    forall i: nat, j: nat | i < j < |next| && BootAt(c, next, i).Some? && BootAt(c, next, j).Some?
      ensures CheckSuccessor(BootAt(c, next, i).value.antiRollback, BootAt(c, next, j).value.antiRollback).Ok?
    {
      if j < n {
        assert BootAt(c, chain, i).Some? && BootAt(c, chain, j).Some?;
      } else if i < last {
        SuccessorTransitive(BootAt(c, chain, i).value.antiRollback, BootAt(c, chain, last).value.antiRollback,
                            BootAt(c, next, n).value.antiRollback);
      }
    }
  }

  lemma SuccessorTransitive(a: AntiRollback, b: AntiRollback, d: AntiRollback)
    requires CheckSuccessor(a, b).Ok? && CheckSuccessor(b, d).Ok?
    ensures CheckSuccessor(a, d).Ok?
  {
  }

  lemma CancelsStable(c: Crypto, chain: seq<ChainLink>, link: ChainLink, u: nat, r: nat)
    requires u < |chain| && r < |chain|
    ensures Cancels(c, chain + [link], u, r) <==> Cancels(c, chain, u, r)
  {
  }

  lemma RevocationsGrow(c: Crypto, chain: seq<ChainLink>, link: ChainLink, now: Time)
    requires RevocationsResolve(c, chain) && RevokedOnce(c, chain)
    requires link.kind.Revocation? ==>
        var p := c.revocation.DecodeCanonical(link.payload);
        p.Some? && (exists t: nat :: Target(c, chain, t, p.value, now)) && Unrevoked(c, chain, p.value.revokes)
    ensures RevocationsResolve(c, chain + [link])
    ensures RevokedOnce(c, chain + [link])
  {
    var next, n := chain + [link], |chain|;
    forall r: nat | r < |next| && next[r].kind.Revocation? ensures exists u: nat :: u < r && Cancels(c, next, u, r) {
      if r < n {
        var u: nat :| u < r && Cancels(c, chain, u, r);
        CancelsStable(c, chain, link, u, r);
      } else {
        var p := c.revocation.DecodeCanonical(link.payload).value;
        var t: nat :| Target(c, chain, t, p, now);
        assert Cancels(c, next, t, n);
      }
    }
    forall i: nat, j: nat | i < j < |next| && RevokesAt(c, next, i).Some?
      ensures RevokesAt(c, next, i) != RevokesAt(c, next, j)
    {
      assert RevokesAt(c, next, i) == RevokesAt(c, chain, i);
      if j < n {
        assert RevokesAt(c, next, j) == RevokesAt(c, chain, j);
      }
    }
  }

  // ----- The invariant over runs -----

  lemma AppendKeepsStructure(c: Crypto, e: Enclave, chain: seq<RecordedLink>, next: seq<RecordedLink>, row: Version,
                             link: ChainLink, newId: Uuid, now: Time)
    requires Structured(c, e, Links(chain)) && Appends(c, e, chain, next, row, link, newId, now)
    ensures Structured(c, e, Links(next))
  {
    var prior, stored := Links(chain), Stored(link, newId, |chain|, now).link;
    assert Links(next) == prior + [stored];
    AssignmentIrrelevant(c, e, row, prior, link, now, Some(newId), Some(|chain|));
    match link.kind {
      case Boot => BootAppendIff(c, e, row, prior, stored, now);
      case Upgrade => UpgradeAppendIff(c, e, row, prior, stored, now);
      case Revocation => RevocationAppendIff(c, e, row, prior, stored, now);
    }
    SequencedGrows(prior, stored);
    NoReplayGrows(prior, stored);
    BootsGrow(c, e, prior, stored);
    RevocationsGrow(c, prior, stored, now);
  }

  /** Every chain ingest builds from empty is structured. */
  lemma {:induction false} IngestStructured(c: Crypto, e: Enclave, row: Version, actions: seq<Action>)
    ensures Structured(c, e, Links(Run(c, e, IngestState(row, []), actions).chain))
  {
    if actions == [] {
    } else {
      var before, a := Run(c, e, IngestState(row, []), actions[..|actions| - 1]), actions[|actions| - 1];
      IngestStructured(c, e, row, actions[..|actions| - 1]);
      if Step(c, e, before, a).chain != before.chain {
        var row' := StepAppends(c, e, before, a);
        AppendKeepsStructure(c, e, before.chain, Step(c, e, before, a).chain, row', a.link, a.newId, a.now);
      }
    }
  }
}
