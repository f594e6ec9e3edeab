/** A revoked upgrade stays revoked and a replayed signed payload is never stored again; anti-rollback is
    fixed for the life of the enclave. */
module RevocationFinality {
  import opened Wrappers
  import opened ChainTypes
  import opened LinkValidation
  import opened ChainWalk
  import opened ChainIngest
  import opened IngestInvariants

  /** Link `f` is the first upgrade carrying its payload, and some decodable revocation names its id. */
  ghost predicate RevokedFirstCopy(c: Crypto, prior: seq<ChainLink>, f: nat)
    requires f < |prior|
  {
    && prior[f].kind.Upgrade? && Revoked(c, prior, prior[f].id)
    && forall i :: 0 <= i < f ==> !(prior[i].kind.Upgrade? && prior[i].payload == prior[f].payload)
  }

  /** Revocation only ever gains: whatever follows, the revoked first copy stays revoked. */
  lemma {:induction false} RevokedStays(c: Crypto, prior: seq<ChainLink>, more: seq<ChainLink>, id: Option<Uuid>)
    requires Revoked(c, prior, id)
    ensures Revoked(c, prior + more, id)
  {
    var k :| 0 <= k < |prior| && prior[k].kind.Revocation?
             && var p := c.revocation.DecodeCanonical(prior[k].payload); p.Some? && p.value.revokes == id.value;
    assert (prior + more)[k] == prior[k];
  }

  /** Finality: on any list whatsoever, valid or not, and with any links appended after it, a revoked payload
      never explains a boot, however many copies under other ids are present. */
  lemma RevocationIsFinal(c: Crypto, prior: seq<ChainLink>, f: nat, more: seq<ChainLink>, v: Version)
    requires f < |prior| && RevokedFirstCopy(c, prior, f)
    ensures var j := LastExplaining(c, prior + more, |prior + more|, v);
            j >= 0 ==> (prior + more)[j].payload != prior[f].payload
    ensures var target := PromotionTarget(c, prior + more, v);
            target.Some? ==> c.upgrade.encode(target.value) != prior[f].payload
  {
    var all := prior + more;
    assert forall i :: 0 <= i < |prior| ==> all[i] == prior[i];
    RevokedStays(c, prior, more, prior[f].id);
    var j := LastExplaining(c, all, |all|, v);
    if j >= 0 { CopyNeverExplains(c, all, f, j, v); }
  }

  lemma CopyNeverExplains(c: Crypto, all: seq<ChainLink>, f: nat, j: nat, v: Version)
    requires f < |all| && j < |all| && RevokedFirstCopy(c, all, f)
    ensures Explains(c, all, j, v) ==> all[j].payload != all[f].payload
  {
    if f < j {
      assert all[..j][f] == all[f];
      assert all[j].kind.Upgrade? && all[j].payload == all[f].payload ==> SignedPayloadSeen(all[j], all[..j]);
    }
  }

  /** Replay: once a signed payload is on a chain, re-submitting it never appends, under any row, clock,
      attestation or extra links. */
  lemma ReplayNeverAppends(c: Crypto, e: Enclave, v: Version, prior: seq<ChainLink>, more: seq<ChainLink>,
                           i: nat, link: ChainLink, now: Time)
    requires i < |prior| && !prior[i].kind.Boot? && link.kind == prior[i].kind && link.payload == prior[i].payload
    ensures var r := ValidateChainLink(c, e, v, prior + more, link, now); r.Ok? ==> r == Ok(Dedup)
  {
    var all := prior + more;
    assert all[i] == prior[i];
    assert SignedPayloadSeen(link, all);
  }

  /** Over runs: a payload stored once is stored once for ever. */
  lemma ReplayOverRuns(c: Crypto, e: Enclave, s: IngestState, actions: seq<Action>, i: nat,
                       link: ChainLink, newId: Uuid, now: Time)
    requires i < |s.chain| && !s.chain[i].link.kind.Boot?
    requires link.kind == s.chain[i].link.kind && link.payload == s.chain[i].link.payload
    ensures var later := Run(c, e, s, actions);
            Ingest(c, e, later, link, newId, now) == later
            && Step(c, e, later, Submit(link, newId, now)) == later
            && Step(c, e, later, Promote(link, newId, now)) == later
  {
    var later := Run(c, e, s, actions);
    ChainGrows(c, e, s, actions);
    var prior := Links(s.chain);
    var more := Links(later.chain)[|prior|..];
    assert Links(later.chain) == prior + more;
    ReplayNeverAppends(c, e, later.row, prior, more, i, link, now);
  }

  /** Anti-rollback over runs: any two boots of an ingest-built chain agree on `enabled`; with it on they agree
      on `debugAttestation`, and every later one is an upgrade target that trusts a synchronizer. */
  lemma AntiRollbackFixed(c: Crypto, e: Enclave, row: Version, actions: seq<Action>, i: nat, j: nat)
    requires i < j < |Run(c, e, IngestState(row, []), actions).chain|
    requires var chain := Links(Run(c, e, IngestState(row, []), actions).chain);
             chain[i].kind.Boot? && chain[j].kind.Boot?
    ensures var chain := Links(Run(c, e, IngestState(row, []), actions).chain);
            && BootAt(c, chain, i).Some? && BootAt(c, chain, j).Some?
            && var a, b := BootAt(c, chain, i).value.antiRollback, BootAt(c, chain, j).value.antiRollback;
            && a.enabled == b.enabled
            && (a.enabled ==> a.debugAttestation == b.debugAttestation && b.upgradeTarget && b.synchronizerPcrs != [])
  {
    IngestStructured(c, e, row, actions);
  }
}
