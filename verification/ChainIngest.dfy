/** Ingest as a state machine: the recorded row, the stored chain, and the links submitted to it. */
module ChainIngest {
  import opened Wrappers
  import opened ChainTypes
  import opened LinkValidation
  import opened ChainWalk

  datatype IngestState = IngestState(row: Version, chain: seq<RecordedLink>)

  /** A submitted link; a change of the row; or a promotion, which moves the row to the target of the
      most recent matching unrevoked upgrade and records the target's first boot. */
  datatype Action =
    | Submit(link: ChainLink, newId: Uuid, now: Time)
    | SetRow(row: Version)
    | Promote(link: ChainLink, newId: Uuid, now: Time)

  function Links(chain: seq<RecordedLink>): (r: seq<ChainLink>)
    ensures |r| == |chain| && forall i :: 0 <= i < |chain| ==> r[i] == chain[i].link
  {
    seq(|chain|, i requires 0 <= i < |chain| => chain[i].link)
  }

  predicate FreshId(chain: seq<RecordedLink>, id: Uuid) {
    forall i :: 0 <= i < |chain| ==> chain[i].link.id != Some(id)
  }

  /** The stored form of an appended link: backend id, sequence and ingest time attached. */
  function Stored(link: ChainLink, id: Uuid, sequence: nat, now: Time): RecordedLink {
    RecordedLink(link.(id := Some(id), sequence := Some(sequence)), Some(now))
  }

  /** Store the link exactly when the validator says to append it. */
  function Ingest(c: Crypto, e: Enclave, s: IngestState, link: ChainLink, newId: Uuid, now: Time): (r: IngestState) {
    var outcome := ValidateChainLink(c, e, s.row, Links(s.chain), link, now);
    if FreshId(s.chain, newId) && outcome.Ok? && outcome.value.Append? then
      s.(chain := s.chain + [Stored(link, newId, outcome.value.sequence, now)])
    else s
  }

  /** The boot belongs to a promotion: another PCR0-2 than the row's, explained by an unrevoked upgrade, inside
      its window, and attesting exactly its `to`. */
  predicate Promotable(c: Crypto, e: Enclave, s: IngestState, link: ChainLink) {
    var p := c.boot.DecodeCanonical(link.payload);
    && link.kind.Boot? && p.Some? && p.value.pcrs != s.row.pcrs
    && var target := PromotionTarget(c, Links(s.chain), Version(p.value.pcrs, p.value.imageDigest));
    && target.Some?
    && target.value.validFrom - 60 * SECOND <= p.value.bootedAt
    && p.value.bootedAt <= target.value.validUntil + 60 * SECOND
    && Vouches(c, e.debug, link, target.value.to)
  }

  function BootVersion(c: Crypto, link: ChainLink): (r: Option<Version>) {
    var p := c.boot.DecodeCanonical(link.payload);
    if p.Some? then Some(Version(p.value.pcrs, p.value.imageDigest)) else None
  }

  /** One action. A promotion whose boot is not appended leaves everything as it was. */
  function Step(c: Crypto, e: Enclave, s: IngestState, a: Action): (r: IngestState) {
    match a
    case Submit(link, newId, now) => Ingest(c, e, s, link, newId, now)
    case SetRow(row) => s.(row := row)
    case Promote(link, newId, now) =>
      if !Promotable(c, e, s, link) then s
      else
        var booted := Ingest(c, e, s.(row := BootVersion(c, link).value), link, newId, now);
        if booted.chain == s.chain then s else booted
  }

  function Run(c: Crypto, e: Enclave, s: IngestState, actions: seq<Action>): (r: IngestState) {
    if actions == [] then s
    else Step(c, e, Run(c, e, s, actions[..|actions| - 1]), actions[|actions| - 1])
  }

  /** The only ways a step changes the chain: it appends one validated link under a fresh id. */
  ghost predicate Appends(c: Crypto, e: Enclave, chain: seq<RecordedLink>, next: seq<RecordedLink>, row: Version,
                          link: ChainLink, newId: Uuid, now: Time)
  {
    && FreshId(chain, newId)
    && ValidateChainLink(c, e, row, Links(chain), link, now) == Ok(Append(|chain|))
    && next == chain + [Stored(link, newId, |chain|, now)]
  }

  lemma StepAppends(c: Crypto, e: Enclave, s: IngestState, a: Action) returns (row: Version)
    requires Step(c, e, s, a).chain != s.chain
    ensures !a.SetRow? && Appends(c, e, s.chain, Step(c, e, s, a).chain, row, a.link, a.newId, a.now)
    ensures a.Submit? ==> row == s.row
    ensures Step(c, e, s, a).row == row
  {
    row := if a.Promote? then BootVersion(c, a.link).value else s.row;
  }

  /** A change of the row decides what the next link is judged against, and stores nothing. */
  lemma RowDecides(c: Crypto, e: Enclave, s: IngestState, row: Version, link: ChainLink, newId: Uuid, now: Time)
    requires FreshId(s.chain, newId)
    ensures var next := Run(c, e, s, [SetRow(row), Submit(link, newId, now)]);
            && next.row == row
            && (next.chain == s.chain <==>
                ValidateChainLink(c, e, row, Links(s.chain), link, now) != Ok(Append(|s.chain|)))
  {
    hide ValidateChainLink;
    var first, both := [SetRow(row)], [SetRow(row), Submit(link, newId, now)];
    assert first[..0] == [] && both[..1] == first;
    assert Run(c, e, s, first) == IngestState(row, s.chain);
  }

  lemma {:induction false} ChainGrows(c: Crypto, e: Enclave, s: IngestState, actions: seq<Action>)
    ensures s.chain <= Run(c, e, s, actions).chain
  {
    if actions == [] {
    } else {
      var before, a := Run(c, e, s, actions[..|actions| - 1]), actions[|actions| - 1];
      ChainGrows(c, e, s, actions[..|actions| - 1]);
      if Step(c, e, before, a).chain != before.chain {
        var row := StepAppends(c, e, before, a);
      }
    }
  }
}
