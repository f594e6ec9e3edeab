/** The walker and ingest agree: a stored chain is accepted link by link exactly when some disciplined ingest
    run, whose row moves only by promotion, produces it. */
module WalkCompleteness {
  import opened Wrappers
  import opened ChainTypes
  import opened LinkValidation
  import opened LinkAcceptance
  import opened ChainWalk
  import opened ChainIngest

  /** The row moves only by promotion. */
  ghost predicate Disciplined(actions: seq<Action>) {
    forall i :: 0 <= i < |actions| ==> !actions[i].SetRow?
  }

  /** Every position of the walk is an append at that position. */
  ghost predicate AllAppended(c: Crypto, input: WalkInput, links: seq<RecordedLink>, n: nat)
    requires n <= |links|
  {
    n == 0 || (AllAppended(c, input, links, n - 1)
               && OutcomeOf(c, input, Walk(c, input, links, n - 1), links[n - 1]) == Ok(Append(n - 1)))
  }

  /** The walk over a prefix does not depend on what follows. */
  lemma {:induction false} WalkPrefix(c: Crypto, input: WalkInput, links: seq<RecordedLink>,
                                       more: seq<RecordedLink>, n: nat)
    requires n <= |links|
    ensures Walk(c, input, links + more, n) == Walk(c, input, links, n)
    ensures AllAppended(c, input, links + more, n) == AllAppended(c, input, links, n)
  {
    if n == 0 {
    } else {
      WalkPrefix(c, input, links, more, n - 1);
      assert (links + more)[n - 1] == links[n - 1];
    }
  }

  /** The last boot of the chain states the row. */
  ghost predicate RowBooted(c: Crypto, row: Version, chain: seq<ChainLink>) {
    LastBoot(chain) >= 0 && BootVersion(c, chain[LastBoot(chain)]) == Some(row)
  }

  /** The walk so far has rebuilt exactly the ingest state. */
  ghost predicate InStep(c: Crypto, input: WalkInput, s: IngestState) {
    var st := Walk(c, input, s.chain, |s.chain|);
    && AllAppended(c, input, s.chain, |s.chain|)
    && (s.chain == [] ==> st.inForce.None?)
    && (s.chain != [] ==> st.inForce == Some(s.row) && RowBooted(c, s.row, Links(s.chain)))
  }

  lemma PriorIsLinks(c: Crypto, input: WalkInput, chain: seq<RecordedLink>)
    ensures Walk(c, input, chain, |chain|).prior == Links(chain)
  {
  }

  /** What the walker rebuilds for the newest link is what ingest validated it against: `row`, advancing
      exactly when it is a boot. */
  lemma RebuildsRow(c: Crypto, input: WalkInput, s: IngestState, row: Version, link: ChainLink)
    requires InStep(c, input, s)
    requires !link.kind.Boot? ==> row == s.row && !SignedPayloadSeen(link, Links(s.chain)) && s.chain != []
    requires link.kind.Boot? ==> BootVersion(c, link) == Some(row)
    requires link.kind.Boot? && s.chain != [] ==> Promotable(c, input.e, s, link)
    ensures Rebuild(c, input, Walk(c, input, s.chain, |s.chain|), link) == Against(row, link.kind.Boot?)
  {
    hide Walk, AllAppended, RowBooted, SignedPayloadSeen, RebuildPromotion, Promotable, Codec.DecodeCanonical;
    PriorIsLinks(c, input, s.chain);
    var st := Walk(c, input, s.chain, |s.chain|);
    if link.kind.Boot? && s.chain != [] {
      PromotionRebuilds(c, input, s, st, row, link);
    }
  }

  /** A promotable boot is rebuilt against the version it states. */
  lemma PromotionRebuilds(c: Crypto, input: WalkInput, s: IngestState, st: WalkState, row: Version, link: ChainLink)
    requires Promotable(c, input.e, s, link) && BootVersion(c, link) == Some(row)
    requires st.prior == Links(s.chain) && st.prior != [] && st.inForce == Some(s.row)
    ensures Rebuild(c, input, st, link) == Against(row, true)
  {
    hide PromotionTarget, ImagePcrsHex, Codec.DecodeCanonical;
    var p := c.boot.DecodeCanonical(link.payload).value;
    TargetNames(c, st.prior, row);
    assert Rebuild(c, input, st, link) == RebuildPromotion(c, input, st, link, p);
  }

  /** The target of a promotion names the version that was looked for. */
  lemma TargetNames(c: Crypto, prior: seq<ChainLink>, v: Version)
    requires PromotionTarget(c, prior, v).Some?
    ensures var t := PromotionTarget(c, prior, v).value; v == Version(ImagePcrsHex(t.to), t.imageDigest)
  {
    hide ImagePcrsHex, LastExplaining, Codec.DecodeCanonical, SignedPayloadSeen, Revoked;
    assert Explains(c, prior, LastExplaining(c, prior, |prior|, v), v);
  }

  /** A boot appended against an unchanged row is the genesis: any other one deduplicates. */
  lemma PlainBootIsGenesis(c: Crypto, e: Enclave, s: IngestState, link: ChainLink, now: Time)
    requires link.kind.Boot? && (s.chain != [] ==> RowBooted(c, s.row, Links(s.chain)))
    requires var r := ValidateChainLink(c, e, s.row, Links(s.chain), link, now); r.Ok? && r.value.Append?
    ensures s.chain == [] && BootVersion(c, link) == Some(s.row)
  {
    hide ValidateChainLink;
    BootAppendIff(c, e, s.row, Links(s.chain), link, now);
    BootFollowsIff(c, e, Links(s.chain), c.boot.DecodeCanonical(link.payload).value);
  }

  /** One appended link keeps walk and ingest in step. */
  lemma AppendInStep(c: Crypto, input: WalkInput, s: IngestState, next: IngestState,
                     link: ChainLink, newId: Uuid, now: Time)
    requires InStep(c, input, s)
    requires Appends(c, input.e, s.chain, next.chain, next.row, link, newId, now)
    requires Rebuild(c, input, Walk(c, input, s.chain, |s.chain|), link) == Against(next.row, link.kind.Boot?)
    requires !link.kind.Boot? ==> next.row == s.row && s.chain != []
    requires link.kind.Boot? ==> BootVersion(c, link) == Some(next.row)
    ensures InStep(c, input, next)
  {
    hide ValidateChainLink, Rebuild, OutcomeOf, Advances, RowBooted;
    var n, rec := |s.chain|, Stored(link, newId, |s.chain|, now);
    WalkPrefix(c, input, s.chain, [rec], n);
    PriorIsLinks(c, input, s.chain);
    var st := Walk(c, input, s.chain, n);
    StoredStep(c, input, st, link, newId, now, next.row);
    assert next.chain[n] == rec && Walk(c, input, next.chain, n + 1) == WalkStep(c, input, st, rec);
    assert Links(next.chain) == Links(s.chain) + [rec.link];
    RowBootedGrows(c, next.row, Links(s.chain), rec.link);
  }

  /** The walker's step over the stored form of a link ingest appended against `row`. */
  lemma StoredStep(c: Crypto, input: WalkInput, st: WalkState, link: ChainLink, newId: Uuid, now: Time, row: Version)
    requires Rebuild(c, input, st, link) == Against(row, link.kind.Boot?)
    requires ValidateChainLink(c, input.e, row, st.prior, link, now) == Ok(Append(|st.prior|))
    ensures var rec := Stored(link, newId, |st.prior|, now);
            && OutcomeOf(c, input, st, rec) == Ok(Append(|st.prior|))
            && WalkStep(c, input, st, rec).inForce == if link.kind.Boot? then Some(row) else st.inForce
  {
    hide ValidateChainLink, Rebuild;
    StoredRebuild(c, input, st, link, Some(newId), Some(|st.prior|));
    AssignmentIrrelevant(c, input.e, row, st.prior, link, now, Some(newId), Some(|st.prior|));
  }

  lemma StoredRebuild(c: Crypto, input: WalkInput, st: WalkState, link: ChainLink, id: Option<Uuid>,
                      sequence: Option<nat>)
    ensures Rebuild(c, input, st, link.(id := id, sequence := sequence)) == Rebuild(c, input, st, link)
  {
    var stored := link.(id := id, sequence := sequence);
    assert LinkAttestation(c, stored, input.e.debug) == LinkAttestation(c, link, input.e.debug);
    assert SignedPayloadSeen(stored, st.prior) == SignedPayloadSeen(link, st.prior);
  }

  lemma RowBootedGrows(c: Crypto, row: Version, chain: seq<ChainLink>, link: ChainLink)
    requires if link.kind.Boot? then BootVersion(c, link) == Some(row) else RowBooted(c, row, chain)
    ensures RowBooted(c, row, chain + [link])
  {
    var next := chain + [link];
    assert next[..|next| - 1] == chain && next[|next| - 1] == link;
  }

  lemma StepInStep(c: Crypto, input: WalkInput, s: IngestState, a: Action)
    requires InStep(c, input, s) && !a.SetRow?
    ensures InStep(c, input, Step(c, input.e, s, a))
  {
    var next := Step(c, input.e, s, a);
    if next.chain != s.chain {
      var row := StepAppends(c, input.e, s, a);
      if !a.link.kind.Boot? {
        SignedAppend(c, input.e, row, Links(s.chain), a.link, a.now);
      } else if a.Submit? {
        PlainBootIsGenesis(c, input.e, s, a.link, a.now);
      }
      RebuildsRow(c, input, s, row, a.link);
      AppendInStep(c, input, s, next, a.link, a.newId, a.now);
    }
  }

  lemma SignedAppend(c: Crypto, e: Enclave, v: Version, prior: seq<ChainLink>, link: ChainLink, now: Time)
    requires !link.kind.Boot?
    requires var r := ValidateChainLink(c, e, v, prior, link, now); r.Ok? && r.value.Append?
    ensures prior != [] && !SignedPayloadSeen(link, prior)
  {
    hide ValidateChainLink;
    if link.kind.Upgrade? {
      UpgradeAppendIff(c, e, v, prior, link, now);
    } else {
      RevocationAppendIff(c, e, v, prior, link, now);
    }
  }

  lemma {:induction false} RunInStep(c: Crypto, input: WalkInput, row: Version, actions: seq<Action>)
    requires Disciplined(actions)
    ensures InStep(c, input, Run(c, input.e, IngestState(row, []), actions))
  {
    if actions == [] {
    } else {
      RunInStep(c, input, row, actions[..|actions| - 1]);
      StepInStep(c, input, Run(c, input.e, IngestState(row, []), actions[..|actions| - 1]), actions[|actions| - 1]);
    }
  }

  /** Walk completeness: re-walking what a disciplined run stored, from any fallback row and clock, appends every
      link at its own position and ends on the row. */
  lemma WalkComplete(c: Crypto, e: Enclave, row: Version, actions: seq<Action>, now: Time)
    requires Disciplined(actions)
    ensures var s := Run(c, e, IngestState(row, []), actions);
            var input := WalkInput(e, s.row, now);
            && AllAppended(c, input, s.chain, |s.chain|)
            && (s.chain != [] ==> Finish(input, Walk(c, input, s.chain, |s.chain|)).tipMatchesRow)
  {
    var s := Run(c, e, IngestState(row, []), actions);
    RunInStep(c, WalkInput(e, s.row, now), row, actions);
  }

  // ----- The converse: an all-append walk is an ingest run -----

  /** Stored rows: distinct backend ids, the position as sequence, and an ingest time. */
  ghost predicate Storable(links: seq<RecordedLink>) {
    && (forall i :: 0 <= i < |links| ==>
          links[i].link.id.Some? && links[i].link.sequence == Some(i) && links[i].recordedAt.Some?)
    && forall i, j :: 0 <= i < j < |links| ==> links[i].link.id != links[j].link.id
  }

  lemma StorableGrows(chain: seq<RecordedLink>, link: ChainLink, newId: Uuid, now: Time)
    requires Storable(chain) && FreshId(chain, newId)
    ensures Storable(chain + [Stored(link, newId, |chain|, now)])
  {
  }

  lemma {:induction false} RunStorable(c: Crypto, e: Enclave, row: Version, actions: seq<Action>)
    ensures Storable(Run(c, e, IngestState(row, []), actions).chain)
  {
    hide Step, ValidateChainLink;
    if actions == [] {
    } else {
      var before, a := Run(c, e, IngestState(row, []), actions[..|actions| - 1]), actions[|actions| - 1];
      RunStorable(c, e, row, actions[..|actions| - 1]);
      if Step(c, e, before, a).chain != before.chain {
        var row' := StepAppends(c, e, before, a);
        StorableGrows(before.chain, a.link, a.newId, a.now);
      }
    }
  }

  /** The version the walker validated an appended link against, and why it could: ingest could take the same
      step, by submission of a signed link or of the genesis, or by promotion. */
  lemma AppendedPosition(c: Crypto, input: WalkInput, s: IngestState, rec: RecordedLink) returns (row: Version)
    requires InStep(c, input, s)
    requires var st := Walk(c, input, s.chain, |s.chain|); OutcomeOf(c, input, st, rec) == Ok(Append(|s.chain|))
    requires rec.recordedAt.Some?
    ensures ValidateChainLink(c, input.e, row, Links(s.chain), rec.link, rec.recordedAt.value) == Ok(Append(|s.chain|))
    ensures rec.link.kind.Boot? ==> BootVersion(c, rec.link) == Some(row)
    ensures s.chain != [] ==> if rec.link.kind.Boot? then Promotable(c, input.e, s, rec.link) else row == s.row
    ensures s.chain == [] ==> rec.link.kind.Boot?
  {
    var st, link, now := Walk(c, input, s.chain, |s.chain|), rec.link, rec.recordedAt.value;
    PriorIsLinks(c, input, s.chain);
    var ctx := Rebuild(c, input, st, link);
    row := ctx.v;
    if link.kind.Boot? {
      AcceptedBoot(c, input.e, row, st.prior, link, now);
      if s.chain != [] {
        if row == s.row { PlainBootIsGenesis(c, input.e, s, link, now); }
        PromotedPosition(c, input, s, st, link);
      }
    } else {
      SignedAppend(c, input.e, row, st.prior, link, now);
    }
  }

  lemma PromotedPosition(c: Crypto, input: WalkInput, s: IngestState, st: WalkState, link: ChainLink)
    requires s.chain != [] && st.prior == Links(s.chain) && st.inForce == Some(s.row) && link.kind.Boot?
    requires var ctx := Rebuild(c, input, st, link);
             ctx.Against? && ctx.v != s.row && BootVersion(c, link) == Some(ctx.v)
    requires LinkAttestation(c, link, input.e.debug).Some?
    ensures Promotable(c, input.e, s, link)
  {
    var p := c.boot.DecodeCanonical(link.payload).value;
    assert Rebuild(c, input, st, link) == RebuildPromotion(c, input, st, link, p);
  }

  /** The action that reproduces an appended position. */
  lemma ReplayPosition(c: Crypto, input: WalkInput, s: IngestState, rec: RecordedLink) returns (a: Action)
    requires InStep(c, input, s) && s.chain != [] && rec.recordedAt.Some?
    requires OutcomeOf(c, input, Walk(c, input, s.chain, |s.chain|), rec) == Ok(Append(|s.chain|))
    requires rec.link.id.Some? && FreshId(s.chain, rec.link.id.value) && rec.link.sequence == Some(|s.chain|)
    ensures !a.SetRow? && Step(c, input.e, s, a).chain == s.chain + [rec]
  {
    hide ValidateChainLink, Rebuild, OutcomeOf, InStep, LastBoot;
    var row := AppendedPosition(c, input, s, rec);
    var link, id, now := rec.link, rec.link.id.value, rec.recordedAt.value;
    assert Stored(link, id, |s.chain|, now) == rec;
    a := if link.kind.Boot? then Promote(link, id, now) else Submit(link, id, now);
    assert Ingest(c, input.e, s.(row := row), link, id, now).chain == s.chain + [rec];
  }

  lemma ReplayGenesis(c: Crypto, input: WalkInput, rec: RecordedLink) returns (row: Version, a: Action)
    requires rec.recordedAt.Some? && rec.link.id.Some? && rec.link.sequence == Some(0)
    requires OutcomeOf(c, input, START, rec) == Ok(Append(0))
    ensures !a.SetRow? && Run(c, input.e, IngestState(row, []), [a]).chain == [rec]
  {
    row := AppendedPosition(c, input, IngestState(input.row, []), rec);
    a := Submit(rec.link, rec.link.id.value, rec.recordedAt.value);
    assert Links([]) == [];
    assert Stored(rec.link, rec.link.id.value, 0, rec.recordedAt.value) == rec;
    RunSnoc(c, input.e, IngestState(row, []), [], a);
    assert [] + [a] == [a];
  }

  lemma RunSnoc(c: Crypto, e: Enclave, s: IngestState, actions: seq<Action>, a: Action)
    ensures Run(c, e, s, actions + [a]) == Step(c, e, Run(c, e, s, actions), a)
  {
    assert (actions + [a])[..|actions|] == actions;
  }

  lemma LastStorable(before: seq<RecordedLink>, rec: RecordedLink)
    requires Storable(before + [rec])
    ensures Storable(before) && rec.recordedAt.Some? && rec.link.id.Some? && rec.link.sequence == Some(|before|)
    ensures FreshId(before, rec.link.id.value)
  {
    var links := before + [rec];
    assert links[|before|] == rec && forall i :: 0 <= i < |before| ==> links[i] == before[i];
  }

  /** The last link of an all-append walk, after the all-append walk before it. */
  lemma LastPosition(c: Crypto, input: WalkInput, before: seq<RecordedLink>, rec: RecordedLink)
    requires AllAppended(c, input, before + [rec], |before| + 1)
    ensures AllAppended(c, input, before, |before|)
    ensures OutcomeOf(c, input, Walk(c, input, before, |before|), rec) == Ok(Append(|before|))
  {
    WalkPrefix(c, input, before, [rec], |before|);
    assert (before + [rec])[|before|] == rec;
  }

  lemma RealiseNext(c: Crypto, input: WalkInput, before: seq<RecordedLink>, rec: RecordedLink,
                    row: Version, actions: seq<Action>) returns (a: Action)
    requires Storable(before + [rec]) && before != []
    requires OutcomeOf(c, input, Walk(c, input, before, |before|), rec) == Ok(Append(|before|))
    requires Disciplined(actions) && Run(c, input.e, IngestState(row, []), actions).chain == before
    ensures !a.SetRow? && Run(c, input.e, IngestState(row, []), actions + [a]).chain == before + [rec]
  {
    LastStorable(before, rec);
    RunInStep(c, input, row, actions);
    a := ReplayPosition(c, input, Run(c, input.e, IngestState(row, []), actions), rec);
    RunSnoc(c, input.e, IngestState(row, []), actions, a);
  }

  /** Every all-append walk over stored rows is reproduced by a disciplined run. */
  lemma {:induction false} Realise(c: Crypto, input: WalkInput, links: seq<RecordedLink>)
    returns (row: Version, actions: seq<Action>)
    requires Storable(links) && AllAppended(c, input, links, |links|)
    ensures Disciplined(actions) && Run(c, input.e, IngestState(row, []), actions).chain == links
    decreases |links|
  {
    hide OutcomeOf, Step, AllAppended, Storable, FreshId;
    if links == [] {
      row, actions := input.row, [];
    } else {
      var before, rec := links[..|links| - 1], links[|links| - 1];
      assert links == before + [rec];
      LastStorable(before, rec);
      LastPosition(c, input, before, rec);
      if before == [] {
        var a: Action;
        row, a := ReplayGenesis(c, input, rec);
        actions := [a];
      } else {
        row, actions := Realise(c, input, before);
        var a := RealiseNext(c, input, before, rec, row, actions);
        actions := actions + [a];
      }
    }
  }

  /** Walker and ingest agree in both directions: the walk appends every stored link at its position exactly when
      a disciplined ingest run from empty stores these very links. */
  lemma WalkIffIngest(c: Crypto, input: WalkInput, links: seq<RecordedLink>)
    ensures (Storable(links) && AllAppended(c, input, links, |links|))
       <==> exists row, actions :: Disciplined(actions) && Run(c, input.e, IngestState(row, []), actions).chain == links
  {
    if Storable(links) && AllAppended(c, input, links, |links|) {
      var row, actions := Realise(c, input, links);
    }
    forall row, actions | Disciplined(actions) && Run(c, input.e, IngestState(row, []), actions).chain == links
      ensures Storable(links) && AllAppended(c, input, links, |links|)
    {
      RunStorable(c, input.e, row, actions);
      RunInStep(c, input, row, actions);
    }
  }
}
