/** Safety of key rotation over every run of boots, prepares and revokes, with any call failing and any command cut
    short at any point. */
module RotationSafety {
  import opened Wrappers
  import opened KeyslotDump
  import opened KeyRotation

  // ----- Invariants of single states -----

  /** The key a blob names is alive and is not the one it retires. */
  ghost predicate KeyAlive(s: State, b: KeyBlob) {
    b.kmsKeyId !in s.scheduled && b.prevKeyId != Some(b.kmsKeyId)
  }

  /** Neither the on-disk blob nor the stashed one names a key scheduled for deletion. */
  ghost predicate KeysAlive(s: State) {
    (s.raw.Stored? ==> KeyAlive(s, s.raw.blob)) && (s.stash.Some? ==> KeyAlive(s, s.stash.value.preBlob))
  }

  /** The passphrase the running version booted with opens a slot, and not only the one a revoke would kill. */
  ghost predicate RunningOpens(s: State) {
    && (s.running.Some? ==> Opens(s.slots, s.running.value))
    && (s.stash.Some? ==> s.running.Some? && Opens(Kill(s.slots, s.stash.value.slot), s.running.value))
  }

  ghost predicate Safe(s: State) {
    KeysAlive(s) && RunningOpens(s)
  }

  /** A prepare names a key that is not scheduled for deletion. */
  ghost predicate Admissible(s: State, e: Event) {
    e.command.PrepareUpgrade? ==> e.command.prepare.newKeyId !in s.scheduled
  }

  ghost predicate AllAdmissible(s: State, events: seq<Event>)
    decreases |events|
  {
    events == [] || (Admissible(s, events[0]) && AllAdmissible(Next(s, events[0]), events[1..]))
  }

  ghost predicate AllSafe(states: seq<State>) {
    forall i :: 0 <= i < |states| ==> Safe(states[i])
  }

  // ----- Slots -----

  lemma OpensAfterAdd(slots: map<nat, Bytes>, slot: nat, added: Bytes, pass: Bytes)
    requires slot !in slots && Opens(slots, pass)
    ensures Opens(slots[slot := added], pass) && Opens(Kill(slots[slot := added], slot), pass)
    ensures Kill(slots[slot := added], slot) == slots && Opens(Kill(slots, slot), pass)
  {
    var k :| k in slots && slots[k] == pass;
    var more := slots[slot := added];
    assert k in more && more[k] == pass;
    assert Kill(more, slot) == slots && Kill(slots, slot) == slots;
  }

  lemma OpensAfterKill(slots: map<nat, Bytes>, slot: nat, pass: Bytes)
    requires Opens(Kill(slots, slot), pass)
    ensures Opens(slots, pass) && Kill(Kill(slots, slot), slot) == Kill(slots, slot)
  {
    var k :| k in Kill(slots, slot) && Kill(slots, slot)[k] == pass;
    assert k in slots && slots[k] == pass;
  }

  /** The slot prepare picks is free. */
  lemma ChosenSlotIsFree(s: State, p: PrepareCall)
    requires Lists(p.listing, s.slots)
    ensures LeastAbsent(p.listing, 0) !in s.slots
  {
  }

  // ----- Each command keeps every intermediate state safe -----

  lemma PrepareSafe(s: State, p: PrepareCall)
    requires Safe(s) && p.newKeyId !in s.scheduled
    ensures AllSafe(Prepare(s, p).states)
  {
    hide LeastAbsent, Kill, Opens;
    if PrepareReady(s, p) {
      ChosenSlotIsFree(s, p);
      OpensAfterAdd(s.slots, LeastAbsent(p.listing, 0), p.newPass, s.running.value);
    }
  }

  lemma RevokeSafe(s: State, r: RevokeCall)
    requires Safe(s)
    ensures AllSafe(Revoke(s, r).states)
  {
    hide Kill, Opens;
    if RevokePass(s, r).Some? {
      OpensAfterKill(s.slots, s.stash.value.slot, s.running.value);
    }
  }

  lemma RetireSafe(s: State, b: BootCall, blob: KeyBlob, pass: Bytes)
    requires Safe(s) && s.stash.None? && s.running.None? && s.raw == Stored(blob)
    ensures AllSafe(Retire(s, b, blob, pass).states)
    ensures forall x :: x in Retire(s, b, blob, pass).states ==> x.stash.None? && x.running.None?
  {
  }

  lemma InitSafe(s: State, b: BootCall)
    requires Safe(s) && s.stash.None? && s.running.None?
    ensures AllSafe(Init(s, b).states)
    ensures forall x :: x in Init(s, b).states ==> x.stash.None? && x.running.None?
  {
    hide Retire;
    if s.raw.Stored? && Init(s, b).states != [] {
      var blob := s.raw.blob;
      if blob.ciphertext.None? {
        var sealed := blob.(ciphertext := Some(Sealed(blob.kmsKeyId, b.random)));
        RetireSafe(s.(raw := Stored(sealed)), b, sealed, b.random);
      } else {
        RetireSafe(s, b, blob, Decrypt(s, blob).value);
      }
    }
  }

  lemma BootSafe(s: State, b: BootCall)
    requires Safe(s)
    ensures AllSafe(Boot(s, b).states)
  {
    hide Init;
    var down := s.(stash := None, running := None);
    InitSafe(down, b);
    var init := Init(down, b);
    var ready := Last(down, init.states);
    assert Safe(ready) && ready.stash.None?;
    if init.pass.Some? {
      var first: map<nat, Bytes> := map[0 := init.pass.value];
      assert 0 in first && first[0] == init.pass.value;
      assert Opens(first, init.pass.value);
    }
  }

  lemma EventSafe(s: State, e: Event)
    requires Safe(s) && Admissible(s, e)
    ensures AllSafe(Visited(s, e)) && Safe(Next(s, e))
  {
    hide Safe, Prepare, Revoke, Boot;
    match e.command {
      case PrepareUpgrade(p) => PrepareSafe(s, p);
      case RevokeUpgrade(r) => RevokeSafe(s, r);
      case Reboot(b) => BootSafe(s, b);
    }
  }

  /** Rotation and deletion safety over runs: at every point of every run the running version's passphrase opens a
      slot, and no blob on disk or in the stash names a key that is scheduled for deletion. */
  lemma {:induction false} RunSafe(s: State, events: seq<Event>)
    requires Safe(s) && AllAdmissible(s, events)
    ensures AllSafe(Visits(s, events))
    decreases |events|
  {
    hide Safe, Effects, Admissible;
    if events == [] {
    } else {
      EventSafe(s, events[0]);
      RunSafe(Next(s, events[0]), events[1..]);
    }
  }

  /** A freshly provisioned enclave, as the backend leaves it, is safe. */
  lemma ProvisionedSafe(key: KeyId)
    ensures Safe(State(map[], Stored(KeyBlob(BLOB_VERSION, key, None, None)), None, {}, None))
  {
  }
}
