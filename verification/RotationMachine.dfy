/** The key-management commands as they run: field by field, effect by effect. Each is proved to go through exactly the
    states of its specification, and every state a machine has ever been in stays safe. */
module RotationMachine {
  import opened Wrappers
  import opened KeyslotDump
  import opened KeyRotation
  import opened RotationSafety

  class Machine {
    var slots: map<nat, Bytes>
    var raw: Raw
    var stash: Option<Stash>
    var scheduled: set<KeyId>
    var running: Option<Bytes>
    /** Every state since creation, in order. */
    ghost var log: seq<State>

    function Now(): State
      reads this
    {
      State(slots, raw, stash, scheduled, running)
    }

    /** The log is complete: its last entry is the present. */
    ghost predicate Valid()
      reads this
    {
      log != [] && log[|log| - 1] == Now()
    }

    /** A volume as the backend provisions it: a blob naming the first KMS key, nothing sealed yet. */
    constructor (key: KeyId)
      ensures Valid() && Now() == State(map[], Stored(KeyBlob(BLOB_VERSION, key, None, None)), None, {}, None)
      ensures log == [Now()] && Safe(Now())
    {
      slots, raw, stash := map[], Stored(KeyBlob(BLOB_VERSION, key, None, None)), None;
      scheduled, running := {}, None;
      log := [State(map[], Stored(KeyBlob(BLOB_VERSION, key, None, None)), None, {}, None)];
    }

    method PrepareUpgrade(p: PrepareCall) returns (ok: bool)
      requires Valid()
      modifies this
      ensures Valid() && log == old(log) + Prepare(old(Now()), p).states
      ensures Now() == Last(old(Now()), Prepare(old(Now()), p).states)
      ensures ok == Prepare(old(Now()), p).ok
    {
      hide LeastAbsent, Opens, Kill, PreparedBlob, Lists;
      ok := false;
      if !PrepareReady(Now(), p) { return; }
      var blob := raw.blob;
      var pass := blob.ciphertext.value.pass;
      var newKeyslot := FirstFreeFromOccupied(p.listing);
      stash := Some(Stash(blob, newKeyslot));
      log := log + [Now()];
      if p.addKey.SpawnFailed? { return; }
      if p.addKey.Failed? || !Opens(slots, pass) {
        if p.unstash { stash := None; }
        log := log + [Now()];
        return;
      }
      slots := slots[newKeyslot := p.newPass];
      log := log + [Now()];
      if p.verify.SpawnFailed? { return; }
      if p.verify.Failed? {
        if p.kill { slots := Kill(slots, newKeyslot); }
        log := log + [Now()];
        if p.unstash { stash := None; }
        log := log + [Now()];
        return;
      }
      if p.put.Refused? { return; }
      raw := Stored(PreparedBlob(p, blob));
      log := log + [Now()];
      ok := p.put.Done?;
    }

    method RevokeUpgrade(r: RevokeCall) returns (ok: bool)
      requires Valid()
      modifies this
      ensures Valid() && log == old(log) + Revoke(old(Now()), r).states
      ensures Now() == Last(old(Now()), Revoke(old(Now()), r).states)
      ensures ok == Revoke(old(Now()), r).ok
    {
      hide Opens, Kill;
      ok := false;
      if RevokePass(Now(), r).None? { return; }
      var pre, slot := stash.value.preBlob, stash.value.slot;
      var pass := pre.ciphertext.value.pass;
      if r.liveTest && slot in slots && slots[slot] == pass { return; }
      if !r.kill.Succeeded? || slot !in slots || !Opens(Kill(slots, slot), pass) { return; }
      slots := Kill(slots, slot);
      log := log + [Now()];
      if !r.openTest || r.put.Refused? { return; }
      raw := Stored(pre);
      log := log + [Now()];
      if r.put.AckLost? || !r.unstash { return; }
      stash := None;
      log := log + [Now()];
      ok := true;
    }

    /** Schedule the blob's previous key for deletion and drop it from the blob. */
    method RetirePrevious(b: BootCall, blob: KeyBlob) returns (ok: bool)
      requires Valid() && raw == Stored(blob)
      modifies this
      ensures forall pass :: var t := Retire(old(Now()), b, blob, pass);
          log == old(log) + t.states && Now() == Last(old(Now()), t.states) && (ok <==> t.pass.Some?)
      ensures Valid()
    {
      ok := true;
      if blob.prevKeyId.None? || b.schedule.Refused? { return; }
      scheduled := scheduled + {blob.prevKeyId.value};
      log := log + [Now()];
      if b.schedule.AckLost? { return; }
      ok := b.clear.Done?;
      if b.clear.Refused? { return; }
      raw := Stored(blob.(prevKeyId := None));
      log := log + [Now()];
    }

    /** Bootstrap or recover the passphrase. */
    method InitKeys(b: BootCall) returns (pass: Option<Bytes>)
      requires Valid()
      modifies this
      ensures Valid() && log == old(log) + Init(old(Now()), b).states
      ensures Now() == Last(old(Now()), Init(old(Now()), b).states)
      ensures pass == Init(old(Now()), b).pass
    {
      hide Retire;
      pass := None;
      if !raw.Stored? || raw.blob.version != BLOB_VERSION || !b.policy { return; }
      var blob := raw.blob;
      var recovered: Bytes;
      if blob.ciphertext.None? {
        if !b.seal || b.put.Refused? || |b.random| != PASSPHRASE_BYTES { return; }
        blob := blob.(ciphertext := Some(Sealed(blob.kmsKeyId, b.random)));
        raw := Stored(blob);
        log := log + [Now()];
        if b.put.AckLost? || !b.keyfile { return; }
        recovered := b.random;
      } else {
        var plain := Decrypt(Now(), blob);
        if !b.decrypt || plain.None? || |plain.value| != PASSPHRASE_BYTES || !b.keyfile { return; }
        recovered := plain.value;
      }
      ghost var mid, before := Now(), log;
      var ok := RetirePrevious(b, blob);
      ghost var t := Retire(mid, b, blob, recovered);
      assert log == before + t.states && Now() == Last(mid, t.states) && (ok <==> t.pass.Some?);
      assert t.pass.Some? ==> t.pass.value == recovered by { RetireKeepsPass(mid, b, blob, recovered); }
      pass := if ok then Some(recovered) else None;
    }

    /** A reboot clears tmpfs and stops the old version, sets the keys up, then formats or opens the volume. */
    method Reboot(b: BootCall) returns (ok: bool)
      requires Valid()
      modifies this
      ensures Valid() && log == old(log) + Boot(old(Now()), b).states
      ensures Now() == Last(old(Now()), Boot(old(Now()), b).states)
      ensures ok == Boot(old(Now()), b).ok
    {
      hide Init, Opens;
      stash, running := None, None;
      log := log + [Now()];
      ghost var down, start := Now(), log;
      var pass := InitKeys(b);
      ghost var init := Init(down, b);
      assert log == start + init.states && Now() == Last(down, init.states);
      ok := false;
      if pass.None? || !b.open { return; }
      if slots == map[] {
        slots := map[0 := pass.value];
      } else if !Opens(slots, pass.value) {
        return;
      }
      running := pass;
      log := log + [Now()];
      ok := true;
    }

    /** Any command: the machine goes through its effects, and a history of safe states stays one. */
    method Perform(c: Command) returns (ok: bool)
      requires Valid()
      modifies this
      ensures Valid() && log == old(log) + Effects(old(Now()), c).states && ok == Effects(old(Now()), c).ok
      ensures Now() == Last(old(Now()), Effects(old(Now()), c).states)
      ensures old(AllSafe(log)) && Admissible(old(Now()), Event(c, 0)) ==> AllSafe(log)
    {
      hide AllSafe, Safe, Prepare, Revoke, Boot, Admissible;
      CommandKeepsSafe(log, Now(), c);
      match c {
        case PrepareUpgrade(p) => ok := this.PrepareUpgrade(p);
        case RevokeUpgrade(r) => ok := this.RevokeUpgrade(r);
        case Reboot(b) => ok := this.Reboot(b);
      }
    }
  }

  lemma CommandKeepsSafe(log: seq<State>, s: State, c: Command)
    requires log != [] && log[|log| - 1] == s
    ensures AllSafe(log) && Admissible(s, Event(c, 0)) ==> AllSafe(log + Effects(s, c).states)
  {
    hide Safe, Prepare, Revoke, Boot;
    if AllSafe(log) && Admissible(s, Event(c, 0)) {
      match c {
        case PrepareUpgrade(p) => PrepareSafe(s, p);
        case RevokeUpgrade(r) => RevokeSafe(s, r);
        case Reboot(b) => BootSafe(s, b);
      }
    }
  }

  lemma RetireKeepsPass(s: State, b: BootCall, blob: KeyBlob, pass: Bytes)
    ensures Retire(s, b, blob, pass).pass.Some? ==> Retire(s, b, blob, pass).pass.value == pass
  {
  }
}
