/** When each command succeeds, exactly, and what it leaves: boots that work come up, and a failed prepare that can
    clean up leaves nothing behind. */
module RotationLiveness {
  import opened Wrappers
  import opened KeyslotDump
  import opened KeyRotation
  import opened RotationSafety
  import opened RotationSession

  // ----- Boot -----

  /** The volume is new, or the passphrase opens it. */
  predicate Accepts(slots: map<nat, Bytes>, pass: Bytes) {
    slots == map[] || Opens(slots, pass)
  }

  /** The passphrase a boot works with: the sealed one, or on a first boot the random one. */
  function BootPass(s: State, b: BootCall): Bytes {
    if s.raw.Stored? && s.raw.blob.ciphertext.Some? then s.raw.blob.ciphertext.value.pass else b.random
  }

  /** The passphrase is to be had: sealed under a live key, or freshly sealed. */
  predicate PassAvailable(s: State, b: BootCall)
    requires s.raw.Stored?
  {
    match s.raw.blob.ciphertext
    case None => b.seal && b.put.Done?
    case Some(sealed) => b.decrypt && sealed.key == s.raw.blob.kmsKeyId && sealed.key !in s.scheduled
  }

  /** A boot comes up exactly when a blob of version 1 is stored, its policy passes, its 32-octet passphrase is to be
      had and written, the volume takes it, and a previous key that was scheduled could be cleared. */
  lemma BootIff(s: State, b: BootCall)
    ensures Boot(s, b).ok <==>
            && s.raw.Stored? && s.raw.blob.version == 1 && b.policy && b.keyfile && b.open
            && PassAvailable(s, b) && |BootPass(s, b)| == 32 && Accepts(s.slots, BootPass(s, b))
            && (s.raw.blob.prevKeyId.Some? && b.schedule.Done? ==> b.clear.Done?)
  {
    hide Opens;
  }

  /** What a boot that came up leaves: running on the passphrase, a new volume formatted with it and no other slot
      touched, the passphrase sealed in the blob, and the previous key scheduled and forgotten as far as the calls
      went. */
  lemma BootResult(s: State, b: BootCall)
    requires Boot(s, b).ok
    ensures var x, pass, blob := Last(s, Boot(s, b).states), BootPass(s, b), s.raw.blob;
            && x.running == Some(pass) && x.stash.None?
            && x.slots == (if s.slots == map[] then map[0 := pass] else s.slots) && Opens(x.slots, pass)
            && x.raw == Stored(blob.(ciphertext := Some(Sealed(blob.kmsKeyId, pass)),
                                     prevKeyId := if b.schedule.Done? then None else blob.prevKeyId))
            && x.scheduled == s.scheduled +
                 (if blob.prevKeyId.Some? && !b.schedule.Refused? then {blob.prevKeyId.value} else {})
  {
    hide Opens;
    var pass := BootPass(s, b);
    if s.slots == map[] { FormattedOpens(pass); }
  }

  lemma FormattedOpens(pass: Bytes)
    ensures Opens(map[0 := pass], pass)
  {
    var slots: map<nat, Bytes> := map[0 := pass];
    assert 0 in slots && slots[0] == pass;
  }

  /** A boot that does not come up leaves no version running, every slot as it was, and the sealed passphrase; on a
      first boot it may have sealed the random one. */
  lemma FailedBootKeeps(s: State, b: BootCall)
    requires !Boot(s, b).ok
    ensures var x := Last(s, Boot(s, b).states);
            && x.running.None? && x.stash.None? && x.slots == s.slots
            && (BlobPass(x.raw) == BlobPass(s.raw) || (BlobPass(s.raw).None? && BlobPass(x.raw) == Some(b.random)))
            && x.scheduled <= s.scheduled +
                 (if s.raw.Stored? && s.raw.blob.prevKeyId.Some? then {s.raw.blob.prevKeyId.value} else {})
  {
    hide Opens;
  }

  /** Every call of the boot works, whatever the deletion of a previous key does. */
  predicate Works(b: BootCall) {
    b.policy && b.seal && b.put.Done? && b.decrypt && b.keyfile && b.clear.Done? && b.open && |b.random| == 32
  }

  /** Refusing to schedule the previous key never stops a boot. */
  lemma RefusedScheduleBoots(s: State, b: BootCall)
    requires Boot(s, b).ok
    ensures Boot(s, b.(schedule := Refused)).ok
  {
    hide Boot;
    BootIff(s, b);
    BootIff(s, b.(schedule := Refused));
  }

  /** A blob of this version whose passphrase, if sealed, is sealed under its own key. */
  predicate Proper(blob: KeyBlob) {
    blob.version == 1 &&
    (blob.ciphertext.Some? ==> blob.ciphertext.value.key == blob.kmsKeyId && |blob.ciphertext.value.pass| == 32)
  }

  /** With a sealed blob under a live key and working calls, the boot comes up exactly when the volume is bootable. */
  lemma SealedBootIff(s: State, b: BootCall)
    requires s.raw.Stored? && Proper(s.raw.blob) && s.raw.blob.ciphertext.Some? && Works(b)
    requires s.raw.blob.kmsKeyId !in s.scheduled
    ensures Boot(s, b).ok <==> Bootable(s)
    ensures Boot(s, b).ok ==> Last(s, Boot(s, b).states).running == BlobPass(s.raw)
  {
    hide Boot, Opens;
    BootIff(s, b);
    if Boot(s, b).ok { BootResult(s, b); }
  }

  /** The first boot of a provisioned volume formats it with the random passphrase, seals that in the blob and runs. */
  lemma FirstBoot(s: State, b: BootCall)
    requires s.raw.Stored? && Proper(s.raw.blob) && s.raw.blob.ciphertext.None? && s.slots == map[] && Works(b)
    ensures var x := Last(s, Boot(s, b).states);
            && Boot(s, b).ok && x.slots == map[0 := b.random] && x.running == Some(b.random)
            && BlobPass(x.raw) == Some(b.random) && BlobOpens(x)
  {
    hide Boot, Opens;
    BootIff(s, b);
    BootResult(s, b);
  }

  // ----- Boots over whole runs -----

  /** Every stored and stashed blob is proper, and a stashed one is sealed. */
  predicate BlobsProper(s: State) {
    s.raw.Stored? && Proper(s.raw.blob) &&
    (s.stash.Some? ==> Proper(s.stash.value.preBlob) && s.stash.value.preBlob.ciphertext.Some?)
  }

  /** Safe, ready and with proper blobs: what holds from provisioning on, up to a half-done revoke. */
  ghost predicate Fit(s: State) {
    Safe(s) && Ready(s) && BlobsProper(s)
  }

  lemma ProvisionedFit(key: KeyId)
    ensures Fit(State(map[], Stored(KeyBlob(1, key, None, None)), None, {}, None))
  {
    ProvisionedSafe(key);
  }

  lemma FitBoots(s: State, b: BootCall)
    requires Fit(s) && Works(b)
    ensures Boot(s, b).ok <==> !HalfRevoked(s)
  {
    hide Boot, HalfRevoked, Opens, RunningOpens, Recoverable;
    BootableIff(s);
    if s.raw.blob.ciphertext.Some? {
      SealedBootIff(s, b);
    } else {
      UnsealedIsNew(s);
      FirstBoot(s, b);
    }
  }

  lemma UnsealedIsNew(s: State)
    requires Ready(s) && BlobPass(s.raw).None?
    ensures s.slots == map[]
  {
    hide Opens, Kill;
  }

  lemma EventProper(s: State, e: Event)
    requires BlobsProper(s)
    ensures (forall x :: x in Visited(s, e) ==> BlobsProper(x)) && BlobsProper(Next(s, e))
  {
    hide Opens, LeastAbsent, Kill;
    match e.command {
      case PrepareUpgrade(p) => assert forall x :: x in Prepare(s, p).states ==> BlobsProper(x);
      case RevokeUpgrade(r) => assert forall x :: x in Revoke(s, r).states ==> BlobsProper(x);
      case Reboot(b) => BootProper(s, b);
    }
  }

  lemma BootProper(s: State, b: BootCall)
    requires BlobsProper(s)
    ensures forall x :: x in Boot(s, b).states ==> BlobsProper(x)
  {
    hide Opens;
    var down := s.(stash := None, running := None);
    assert forall x :: x in Init(down, b).states ==> BlobsProper(x);
    assert BlobsProper(Last(down, Init(down, b).states));
  }

  lemma EventFit(s: State, e: Event)
    requires Fit(s) && Admissible(s, e) && FreshPass(s, e) && !HalfRevoked(s)
    ensures (forall x :: x in Visited(s, e) ==> Fit(x)) && Fit(Next(s, e))
  {
    hide Safe, Ready, BlobsProper, Effects, Admissible, FreshPass, HalfRevoked;
    EventSafe(s, e);
    EventReady(s, e);
    EventProper(s, e);
  }

  ghost predicate AllBoot(states: seq<State>, b: BootCall) {
    forall i :: 0 <= i < |states| ==> Boot(states[i], b).ok
  }

  lemma FitStates(states: seq<State>, b: BootCall)
    requires Works(b) && forall x :: x in states ==> Fit(x)
    ensures AllBoot(states, b) <==> NoHalfRevoke(states)
  {
    hide Fit, Boot, HalfRevoked;
    forall i | 0 <= i < |states| ensures Boot(states[i], b).ok <==> !HalfRevoked(states[i]) { FitBoots(states[i], b); }
  }

  /** Boots over runs: in every run of boots, prepares and revokes from provisioning on, a boot whose calls work comes
      up at every state if and only if the run goes through no half-done revoke. */
  lemma {:induction false} BootsOverRuns(s: State, events: seq<Event>, b: BootCall)
    requires Fit(s) && AllAdmissible(s, events) && AllFresh(s, events) && Works(b)
    ensures AllBoot(Visits(s, events), b) <==> NoHalfRevoke(Visits(s, events))
    decreases |events|
  {
    hide Fit, Boot, HalfRevoked, Effects, FreshPass, Admissible, Works;
    FitBoots(s, b);
    if events == [] {
    } else if HalfRevoked(s) {
      assert Visits(s, events)[0] == s;
    } else {
      EventFit(s, events[0]);
      var visited, next := Visited(s, events[0]), Next(s, events[0]);
      BootsOverRuns(next, events[1..], b);
      FitStates(visited, b);
      SplitBoots([s] + visited, Visits(next, events[1..]), b);
      SplitBoots([s], visited, b);
    }
  }

  lemma SplitBoots(x: seq<State>, y: seq<State>, b: BootCall)
    ensures AllBoot(x + y, b) <==> AllBoot(x, b) && AllBoot(y, b)
    ensures NoHalfRevoke(x + y) <==> NoHalfRevoke(x) && NoHalfRevoke(y)
  {
    hide Boot, HalfRevoked;
    var all := x + y;
    assert forall i :: 0 <= i < |x| ==> all[i] == x[i];
    assert forall i :: 0 <= i < |y| ==> all[|x| + i] == y[i];
    assert forall i :: |x| <= i < |all| ==> all[i] == y[i - |x|];
  }

  // ----- Prepare -----

  /** Slot `n` is free and every smaller one is taken. */
  predicate IsFirstFree(slots: map<nat, Bytes>, n: nat) {
    n !in slots && forall m :: 0 <= m < n ==> m in slots
  }

  /** A prepare succeeds exactly when a version runs with no upgrade pending, its blob's 32-octet passphrase can be
      decrypted and opens the volume, the new key is another one, and the slot listing and every call are good. Then the
      new passphrase is in the first free slot and in the blob under the new key, the old key is to be retired, and the
      stash can undo it. */
  lemma PrepareIff(s: State, p: PrepareCall)
    ensures Prepare(s, p).ok <==>
            && s.running.Some? && s.stash.None? && s.raw.Stored? && s.raw.blob.version == 1
            && s.raw.blob.ciphertext.Some? && s.raw.blob.ciphertext.value.key == s.raw.blob.kmsKeyId
            && s.raw.blob.kmsKeyId !in s.scheduled && |s.raw.blob.ciphertext.value.pass| == 32
            && Opens(s.slots, s.raw.blob.ciphertext.value.pass)
            && p.newKeyId != "" && p.newKeyId != s.raw.blob.kmsKeyId && |p.newPass| == 32
            && p.listing != [] && (forall k: nat :: k in p.listing <==> k in s.slots)
            && p.preflight && p.addKey.Succeeded? && p.verify.Succeeded? && p.put.Done?
    ensures Prepare(s, p).ok ==>
            var x, blob := Last(s, Prepare(s, p).states), s.raw.blob;
            && x.stash.Some? && x.stash.value.preBlob == blob && IsFirstFree(s.slots, x.stash.value.slot)
            && x.slots == s.slots[x.stash.value.slot := p.newPass]
            && x.raw == Stored(KeyBlob(1, p.newKeyId, Some(Sealed(p.newKeyId, p.newPass)), Some(blob.kmsKeyId)))
            && x.scheduled == s.scheduled && x.running == s.running
  {
    hide Opens, Kill;
    if PrepareReady(s, p) { ChosenSlotIsFree(s, p); }
  }

  /** A prepare whose key could not be added or verified, and whose clean-up works, is as if it had never run. */
  lemma FailedPrepareUndone(s: State, p: PrepareCall)
    requires !p.addKey.SpawnFailed? && !p.verify.SpawnFailed? && p.kill && p.unstash
    requires p.addKey.Failed? || p.verify.Failed?
    ensures Last(s, Prepare(s, p).states) == s && !Prepare(s, p).ok
  {
    hide Opens;
    if PrepareReady(s, p) {
      ChosenSlotIsFree(s, p);
      var slot := LeastAbsent(p.listing, 0);
      assert Kill(s.slots[slot := p.newPass], slot) == s.slots;
    }
  }

  /** A prepare whose tool could not be started leaves what it had done so far: the stash, and once the key was added
      also its slot. */
  lemma InterruptedPrepare(s: State, p: PrepareCall)
    requires PrepareReady(s, p) && Opens(s.slots, s.raw.blob.ciphertext.value.pass)
    requires p.addKey.SpawnFailed? || (p.addKey.Succeeded? && p.verify.SpawnFailed?)
    ensures var x := Last(s, Prepare(s, p).states);
            && !Prepare(s, p).ok && x.stash.Some? && IsFirstFree(s.slots, x.stash.value.slot)
            && x == s.(stash := Some(Stash(s.raw.blob, x.stash.value.slot)),
                       slots := if p.addKey.Succeeded? then s.slots[x.stash.value.slot := p.newPass] else s.slots)
  {
    hide Opens, Kill;
    ChosenSlotIsFree(s, p);
  }

  // ----- Revoke -----

  /** A revoke succeeds exactly when a version runs with an upgrade pending, the pre-upgrade passphrase can be decrypted
      and opens a slot other than the prepared one, the prepared slot is there and was not seen to open with it, and
      every call works. Then the prepared slot is gone, the old blob is back, and nothing is pending. */
  lemma RevokeIff(s: State, r: RevokeCall)
    ensures Revoke(s, r).ok <==>
            && s.running.Some? && s.stash.Some?
            && var pre, slot := s.stash.value.preBlob, s.stash.value.slot;
            && pre.ciphertext.Some? && pre.ciphertext.value.key == pre.kmsKeyId && pre.kmsKeyId !in s.scheduled
            && slot in s.slots && (r.liveTest ==> s.slots[slot] != pre.ciphertext.value.pass)
            && Opens(s.slots - {slot}, pre.ciphertext.value.pass)
            && r.preflight && r.kill.Succeeded? && r.openTest && r.put.Done? && r.unstash
    ensures Revoke(s, r).ok ==>
            Last(s, Revoke(s, r).states) ==
            s.(slots := s.slots - {s.stash.value.slot}, raw := Stored(s.stash.value.preBlob), stash := None)
  {
    hide Opens;
    if s.stash.Some? { KillIs(s.slots, s.stash.value.slot); }
  }

  lemma KillIs(slots: map<nat, Bytes>, slot: nat)
    ensures Kill(slots, slot) == slots - {slot}
  {
  }

  /** A revoke touches the slots only to remove the prepared one, never the one its test saw open with the pre-upgrade
      passphrase, and only while another slot opens with it. */
  lemma RevokeKillsPreparedOnly(s: State, r: RevokeCall)
    ensures forall x :: x in Revoke(s, r).states ==>
            && s.stash.Some? && s.stash.value.preBlob.ciphertext.Some? && s.stash.value.slot in s.slots
            && x.slots == s.slots - {s.stash.value.slot}
            && (r.liveTest ==> s.slots[s.stash.value.slot] != s.stash.value.preBlob.ciphertext.value.pass)
            && Opens(x.slots, s.stash.value.preBlob.ciphertext.value.pass)
  {
    hide Opens;
    if s.stash.Some? { KillIs(s.slots, s.stash.value.slot); }
  }
}
