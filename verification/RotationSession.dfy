/** Between two boots: which keyslots survive, when the on-disk blob still opens the volume, and what a revoke
    undoes. */
module RotationSession {
  import opened Wrappers
  import opened KeyslotDump
  import opened KeyRotation
  import opened RotationSafety

  ghost predicate NoReboot(events: seq<Event>) {
    forall i :: 0 <= i < |events| ==> !events[i].command.Reboot?
  }

  // ----- Slots that existed survive -----

  /** Every slot of `base` is still there with its passphrase, and a pending stash points elsewhere. */
  ghost predicate KeepsSlots(base: map<nat, Bytes>, s: State) {
    && (forall k :: k in base ==> k in s.slots && s.slots[k] == base[k])
    && (s.stash.Some? ==> s.stash.value.slot !in base)
  }

  ghost predicate AllKeep(base: map<nat, Bytes>, states: seq<State>) {
    forall i :: 0 <= i < |states| ==> KeepsSlots(base, states[i])
  }

  lemma EventKeepsSlots(base: map<nat, Bytes>, s: State, e: Event)
    requires KeepsSlots(base, s) && !e.command.Reboot?
    ensures AllKeep(base, Visited(s, e)) && KeepsSlots(base, Next(s, e))
  {
    hide LeastAbsent, Opens;
    if e.command.PrepareUpgrade? {
      var p := e.command.prepare;
      if PrepareReady(s, p) { ChosenSlotIsFree(s, p); }
      assert AllKeep(base, Prepare(s, p).states);
    } else {
      assert AllKeep(base, Revoke(s, e.command.revoke).states);
    }
    KeepCut(base, Effects(s, e.command).states, e.cut);
  }

  lemma KeepCut(base: map<nat, Bytes>, states: seq<State>, cut: nat)
    requires AllKeep(base, states)
    ensures cut <= |states| ==> AllKeep(base, states[..cut])
  {
  }

  /** No slot that was occupied when no upgrade was pending is killed or rewritten by any later prepare or revoke of
      the session, at any point, whatever fails. */
  lemma {:induction false} SlotsSurvive(base: map<nat, Bytes>, s: State, events: seq<Event>)
    requires KeepsSlots(base, s) && NoReboot(events)
    ensures AllKeep(base, Visits(s, events))
    decreases |events|
  {
    hide Effects;
    if events == [] {
    } else {
      EventKeepsSlots(base, s, events[0]);
      SlotsSurvive(base, Next(s, events[0]), events[1..]);
    }
  }

  lemma SessionKeepsSlots(s: State, events: seq<Event>)
    requires s.stash.None? && NoReboot(events)
    ensures AllKeep(s.slots, Visits(s, events))
  {
    SlotsSurvive(s.slots, s, events);
  }

  // ----- When the blob opens the volume -----

  function BlobPass(raw: Raw): Option<Bytes> {
    if raw.Stored? && raw.blob.ciphertext.Some? then Some(raw.blob.ciphertext.value.pass) else None
  }

  /** The passphrase sealed in the on-disk blob opens a slot: the next boot can open the volume. */
  predicate BlobOpens(s: State) {
    BlobPass(s.raw).Some? && Opens(s.slots, BlobPass(s.raw).value)
  }

  /** A revoke killed the prepared slot and has not restored the blob yet. */
  predicate HalfRevoked(s: State) {
    s.stash.Some? && s.stash.value.slot !in s.slots && s.raw != Stored(s.stash.value.preBlob)
  }

  /** The random passphrase is new. */
  ghost predicate FreshPass(s: State, e: Event) {
    e.command.PrepareUpgrade? ==> !Opens(s.slots, e.command.prepare.newPass)
  }

  ghost predicate AllFresh(s: State, events: seq<Event>)
    decreases |events|
  {
    events == [] || (FreshPass(s, events[0]) && AllFresh(Next(s, events[0]), events[1..]))
  }

  /** The session invariant: the pre-upgrade blob opens a slot other than the prepared one; the blob on disk is
      that one, or the prepared one, whose passphrase is in the prepared slot or nowhere. */
  ghost predicate Recoverable(s: State) {
    if s.stash.None? then BlobOpens(s)
    else
      var pre, slot, pass := Stored(s.stash.value.preBlob), s.stash.value.slot, BlobPass(s.raw);
      && BlobPass(pre).Some? && Opens(Kill(s.slots, slot), BlobPass(pre).value)
      && pass.Some?
      && (s.raw != pre ==> !Opens(Kill(s.slots, slot), pass.value) && (slot in s.slots ==> s.slots[slot] == pass.value))
  }

  ghost predicate AllRecoverable(states: seq<State>) {
    forall i :: 0 <= i < |states| ==> Recoverable(states[i])
  }

  lemma OpensSplit(slots: map<nat, Bytes>, slot: nat, pass: Bytes)
    ensures Opens(slots, pass) <==> Opens(Kill(slots, slot), pass) || (slot in slots && slots[slot] == pass)
  {
    if Opens(slots, pass) {
      var k :| k in slots && slots[k] == pass;
      if k != slot { assert k in Kill(slots, slot) && Kill(slots, slot)[k] == pass; }
    }
    if Opens(Kill(slots, slot), pass) { OpensAfterKill(slots, slot, pass); }
  }

  /** In a recoverable state the blob opens the volume if and only if no revoke is half done. */
  lemma BlobOpensIff(s: State)
    requires Recoverable(s)
    ensures BlobOpens(s) <==> !HalfRevoked(s)
  {
    hide Opens, Kill;
    if s.stash.Some? {
      OpensSplit(s.slots, s.stash.value.slot, BlobPass(s.raw).value);
      OpensSplit(s.slots, s.stash.value.slot, BlobPass(Stored(s.stash.value.preBlob)).value);
    }
  }

  lemma PrepareRecoverable(s: State, p: PrepareCall)
    requires Recoverable(s) && !Opens(s.slots, p.newPass)
    ensures AllRecoverable(Prepare(s, p).states)
  {
    hide LeastAbsent, Opens, Kill;
    if PrepareReady(s, p) {
      var slot, pass := LeastAbsent(p.listing, 0), Decrypt(s, s.raw.blob).value;
      ChosenSlotIsFree(s, p);
      OpensAfterAdd(s.slots, slot, p.newPass, pass);
      OpensSplit(s.slots[slot := p.newPass], slot, p.newPass);
    }
  }

  /** Throughout a prepare the blob on disk opens the volume, even if the random passphrase were already in use. */
  lemma PrepareKeepsBlobOpening(s: State, p: PrepareCall)
    requires BlobOpens(s)
    ensures forall x :: x in Prepare(s, p).states ==> BlobOpens(x)
  {
    hide LeastAbsent, Opens, Kill;
    if PrepareReady(s, p) {
      var slot, pass := LeastAbsent(p.listing, 0), Decrypt(s, s.raw.blob).value;
      ChosenSlotIsFree(s, p);
      OpensAfterAdd(s.slots, slot, p.newPass, pass);
      OpensSplit(s.slots[slot := p.newPass], slot, p.newPass);
    }
  }

  lemma RevokeRecoverable(s: State, r: RevokeCall)
    requires Recoverable(s)
    ensures AllRecoverable(Revoke(s, r).states)
  {
    hide Opens, Kill;
    if RevokePass(s, r).Some? {
      var slot, pre := s.stash.value.slot, BlobPass(Stored(s.stash.value.preBlob)).value;
      OpensAfterKill(s.slots, slot, pre);
      assert slot !in Kill(s.slots, slot) by { KillRemoves(s.slots, slot); }
    }
  }

  lemma KillRemoves(slots: map<nat, Bytes>, slot: nat)
    ensures slot !in Kill(slots, slot)
  {
  }

  lemma EventRecoverable(s: State, e: Event)
    requires Recoverable(s) && FreshPass(s, e) && !e.command.Reboot?
    ensures AllRecoverable(Visited(s, e)) && Recoverable(Next(s, e))
  {
    hide Recoverable, Prepare, Revoke;
    if e.command.PrepareUpgrade? {
      PrepareRecoverable(s, e.command.prepare);
    } else {
      RevokeRecoverable(s, e.command.revoke);
    }
  }

  /** Recovery over a session: from a state with no pending upgrade whose blob opens the volume, at every point of
      every run of prepares and revokes the blob on disk opens the volume exactly when no revoke is half done. */
  lemma {:induction false} BlobOpensOverSession(s: State, events: seq<Event>)
    requires Recoverable(s) && NoReboot(events) && AllFresh(s, events)
    ensures AllRecoverable(Visits(s, events))
    ensures forall i :: 0 <= i < |Visits(s, events)| ==>
        (BlobOpens(Visits(s, events)[i]) <==> !HalfRevoked(Visits(s, events)[i]))
    decreases |events|
  {
    hide Recoverable, Effects, BlobOpens, HalfRevoked, FreshPass;
    if events == [] {
    } else {
      EventRecoverable(s, events[0]);
      BlobOpensOverSession(Next(s, events[0]), events[1..]);
    }
    forall i | 0 <= i < |Visits(s, events)|
      ensures BlobOpens(Visits(s, events)[i]) <==> !HalfRevoked(Visits(s, events)[i])
    {
      BlobOpensIff(Visits(s, events)[i]);
    }
  }

  // ----- Over whole runs, reboots included -----

  /** The next boot can open the volume, or formats it. */
  predicate Bootable(s: State) {
    s.slots == map[] || BlobOpens(s)
  }

  /** An unformatted volume has no upgrade pending; a formatted one is recoverable. */
  ghost predicate Ready(s: State) {
    if s.slots == map[] then s.stash.None? else Recoverable(s)
  }

  lemma BootableIff(s: State)
    requires Ready(s)
    ensures Bootable(s) <==> !HalfRevoked(s)
  {
    hide Recoverable, BlobOpens;
    if s.slots == map[] {
    } else {
      BlobOpensIff(s);
    }
  }

  /** Key setup touches neither slots nor stash, keeps the sealed passphrase once there is one, and yields it. */
  lemma InitKeepsPass(s: State, b: BootCall)
    ensures forall x :: x in Init(s, b).states ==> x.slots == s.slots && x.stash == s.stash
    ensures forall x :: x in Init(s, b).states && BlobPass(s.raw).Some? ==> BlobPass(x.raw) == BlobPass(s.raw)
    ensures Init(s, b).pass.Some? ==> BlobPass(Last(s, Init(s, b).states).raw) == Init(s, b).pass
  {
  }

  lemma BootReady(s: State, b: BootCall)
    requires Ready(s) && !HalfRevoked(s)
    ensures forall x :: x in Boot(s, b).states ==> Ready(x)
  {
    hide Init, Kill, BlobPass;
    BootableIff(s);
    var down := s.(stash := None, running := None);
    InitKeepsPass(down, b);
    var init := Init(down, b);
    var ready := Last(down, init.states);
    forall x | x in [down] + init.states ensures Ready(x) && x.slots == s.slots && x.stash.None? { }
    assert ready in [down] + init.states;
    if init.pass.Some? && s.slots == map[] {
      var first: map<nat, Bytes> := map[0 := init.pass.value];
      assert 0 in first && first[0] == init.pass.value;
      assert Opens(first, init.pass.value);
    }
  }

  lemma EventReady(s: State, e: Event)
    requires Ready(s) && FreshPass(s, e) && !HalfRevoked(s)
    ensures (forall x :: x in Visited(s, e) ==> Ready(x)) && Ready(Next(s, e))
  {
    hide Recoverable, HalfRevoked, FreshPass, Boot;
    if e.command.Reboot? {
      BootReady(s, e.command.boot);
    } else if s.slots == map[] {
      NothingToRotate(s, e);
    } else {
      RecoverableEvent(s, e);
    }
  }

  /** Without slots neither prepare nor revoke does anything. */
  lemma NothingToRotate(s: State, e: Event)
    requires s.slots == map[] && s.stash.None? && !e.command.Reboot?
    ensures Visited(s, e) == []
  {
    if e.command.PrepareUpgrade? {
      var p := e.command.prepare;
      assert p.listing != [] ==> p.listing[0] in p.listing;
    }
  }

  lemma RecoverableEvent(s: State, e: Event)
    requires s.slots != map[] && Recoverable(s) && FreshPass(s, e) && !e.command.Reboot?
    ensures (forall x :: x in Visited(s, e) ==> Ready(x)) && Ready(Next(s, e))
  {
    hide Recoverable, Effects, FreshPass;
    EventRecoverable(s, e);
    forall x | x in Visited(s, e) ensures Ready(x) { RecoverableIsFormatted(x); }
  }

  lemma RecoverableIsFormatted(s: State)
    requires Recoverable(s)
    ensures s.slots != map[]
  {
    hide BlobPass;
    if s.stash.Some? {
      var pass := BlobPass(Stored(s.stash.value.preBlob)).value;
      OpensAfterKill(s.slots, s.stash.value.slot, pass);
    }
  }

  ghost predicate AllBootable(states: seq<State>) {
    forall i :: 0 <= i < |states| ==> Bootable(states[i])
  }

  ghost predicate NoHalfRevoke(states: seq<State>) {
    forall i :: 0 <= i < |states| ==> !HalfRevoked(states[i])
  }

  lemma ReadyStates(states: seq<State>)
    requires forall x :: x in states ==> Ready(x)
    ensures AllBootable(states) <==> NoHalfRevoke(states)
  {
    hide Ready, Bootable, HalfRevoked;
    forall i | 0 <= i < |states| ensures Bootable(states[i]) <==> !HalfRevoked(states[i]) { BootableIff(states[i]); }
  }

  /** Recovery over runs: at every state of a run of boots, prepares and revokes the next boot can open the volume or
      formats it, if and only if the run goes through no half-done revoke. */
  lemma {:induction false} BootableOverRuns(s: State, events: seq<Event>)
    requires Ready(s) && AllFresh(s, events)
    ensures AllBootable(Visits(s, events)) <==> NoHalfRevoke(Visits(s, events))
    decreases |events|
  {
    hide Ready, Bootable, HalfRevoked, Effects, FreshPass;
    BootableIff(s);
    if events == [] {
    } else if HalfRevoked(s) {
      assert Visits(s, events)[0] == s;
    } else {
      EventReady(s, events[0]);
      var visited, next := Visited(s, events[0]), Next(s, events[0]);
      BootableOverRuns(next, events[1..]);
      ReadyStates(visited);
      SplitStates([s] + visited, Visits(next, events[1..]));
      SplitStates([s], visited);
    }
  }

  lemma SplitStates(a: seq<State>, b: seq<State>)
    ensures AllBootable(a + b) <==> AllBootable(a) && AllBootable(b)
    ensures NoHalfRevoke(a + b) <==> NoHalfRevoke(a) && NoHalfRevoke(b)
  {
    hide Bootable, HalfRevoked;
    var all := a + b;
    assert forall i :: 0 <= i < |a| ==> all[i] == a[i];
    assert forall i :: 0 <= i < |b| ==> all[|a| + i] == b[i];
    assert forall i :: |a| <= i < |all| ==> all[i] == b[i - |a|];
  }

  /** A reboot of a formatted volume whose blob does not open it brings no version up, whatever happens. */
  lemma StaleBlobCannotBoot(s: State, b: BootCall)
    requires s.slots != map[] && BlobPass(s.raw).Some? && !BlobOpens(s)
    ensures !Boot(s, b).ok && forall x :: x in Boot(s, b).states ==> x.running.None?
  {
    hide Opens;
    var down := s.(stash := None, running := None);
    var init := Init(down, b);
    assert init.pass.Some? ==> init.pass == BlobPass(s.raw);
    assert forall x :: x in init.states ==> x.slots == s.slots && x.running.None?;
  }

  /** Such a state is reachable: a full prepare, then a revoke whose blob write is refused. */
  lemma HalfRevokeReachable(s: State, p: PrepareCall, r: RevokeCall)
    requires Recoverable(s) && PrepareReady(s, p) && !Opens(s.slots, p.newPass)
    requires p.addKey.Succeeded? && p.verify.Succeeded? && p.put.Done?
    requires r == RevokeCall(true, true, Succeeded, true, Refused, true)
    ensures var x := Last(s, Prepare(s, p).states); HalfRevoked(Last(x, Revoke(x, r).states))
  {
    var slot, pass := LeastAbsent(p.listing, 0), Decrypt(s, s.raw.blob).value;
    ChosenSlotIsFree(s, p);
    OpensAfterAdd(s.slots, slot, p.newPass, pass);
    assert Opens(s.slots, pass);
  }

  /** A revoke is not retryable once its slot is gone: every later revoke and prepare of the session does nothing. */
  lemma RevokeIsStuck(s: State, e: Event)
    requires s.stash.Some? && s.stash.value.slot !in s.slots && !e.command.Reboot?
    ensures Visited(s, e) == [] && !Effects(s, e.command).ok
  {
  }

  /** Formatted, with a blob that opens nothing; nothing runs but a version with an unfinished revoke. */
  ghost predicate Bricked(s: State) {
    && s.slots != map[] && BlobPass(s.raw).Some? && !BlobOpens(s)
    && (s.stash.Some? ==> s.stash.value.slot !in s.slots) && (s.running.Some? ==> s.stash.Some?)
  }

  lemma HalfRevokedIsBricked(s: State)
    requires Recoverable(s) && HalfRevoked(s)
    ensures Bricked(s)
  {
    hide BlobOpens;
    BlobOpensIff(s);
    RecoverableIsFormatted(s);
  }

  /** No command of a bricked machine succeeds, and every state it goes through is bricked. */
  lemma EventBricked(s: State, e: Event)
    requires Bricked(s)
    ensures !Effects(s, e.command).ok
    ensures (forall x :: x in Visited(s, e) ==> Bricked(x)) && Bricked(Next(s, e))
  {
    hide Opens, LeastAbsent, Kill;
    match e.command {
      case Reboot(b) => BootBricked(s, b);
      case PrepareUpgrade(_) =>
      case RevokeUpgrade(_) =>
    }
  }

  lemma BootBricked(s: State, b: BootCall)
    requires Bricked(s)
    ensures !Boot(s, b).ok && forall x :: x in Boot(s, b).states ==> Bricked(x)
  {
    hide Opens, Init, BlobPass;
    var down := s.(stash := None, running := None);
    InitKeepsPass(down, b);
    InitStaysDown(down, b);
    var init := Init(down, b);
    assert forall x :: x in init.states ==> Bricked(x);
    assert Bricked(Last(down, init.states));
  }

  /** Key setup starts no version. */
  lemma InitStaysDown(s: State, b: BootCall)
    ensures forall x :: x in Init(s, b).states ==> x.running == s.running
  {
  }

  /** No command of the run succeeds. */
  ghost predicate NoneSucceeds(s: State, events: seq<Event>)
    decreases |events|
  {
    events == [] || (!Effects(s, events[0].command).ok && NoneSucceeds(Next(s, events[0]), events[1..]))
  }

  lemma {:induction false} BrickedForever(s: State, events: seq<Event>)
    requires Bricked(s)
    ensures NoneSucceeds(s, events) && forall x :: x in Visits(s, events) ==> Bricked(x)
    decreases |events|
  {
    hide Bricked, Effects;
    if events == [] {
    } else {
      EventBricked(s, events[0]);
      BrickedForever(Next(s, events[0]), events[1..]);
    }
  }

  /** A half-done revoke is never repaired: in every run from it, reboots included, no boot and no other command
      succeeds and the blob opens nothing at any state. */
  lemma HalfRevokeIsFinal(s: State, events: seq<Event>)
    requires Recoverable(s) && HalfRevoked(s)
    ensures NoneSucceeds(s, events)
    ensures forall x :: x in Visits(s, events) ==> x.slots != map[] && !BlobOpens(x)
  {
    hide BlobOpens, Visits, NoneSucceeds;
    HalfRevokedIsBricked(s);
    BrickedForever(s, events);
  }

  // ----- Round trips -----

  /** A prepare that added and verified its slot, and got as far as the blob write, whether or not that landed. */
  predicate ReachedBlobWrite(s: State, p: PrepareCall) {
    PrepareReady(s, p) && p.addKey.Succeeded? && Opens(s.slots, Decrypt(s, s.raw.blob).value) && p.verify.Succeeded?
  }

  /** Round trip: such a prepare followed by a revoke that reports success is as if neither had happened. */
  lemma PrepareThenRevoke(s: State, p: PrepareCall, r: RevokeCall)
    requires ReachedBlobWrite(s, p)
    ensures var x := Last(s, Prepare(s, p).states); Revoke(x, r).ok ==> Last(x, Revoke(x, r).states) == s
  {
    hide LeastAbsent, Opens, Kill;
    var slot := LeastAbsent(p.listing, 0);
    ChosenSlotIsFree(s, p);
    OpensAfterAdd(s.slots, slot, p.newPass, Decrypt(s, s.raw.blob).value);
  }

  /** And the revoke does report success when its calls work and the new passphrase is not the current one. */
  lemma RevokeSucceeds(s: State, p: PrepareCall)
    requires ReachedBlobWrite(s, p) && p.newPass != Decrypt(s, s.raw.blob).value
    ensures var x := Last(s, Prepare(s, p).states); Revoke(x, RevokeCall(true, true, Succeeded, true, Done, true)).ok
  {
    hide LeastAbsent, Opens, Kill;
    var slot := LeastAbsent(p.listing, 0);
    ChosenSlotIsFree(s, p);
    OpensAfterAdd(s.slots, slot, p.newPass, Decrypt(s, s.raw.blob).value);
  }

  /** A completed prepare is what the next version boots from: it comes up on the new passphrase, retires the old key
      and forgets it. */
  lemma UpgradeBoots(s: State, p: PrepareCall, b: BootCall)
    requires Prepare(s, p).ok && p.newKeyId !in s.scheduled
    requires b.policy && b.decrypt && b.keyfile && b.open && b.schedule.Done? && b.clear.Done?
    ensures var x := Last(s, Prepare(s, p).states);
            var t := Boot(x, b);
            && t.ok && Last(x, t.states).running == Some(p.newPass)
            && Last(x, t.states).scheduled == s.scheduled + {s.raw.blob.kmsKeyId}
            && BlobOpens(Last(x, t.states)) && Last(x, t.states).raw.blob.prevKeyId.None?
  {
    hide LeastAbsent;
    var slot := LeastAbsent(p.listing, 0);
    ChosenSlotIsFree(s, p);
    var x := Last(s, Prepare(s, p).states);
    assert x.slots == s.slots[slot := p.newPass] && slot in x.slots && x.slots[slot] == p.newPass;
    assert Opens(x.slots, p.newPass);
  }
}
