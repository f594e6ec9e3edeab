/** LUKS key rotation as a machine whose every external effect is a visible step: what boot, prepare-upgrade and
    revoke-upgrade do to the keyslots, the on-disk key blob, the rollback stash and the scheduled KMS keys. */
module KeyRotation {
  import opened Wrappers
  import opened KeyslotDump

  type KeyId = string

  const BLOB_VERSION: nat := 1
  const PASSPHRASE_BYTES: nat := 32

  /** A ciphertext under a KMS key; only that key opens it. */
  datatype Sealed = Sealed(key: KeyId, pass: Bytes)

  datatype KeyBlob = KeyBlob(version: nat, kmsKeyId: KeyId, ciphertext: Option<Sealed>, prevKeyId: Option<KeyId>)

  /** What the storage host holds under the blob's name. */
  datatype Raw = Missing | Garbage | Stored(blob: KeyBlob)

  datatype Stash = Stash(preBlob: KeyBlob, slot: nat)

  /** `running` is the passphrase the live version booted with, if one is up. The stash lives in tmpfs. */
  datatype State = State(
    slots: map<nat, Bytes>,
    raw: Raw,
    stash: Option<Stash>,
    scheduled: set<KeyId>,
    running: Option<Bytes>)

  /** A process run: it could not start, it failed without effect, or it succeeded. */
  datatype Exit = SpawnFailed | Failed | Succeeded

  /** A remote write: done, refused without effect, or done with the acknowledgement lost. */
  datatype Ack = Done | Refused | AckLost

  /** The states after each effect, in order, and whether the command reported success. */
  datatype Trace = Trace(states: seq<State>, ok: bool)

  predicate Opens(slots: map<nat, Bytes>, pass: Bytes) {
    exists k :: k in slots && slots[k] == pass
  }

  /** The KMS decryption of a blob's own ciphertext: impossible once its key is scheduled for deletion. */
  function Decrypt(s: State, b: KeyBlob): (r: Option<Bytes>) {
    if b.ciphertext.Some? && b.ciphertext.value.key == b.kmsKeyId && b.kmsKeyId !in s.scheduled
    then Some(b.ciphertext.value.pass) else None
  }

  function Kill(slots: map<nat, Bytes>, slot: nat): map<nat, Bytes> {
    map k | k in slots && k != slot :: slots[k]
  }

  // ----- prepare-upgrade -----

  /** One invocation: its arguments, the random passphrase, the slot listing it reads, and how each call it makes
      turns out. `preflight` covers every call before the stash is written, none of which has an effect. */
  datatype PrepareCall = PrepareCall(
    newKeyId: KeyId,
    newPass: Bytes,
    listing: seq<nat>,
    preflight: bool,
    addKey: Exit,
    verify: Exit,
    kill: bool,
    unstash: bool,
    put: Ack)

  predicate Lists(listing: seq<nat>, slots: map<nat, Bytes>) {
    (forall k :: k in listing ==> k in slots) && (forall k :: k in slots ==> k in listing)
  }

  predicate PrepareReady(s: State, p: PrepareCall) {
    && p.preflight && p.newKeyId != "" && s.running.Some? && s.stash.None?
    && s.raw.Stored? && s.raw.blob.version == BLOB_VERSION && p.newKeyId != s.raw.blob.kmsKeyId
    && Decrypt(s, s.raw.blob).Some? && |Decrypt(s, s.raw.blob).value| == PASSPHRASE_BYTES
    && |p.newPass| == PASSPHRASE_BYTES
    && Lists(p.listing, s.slots) && p.listing != []
  }

  function PreparedBlob(p: PrepareCall, was: KeyBlob): KeyBlob {
    was.(kmsKeyId := p.newKeyId, ciphertext := Some(Sealed(p.newKeyId, p.newPass)), prevKeyId := Some(was.kmsKeyId))
  }

  function DropStash(s: State, works: bool): State {
    if works then s.(stash := None) else s
  }

  function Prepare(s: State, p: PrepareCall): (r: Trace) {
    if !PrepareReady(s, p) then Trace([], false)
    else
      var blob, pass, slot := s.raw.blob, Decrypt(s, s.raw.blob).value, LeastAbsent(p.listing, 0);
      var stashed := s.(stash := Some(Stash(blob, slot)));
      if p.addKey.SpawnFailed? then Trace([stashed], false)
      else if p.addKey.Failed? || !Opens(s.slots, pass) then Trace([stashed, DropStash(stashed, p.unstash)], false)
      else
        var added := stashed.(slots := s.slots[slot := p.newPass]);
        if p.verify.SpawnFailed? then Trace([stashed, added], false)
        else if p.verify.Failed? then
          var killed := if p.kill then added.(slots := Kill(added.slots, slot)) else added;
          Trace([stashed, added, killed, DropStash(killed, p.unstash)], false)
        else
          var written := added.(raw := Stored(PreparedBlob(p, blob)));
          if p.put.Refused? then Trace([stashed, added], false)
          else Trace([stashed, added, written], p.put.Done?)
  }

  // ----- revoke-upgrade -----

  datatype RevokeCall = RevokeCall(
    preflight: bool,
    liveTest: bool,
    kill: Exit,
    openTest: bool,
    put: Ack,
    unstash: bool)

  /** The pre-upgrade passphrase the revocation works with. */
  function RevokePass(s: State, r: RevokeCall): Option<Bytes> {
    if r.preflight && s.running.Some? && s.stash.Some? then Decrypt(s, s.stash.value.preBlob) else None
  }

  function Revoke(s: State, r: RevokeCall): (t: Trace) {
    var pass := RevokePass(s, r);
    if pass.None? then Trace([], false)
    else
      var slot := s.stash.value.slot;
      var live := r.liveTest && slot in s.slots && s.slots[slot] == pass.value;
      if live then Trace([], false)
      else if !r.kill.Succeeded? || slot !in s.slots || !Opens(Kill(s.slots, slot), pass.value) then Trace([], false)
      else
        var killed := s.(slots := Kill(s.slots, slot));
        if !r.openTest then Trace([killed], false)
        else
          var restored := killed.(raw := Stored(s.stash.value.preBlob));
          if r.put.Refused? then Trace([killed], false)
          else if r.put.AckLost? || !r.unstash then Trace([killed, restored], false)
          else Trace([killed, restored, restored.(stash := None)], true)
  }

  // ----- boot -----

  datatype BootCall = BootCall(
    random: Bytes,
    policy: bool,
    seal: bool,
    put: Ack,
    decrypt: bool,
    keyfile: bool,
    schedule: Ack,
    clear: Ack,
    open: bool)

  /** What `init` leaves behind: its effects and the passphrase it wrote, if it succeeded. */
  datatype InitResult = InitResult(states: seq<State>, pass: Option<Bytes>)

  /** Schedule the previous key for deletion, then drop it from the blob. A refused schedule is only logged. */
  function Retire(s: State, b: BootCall, blob: KeyBlob, pass: Bytes): (r: InitResult) {
    if blob.prevKeyId.None? then InitResult([], Some(pass))
    else if b.schedule.Refused? then InitResult([], Some(pass))
    else
      var gone := s.(scheduled := s.scheduled + {blob.prevKeyId.value});
      if b.schedule.AckLost? then InitResult([gone], Some(pass))
      else
        var cleared := gone.(raw := Stored(blob.(prevKeyId := None)));
        match b.clear
        case Refused => InitResult([gone], None)
        case AckLost => InitResult([gone, cleared], None)
        case Done => InitResult([gone, cleared], Some(pass))
  }

  function Init(s: State, b: BootCall): (r: InitResult) {
    if !s.raw.Stored? || s.raw.blob.version != BLOB_VERSION || !b.policy then InitResult([], None)
    else
      var blob := s.raw.blob;
      if blob.ciphertext.None? then
        if !b.seal || b.put.Refused? || |b.random| != PASSPHRASE_BYTES then InitResult([], None)
        else
          var sealed := blob.(ciphertext := Some(Sealed(blob.kmsKeyId, b.random)));
          var written := s.(raw := Stored(sealed));
          if b.put.AckLost? || !b.keyfile then InitResult([written], None)
          else
            var rest := Retire(written, b, sealed, b.random);
            InitResult([written] + rest.states, rest.pass)
      else
        var pass := Decrypt(s, blob);
        if !b.decrypt || pass.None? || |pass.value| != PASSPHRASE_BYTES || !b.keyfile then InitResult([], None)
        else Retire(s, b, blob, pass.value)
  }

  function Last(s: State, states: seq<State>): State {
    if states == [] then s else states[|states| - 1]
  }

  /** A reboot clears tmpfs and stops the old version; then `init` runs and the volume is formatted on first use
      or opened. The version is up only if it opens. */
  function Boot(s: State, b: BootCall): (r: Trace) {
    var down := s.(stash := None, running := None);
    var init := Init(down, b);
    var ready := Last(down, init.states);
    if init.pass.None? || !b.open then Trace([down] + init.states, false)
    else if ready.slots == map[] then
      Trace([down] + init.states + [ready.(slots := map[0 := init.pass.value], running := init.pass)], true)
    else if Opens(ready.slots, init.pass.value) then
      Trace([down] + init.states + [ready.(running := init.pass)], true)
    else Trace([down] + init.states, false)
  }

  // ----- Runs -----

  datatype Command = PrepareUpgrade(prepare: PrepareCall) | RevokeUpgrade(revoke: RevokeCall) | Reboot(boot: BootCall)

  /** A command, stopped after `cut` effects: it may be killed at any point. */
  datatype Event = Event(command: Command, cut: nat)

  function Effects(s: State, c: Command): Trace {
    match c
    case PrepareUpgrade(p) => Prepare(s, p)
    case RevokeUpgrade(r) => Revoke(s, r)
    case Reboot(b) => Boot(s, b)
  }

  /** The states an event goes through. */
  function Visited(s: State, e: Event): (r: seq<State>) {
    var states := Effects(s, e.command).states;
    if e.cut < |states| then states[..e.cut] else states
  }

  function Next(s: State, e: Event): State {
    Last(s, Visited(s, e))
  }

  /** Every state a run goes through, the first and all intermediate ones included. */
  function Visits(s: State, events: seq<Event>): (r: seq<State>)
    ensures r != [] && r[0] == s
    decreases |events|
  {
    if events == [] then [s] else [s] + Visited(s, events[0]) + Visits(Next(s, events[0]), events[1..])
  }
}
