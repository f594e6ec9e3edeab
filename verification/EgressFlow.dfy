/** One bridged TCP flow: the stack's half, the forwarder's half and the two bounded channels between them. */
module EgressFlow {
  import opened Wrappers

  /** Chunks a channel holds before it is full. */
  const CHANNEL_CAPACITY := 64
  const RECV_CHUNK := 16 * 1024

  // ----- Histories -----

  function Flat(chunks: seq<Bytes>): (r: Bytes) {
    if chunks == [] then [] else Flat(chunks[..|chunks| - 1]) + chunks[|chunks| - 1]
  }

  lemma FlatSnoc(chunks: seq<Bytes>, c: Bytes)
    ensures Flat(chunks + [c]) == Flat(chunks) + c
  {
    assert (chunks + [c])[..|chunks|] == chunks;
  }

  lemma {:induction false} FlatHead(chunks: seq<Bytes>)
    requires chunks != []
    ensures Flat(chunks) == chunks[0] + Flat(chunks[1..])
  {
    if |chunks| == 1 {
      assert chunks[..0] == [] && chunks[1..] == [];
      assert Flat(chunks) == Flat([]) + chunks[0];
    } else {
      var n := |chunks| - 1;
      var front, tail := chunks[..n], chunks[1..];
      FlatHead(front);
      assert front[0] == chunks[0] && front[1..] == tail[..n - 1] && tail[n - 1] == chunks[n];
      assert Flat(tail) == Flat(front[1..]) + chunks[n];
      assert (chunks[0] + Flat(front[1..])) + chunks[n] == chunks[0] + (Flat(front[1..]) + chunks[n]);
    }
  }

  /** A chunk taken off the socket, and whether it entered the channel. */
  datatype Chunk = Chunk(data: Bytes, kept: bool)

  ghost function All(history: seq<Chunk>): Bytes {
    if history == [] then [] else All(history[..|history| - 1]) + history[|history| - 1].data
  }

  ghost function Kept(history: seq<Chunk>): Bytes {
    if history == [] then []
    else Kept(history[..|history| - 1]) + if history[|history| - 1].kept then history[|history| - 1].data else []
  }

  lemma HistorySnoc(history: seq<Chunk>, c: Chunk)
    ensures All(history + [c]) == All(history) + c.data
    ensures Kept(history + [c]) == Kept(history) + if c.kept then c.data else []
  {
    assert (history + [c])[..|history|] == history;
  }

  ghost predicate Lossless(history: seq<Chunk>) {
    forall i :: 0 <= i < |history| ==> history[i].kept
  }

  /** The kept bytes are all the bytes exactly when no chunk was lost. */
  lemma {:induction false} LosslessIff(history: seq<Chunk>)
    requires forall i :: 0 <= i < |history| ==> history[i].data != []
    ensures |Kept(history)| <= |All(history)|
    ensures Kept(history) == All(history) <==> Lossless(history)
  {
    if history == [] {
    } else {
      var n := |history| - 1;
      var front := history[..n];
      LosslessIff(front);
      assert forall i :: 0 <= i < n ==> front[i] == history[i];
      assert Lossless(history) <==> Lossless(front) && history[n].kept;
      if history[n].kept {
        assert |Kept(history)| - |Kept(front)| == |All(history)| - |All(front)|;
        assert All(history) == All(front) + history[n].data && Kept(history) == Kept(front) + history[n].data;
        assert Kept(history)[..|Kept(front)|] == Kept(front) && All(history)[..|All(front)|] == All(front);
      } else {
        assert |Kept(history)| < |All(history)|;
      }
    }
  }

  // ----- The flow -----

  datatype Addr = Addr(ip: nat, port: nat)

  /** How the socket answers during one turn: its state, its receive call and each of its send calls. A number is what
      the socket offers; it never moves more bytes than there are. */
  datatype Turn =
    Turn(established: bool, canRecv: bool, recv: Option<nat>, canSend: nat -> bool, send: nat -> Option<nat>,
         ended: bool)

  datatype ReadPoll = ReadReady(data: Bytes) | ReadPending

  datatype WritePoll = WriteReady(count: nat) | WritePending | BrokenPipe

  function Min(a: nat, b: nat): nat {
    if a < b then a else b
  }

  /** The socket takes every byte it is offered. */
  ghost predicate Unlimited(turn: Turn, n: nat) {
    forall k: nat :: turn.canSend(k) && turn.send(k).Some? && turn.send(k).value >= n
  }

  // ----- What a turn takes from the socket -----

  /** How many of the available bytes the receive call hands over. */
  function Count(turn: Turn, available: nat): (n: nat)
    ensures n <= available
  {
    if turn.canRecv && turn.recv.Some? then Min(turn.recv.value, Min(RECV_CHUNK, available)) else 0
  }

  /** The most there is, up to what the socket offers and to 16 KiB. */
  lemma CountIs(turn: Turn, available: nat)
    ensures var n := Count(turn, available);
      if turn.canRecv && turn.recv.Some?
      then n <= turn.recv.value && n <= 16384 && n <= available && n in {turn.recv.value, 16384, available}
      else n == 0
  {
  }

  ghost function Extended(history: seq<Chunk>, chunk: Bytes, kept: bool): seq<Chunk> {
    if chunk == [] then history else history + [Chunk(chunk, kept)]
  }

  function Queued(queue: seq<Bytes>, chunk: Bytes, kept: bool): seq<Bytes> {
    if chunk != [] && kept then queue + [chunk] else queue
  }

  // ----- What a turn gives to the socket -----

  /** The bytes the socket took, what is left, and whether the queue ran dry while the socket could still send. */
  datatype Outgoing = Outgoing(taken: Bytes, pending: Option<Bytes>, queue: seq<Bytes>, idle: bool)

  function Taken(data: Bytes, answer: Option<nat>): (r: Bytes) {
    if answer.None? then [] else data[..Min(answer.value, |data|)]
  }

  function Rest(data: Bytes, answer: Option<nat>): (r: Option<Bytes>)
    ensures Taken(data, answer) + PendingBytes(r) == data
  {
    if answer.None? then Some(data) else if answer.value < |data| then Some(data[answer.value..]) else None
  }

  /** From send call `k` on: nothing while bytes are pending, else chunk after chunk while the socket can send. */
  function Pushing(pending: Option<Bytes>, queue: seq<Bytes>, turn: Turn, k: nat): (r: Outgoing)
    decreases |queue|
  {
    if pending.Some? || !turn.canSend(k) then Outgoing([], pending, queue, false)
    else if queue == [] then Outgoing([], None, [], true)
    else Prefixed(Taken(queue[0], turn.send(k)), Pushing(Rest(queue[0], turn.send(k)), queue[1..], turn, k + 1))
  }

  function Prefixed(taken: Bytes, r: Outgoing): Outgoing {
    r.(taken := taken + r.taken)
  }

  /** A whole turn: the pending rest first, then the queue. */
  function Pushed(pending: Option<Bytes>, queue: seq<Bytes>, turn: Turn): (r: Outgoing) {
    if pending.Some? && turn.canSend(0)
    then Prefixed(Taken(pending.value, turn.send(0)), Pushing(Rest(pending.value, turn.send(0)), queue, turn, 1))
    else Pushing(pending, queue, turn, 1)
  }

  function Waiting(pending: Option<Bytes>, queue: seq<Bytes>): Bytes {
    PendingBytes(pending) + Flat(queue)
  }

  lemma {:induction false} PushingConserves(pending: Option<Bytes>, queue: seq<Bytes>, turn: Turn, k: nat)
    ensures var r := Pushing(pending, queue, turn, k);
            && r.taken + Waiting(r.pending, r.queue) == Waiting(pending, queue) && |r.queue| <= |queue|
            && (r.idle ==> r.pending.None? && r.queue == [])
    decreases |queue|
  {
    hide Waiting, Rest, Taken;
    if pending.Some? || !turn.canSend(k) {
      assert [] + Waiting(pending, queue) == Waiting(pending, queue);
    } else if queue == [] {
      assert [] + Waiting(pending, queue) == Waiting(pending, queue);
    } else {
      var first, rest := Taken(queue[0], turn.send(k)), Rest(queue[0], turn.send(k));
      PushingConserves(rest, queue[1..], turn, k + 1);
      var r := Pushing(rest, queue[1..], turn, k + 1);
      assert (first + r.taken) + Waiting(r.pending, r.queue) == Waiting(None, queue) by {
        PrefixWaits(first, rest, queue[1..], r);
        HeadWaits(first, rest, queue);
      }
    }
  }

  lemma HeadWaits(first: Bytes, rest: Option<Bytes>, queue: seq<Bytes>)
    requires queue != [] && first + PendingBytes(rest) == queue[0]
    ensures Waiting(None, queue) == (first + PendingBytes(rest)) + Flat(queue[1..])
  {
    hide Flat;
    FlatHead(queue);
  }

  /** Taking a prefix of what waits first. */
  lemma PrefixWaits(first: Bytes, rest: Option<Bytes>, queue: seq<Bytes>, r: Outgoing)
    requires r.taken + Waiting(r.pending, r.queue) == Waiting(rest, queue)
    ensures (first + r.taken) + Waiting(r.pending, r.queue) == (first + PendingBytes(rest)) + Flat(queue)
  {
    hide Flat, PendingBytes;
    assert (first + r.taken) + Waiting(r.pending, r.queue) == first + (r.taken + Waiting(r.pending, r.queue));
    assert first + (PendingBytes(rest) + Flat(queue)) == (first + PendingBytes(rest)) + Flat(queue);
  }

  /** A socket that takes everything empties the queue. */
  lemma {:induction false} PushingDrains(queue: seq<Bytes>, turn: Turn, k: nat)
    requires Unlimited(turn, |Flat(queue)|)
    ensures Pushing(None, queue, turn, k).idle
    decreases |queue|
  {
    hide Flat, Rest, Taken;
    assert turn.canSend(k);
    if queue == [] {
    } else {
      FlatHead(queue);
      assert turn.send(k).Some? && turn.send(k).value >= |queue[0]|;
      RestNone(queue[0], turn.send(k));
      UnlimitedLess(turn, |Flat(queue)|, |Flat(queue[1..])|);
      PushingDrains(queue[1..], turn, k + 1);
    }
  }

  lemma FlatEmpty()
    ensures Flat([]) == []
  {
  }

  lemma RestNone(data: Bytes, answer: Option<nat>)
    requires answer.Some? && answer.value >= |data|
    ensures Rest(data, answer) == None
  {
  }

  lemma UnlimitedLess(turn: Turn, n: nat, m: nat)
    requires Unlimited(turn, n) && m <= n
    ensures Unlimited(turn, m)
  {
  }

  /** A turn conserves what waits for the workload; a socket that takes everything leaves nothing waiting. */
  lemma PushedConserves(pending: Option<Bytes>, queue: seq<Bytes>, turn: Turn)
    ensures var r := Pushed(pending, queue, turn);
            && r.taken + Waiting(r.pending, r.queue) == Waiting(pending, queue) && |r.queue| <= |queue|
            && (r.idle ==> r.pending.None? && r.queue == [])
            && (Unlimited(turn, |Waiting(pending, queue)|) ==> r.idle)
  {
    hide Flat, Rest, Pushing, Taken;
    if pending.Some? && turn.canSend(0) {
      var rest, first := Rest(pending.value, turn.send(0)), Taken(pending.value, turn.send(0));
      PushingConserves(rest, queue, turn, 1);
      PrefixWaits(first, rest, queue, Pushing(rest, queue, turn, 1));
    } else {
      PushingConserves(pending, queue, turn, 1);
    }
    if Unlimited(turn, |Waiting(pending, queue)|) {
      UnlimitedLess(turn, |Waiting(pending, queue)|, |Flat(queue)|);
      PushingDrains(queue, turn, 1);
      assert turn.canSend(0) && turn.send(0).Some? && turn.send(0).value >= |PendingBytes(pending)|;
      RestNone(PendingBytes(pending), turn.send(0));
    }
  }

  // ----- A turn's sends, call by call -----

  /** What is offered to the socket, in order: the pending rest, then the queue. */
  function Offered(pending: Option<Bytes>, queue: seq<Bytes>): seq<Bytes> {
    (if pending.Some? then [pending.value] else []) + queue
  }

  /** Call `k` takes the whole chunk. */
  predicate TakesAll(turn: Turn, k: nat, chunk: Bytes) {
    turn.canSend(k) && turn.send(k).Some? && turn.send(k).value >= |chunk|
  }

  /** The first `m` calls, from `k` on, take a chunk each. */
  predicate TakesFirst(turn: Turn, k: nat, chunks: seq<Bytes>, m: nat)
    requires m <= |chunks|
  {
    forall i :: 0 <= i < m ==> TakesAll(turn, k + i, chunks[i])
  }

  /** Where the sends stop: after all chunks, before a chunk when the socket cannot send, or inside a chunk when the
      socket takes less than all of it; a rest is pending then. */
  predicate StopsAt(chunks: seq<Bytes>, turn: Turn, k: nat, m: nat, held: bool, r: Outgoing)
    requires m <= |chunks|
  {
    if m == |chunks| then
      r.taken == Flat(chunks) && r.pending.None? && r.queue == [] && (r.idle <==> turn.canSend(k + m))
    else if !turn.canSend(k + m) then
      && r.taken == Flat(chunks[..m]) && !r.idle
      && (if held && m == 0 then r.pending == Some(chunks[0]) && r.queue == chunks[1..]
          else r.pending.None? && r.queue == chunks[m..])
    else
      var n := if turn.send(k + m).Some? then turn.send(k + m).value else 0;
      && n <= |chunks[m]| && (turn.send(k + m).Some? ==> n < |chunks[m]|) && !r.idle
      && r.taken == Flat(chunks[..m]) + chunks[m][..n]
      && r.pending == Some(chunks[m][n..]) && r.queue == chunks[m + 1..]
  }

  lemma {:induction false} FlatPrefix(chunk: Bytes, chunks: seq<Bytes>, m: nat)
    requires m <= |chunks|
    ensures Flat(([chunk] + chunks)[..m + 1]) == chunk + Flat(chunks[..m])
  {
    hide Flat;
    var all := ([chunk] + chunks)[..m + 1];
    FlatHead(all);
    assert all[0] == chunk && all[1..] == chunks[..m];
  }

  lemma StopShifts(chunk: Bytes, chunks: seq<Bytes>, turn: Turn, k: nat, m: nat, held: bool, r: Outgoing)
    requires m <= |chunks| && StopsAt(chunks, turn, k + 1, m, false, r)
    ensures StopsAt([chunk] + chunks, turn, k, m + 1, held, Prefixed(chunk, r))
  {
    hide Flat;
    var all := [chunk] + chunks;
    FlatPrefix(chunk, chunks, m);
    FlatPrefix(chunk, chunks, |chunks|);
    assert all[..|all|] == all && chunks[..|chunks|] == chunks;
    assert k + 1 + m == k + (m + 1);
    if m < |chunks| {
      assert all[m + 1] == chunks[m] && all[m + 1..] == chunks[m..] && all[m + 2..] == chunks[m + 1..];
      assert forall t: Bytes :: chunk + (Flat(chunks[..m]) + t) == (chunk + Flat(chunks[..m])) + t;
    }
  }

  lemma {:induction false} PushingStops(queue: seq<Bytes>, turn: Turn, k: nat) returns (m: nat)
    ensures m <= |queue| && TakesFirst(turn, k, queue, m)
    ensures StopsAt(queue, turn, k, m, false, Pushing(None, queue, turn, k))
    decreases |queue|, 0
  {
    if queue == [] || !turn.canSend(k) {
      m := 0;
      assert queue[..0] == [] && queue[0..] == queue;
    } else {
      m := OfferStops(queue[0], queue[1..], turn, k, false);
      assert queue == [queue[0]] + queue[1..];
    }
  }

  lemma {:induction false} OfferStops(chunk: Bytes, queue: seq<Bytes>, turn: Turn, k: nat, held: bool) returns (m: nat)
    requires turn.canSend(k)
    ensures m <= |queue| + 1 && TakesFirst(turn, k, [chunk] + queue, m)
    ensures var r := Prefixed(Taken(chunk, turn.send(k)), Pushing(Rest(chunk, turn.send(k)), queue, turn, k + 1));
            StopsAt([chunk] + queue, turn, k, m, held, r)
    decreases |queue|, 1
  {
    hide Flat;
    var chunks, rest := [chunk] + queue, Rest(chunk, turn.send(k));
    if TakesAll(turn, k, chunk) {
      var n := PushingStops(queue, turn, k + 1);
      m := n + 1;
      assert Taken(chunk, turn.send(k)) == chunk && rest.None?;
      StopShifts(chunk, queue, turn, k, n, held, Pushing(None, queue, turn, k + 1));
      forall i | 0 <= i < m ensures TakesAll(turn, k + i, chunks[i]) {
        if i > 0 { assert chunks[i] == queue[i - 1] && TakesAll(turn, k + 1 + (i - 1), queue[i - 1]); }
      }
    } else {
      m := 0;
      FlatEmpty();
      assert chunks[..0] == [] && chunks[0] == chunk && chunks[1..] == queue;
    }
  }

  /** A turn sends the pending rest and the queue in order, one send call each, as far as the socket takes whole chunks,
      and stops exactly there. */
  lemma PushedMeans(pending: Option<Bytes>, queue: seq<Bytes>, turn: Turn) returns (m: nat)
    ensures var k := if pending.Some? then 0 else 1;
            && m <= |Offered(pending, queue)| && TakesFirst(turn, k, Offered(pending, queue), m)
            && StopsAt(Offered(pending, queue), turn, k, m, pending.Some?, Pushed(pending, queue, turn))
  {
    hide Flat, Taken, Rest, TakesFirst, StopsAt;
    if pending.None? {
      assert Offered(pending, queue) == queue;
      m := PushingStops(queue, turn, 1);
      assert StopsAt(queue, turn, 1, m, false, Pushed(pending, queue, turn));
    } else if turn.canSend(0) {
      m := OfferStops(pending.value, queue, turn, 0, true);
    } else {
      m := 0;
      HeldStops(pending.value, queue, turn);
    }
  }

  lemma HeldStops(chunk: Bytes, queue: seq<Bytes>, turn: Turn)
    requires !turn.canSend(0)
    ensures TakesFirst(turn, 0, [chunk] + queue, 0)
    ensures StopsAt([chunk] + queue, turn, 0, 0, true, Pushed(Some(chunk), queue, turn))
  {
    FlatEmpty();
    assert ([chunk] + queue)[1..] == queue && ([chunk] + queue)[..0] == [];
  }

  function CarryBytes(carry: Option<(Bytes, nat)>): Bytes {
    if carry.Some? && carry.value.1 <= |carry.value.0| then carry.value.0[carry.value.1..] else []
  }

  function PendingBytes(pending: Option<Bytes>): Bytes {
    if pending.Some? then pending.value else []
  }

  /** The channels are bounded, chunks are never empty, and a carry is what is left of one. */
  ghost predicate WellKept(history: seq<Chunk>, carry: Option<(Bytes, nat)>, queue: seq<Bytes>) {
    && |queue| <= 64
    && (forall i :: 0 <= i < |queue| ==> queue[i] != [])
    && (forall i :: 0 <= i < |history| ==> history[i].data != [])
    && (carry.Some? ==> carry.value.1 < |carry.value.0|)
  }

  lemma ReadFromCarry(carry: (Bytes, nat), queue: seq<Bytes>, take: nat)
    requires carry.1 + take <= |carry.0|
    ensures var rest := if carry.1 + take < |carry.0| then Some((carry.0, carry.1 + take)) else None;
      CarryBytes(Some(carry)) + Flat(queue) == carry.0[carry.1..carry.1 + take] + (CarryBytes(rest) + Flat(queue))
  {
    hide Flat;
    var (bytes, offset) := carry;
    assert bytes[offset..] == bytes[offset..offset + take] + bytes[offset + take..];
  }

  lemma ReadFromQueue(queue: seq<Bytes>, take: nat)
    requires queue != [] && take <= |queue[0]|
    ensures var rest := if take < |queue[0]| then Some((queue[0], take)) else None;
      CarryBytes(None) + Flat(queue) == queue[0][..take] + (CarryBytes(rest) + Flat(queue[1..]))
  {
    hide Flat;
    FlatHead(queue);
    assert queue[0] == queue[0][..take] + queue[0][take..];
  }

  /** Taking a chunk off the socket: what was received splits, and the channel grows by what is kept. */
  lemma TakeChunk(history: seq<Chunk>, rx: Bytes, carry: Option<(Bytes, nat)>, queue: seq<Bytes>, n: nat, kept: bool)
    requires n <= |rx|
    ensures All(history) + rx == All(Extended(history, rx[..n], kept)) + rx[n..]
    ensures Kept(Extended(history, rx[..n], kept)) == Kept(history) + if kept then rx[..n] else []
    ensures CarryBytes(carry) + Flat(Queued(queue, rx[..n], kept)) ==
            (CarryBytes(carry) + Flat(queue)) + if kept then rx[..n] else []
  {
    hide Flat, All, Kept, CarryBytes;
    var chunk := rx[..n];
    HistorySnoc(history, Chunk(chunk, kept));
    FlatSnoc(queue, chunk);
    assert rx == chunk + rx[n..];
    assert Kept(history) + [] == Kept(history);
    assert CarryBytes(carry) + (Flat(queue) + chunk) == (CarryBytes(carry) + Flat(queue)) + chunk;
    assert (CarryBytes(carry) + Flat(queue)) + [] == CarryBytes(carry) + Flat(queue);
  }

  /** What the workload sent was taken off the socket or is in its buffer, until that is discarded. */
  ghost predicate Received(open: bool, sent: Bytes, history: seq<Chunk>, rx: Bytes, undrained: Bytes) {
    sent == All(history) + (if open then rx else undrained) && if open then undrained == [] else rx == []
  }

  /** Reads and what is ahead of the reader are the kept chunks, in order. */
  ghost predicate Inbound(open: bool, history: seq<Chunk>, read: Bytes, carry: Option<(Bytes, nat)>, queue: seq<Bytes>,
                          unread: Bytes) {
    && WellKept(history, carry, queue)
    && read + (if open then CarryBytes(carry) + Flat(queue) else unread) == Kept(history)
    && if open then unread == [] else queue == [] && carry.None?
  }

  /** Accepted bytes and what waits behind them are the written ones, in order. */
  ghost predicate Outbound(open: bool, accepted: Bytes, pending: Option<Bytes>, queue: seq<Bytes>, unsent: Bytes,
                           written: Bytes) {
    && |queue| <= 64
    && accepted + (if open then Waiting(pending, queue) else unsent) == written
    && if open then unsent == [] else queue == [] && pending.None?
  }

  /** Accepted bytes have gone out to the workload or are in the socket's send buffer, until that is discarded. */
  ghost predicate Transmitted(open: bool, accepted: Bytes, delivered: Bytes, tx: Bytes, untransmitted: Bytes) {
    accepted == delivered + (if open then tx else untransmitted) && if open then untransmitted == [] else tx == []
  }

  /** The account of a flow: what went in and out, whether it was ever up, what the stack's half holds, and the channel
      to the forwarder with whether it is open. */
  datatype Totals = Totals(
    sent: Bytes, history: seq<Chunk>, read: Bytes, written: Bytes, accepted: Bytes, delivered: Bytes, established: bool,
    rx: Bytes, tx: Bytes, pending: Option<Bytes>, queue: seq<Bytes>, inbox: seq<Bytes>, open: bool)

  /** What a turn does: take a chunk off the socket, give the socket what it accepts, and rewrite no account. */
  ghost predicate Progress(was: Totals, now: Totals, turn: Turn) {
    var n, kept, out := Count(turn, |was.rx|), was.open && |was.inbox| < 64, Pushed(was.pending, was.queue, turn);
    && now.sent == was.sent && now.read == was.read && now.written == was.written && now.delivered == was.delivered
    && now.rx == was.rx[n..] && now.history == Extended(was.history, was.rx[..n], kept)
    && now.inbox == Queued(was.inbox, was.rx[..n], kept) && now.open == was.open
    && now.accepted == was.accepted + out.taken && now.tx == was.tx + out.taken
    && now.pending == out.pending && now.queue == out.queue
    && (now.established <==> was.established || turn.established)
    && (Unlimited(turn, |now.written|) ==> now.accepted == now.written)
  }

  class Flow {
    const src: Addr
    const dst: Addr
    /** The socket's receive and send buffers. */
    var rx: Bytes
    var tx: Bytes
    var toForwarder: seq<Bytes>
    var fromForwarder: seq<Bytes>
    var readCarry: Option<(Bytes, nat)>
    var pendingSend: Option<Bytes>
    var sawEstablished: bool
    /** Whether each half still exists. */
    var streamOpen: bool
    var stackOpen: bool
    /** What went in and out so far. */
    ghost var sent: Bytes
    ghost var history: seq<Chunk>
    ghost var read: Bytes
    ghost var written: Bytes
    ghost var accepted: Bytes
    ghost var delivered: Bytes
    /** What was discarded with a half: received and not drained, written and not accepted, accepted and not gone out,
        kept and not read. */
    ghost var undrained: Bytes
    ghost var unsent: Bytes
    ghost var untransmitted: Bytes
    ghost var unread: Bytes

    ghost function Snapshot(): Totals
      reads this
    {
      Totals(sent, history, read, written, accepted, delivered, sawEstablished,
             rx, tx, pendingSend, fromForwarder, toForwarder, streamOpen)
    }

    /** Both directions are conserved, counting what waits in a half that exists and what went with one that does
        not. */
    ghost predicate Valid()
      reads this
    {
      && Received(stackOpen, sent, history, rx, undrained)
      && Inbound(streamOpen, history, read, readCarry, toForwarder, unread)
      && Outbound(stackOpen, accepted, pendingSend, fromForwarder, unsent, written)
      && Transmitted(stackOpen, accepted, delivered, tx, untransmitted)
    }

    constructor (src: Addr, dst: Addr)
      ensures Valid() && this.src == src && this.dst == dst && streamOpen && stackOpen && !sawEstablished
      ensures sent == read == written == accepted == delivered == [] && history == [] && rx == tx == []
      ensures toForwarder == fromForwarder == [] && readCarry.None? && pendingSend.None?
    {
      this.src, this.dst := src, dst;
      rx, tx, toForwarder, fromForwarder, readCarry, pendingSend := [], [], [], [], None, None;
      sawEstablished, streamOpen, stackOpen := false, true, true;
      sent, history, read, written, accepted, delivered := [], [], [], [], [], [];
      undrained, unsent, untransmitted, unread := [], [], [], [];
    }

    /** The network hands the socket bytes the workload sent. */
    method Deliver(data: Bytes)
      requires Valid() && stackOpen
      modifies `rx, `sent
      ensures Valid() && sent == old(sent) + data && rx == old(rx) + data
    {
      hide Inbound, Outbound, Transmitted;
      rx, sent := rx + data, sent + data;
    }

    /** The network sends the workload bytes from the socket's send buffer. */
    method Transmit(n: nat)
      requires Valid() && stackOpen && n <= |tx|
      modifies `tx, `delivered
      ensures Valid() && delivered == old(delivered) + old(tx)[..n] && tx == old(tx)[n..]
    {
      hide Received, Inbound, Outbound;
      assert tx == tx[..n] + tx[n..];
      tx, delivered := tx[n..], delivered + tx[..n];
    }

    // ----- The forwarder's half -----

    /** Reads are the kept bytes in order, whatever the buffer sizes. Room left but nothing read means the stack's half
        is gone and every kept byte has been read. */
    method PollRead(remaining: nat) returns (r: ReadPoll)
      requires Valid() && streamOpen
      modifies `readCarry, `toForwarder, `read
      ensures Valid()
      ensures r.ReadReady? ==> read == old(read) + r.data && |r.data| <= remaining
      ensures old(readCarry).Some? || old(toForwarder) != [] ==>
        var carried := old(readCarry).Some?;
        var chunk := if carried then CarryBytes(old(readCarry)) else old(toForwarder)[0];
        && r == ReadReady(chunk[..Min(remaining, |chunk|)])
        && toForwarder == if carried then old(toForwarder) else old(toForwarder)[1..]
      ensures r == ReadReady([]) && remaining > 0 ==> !stackOpen && read == Kept(history)
      ensures r.ReadPending? ==> stackOpen && read == old(read) == Kept(history)
    {
      hide Received, Outbound, Transmitted, Kept, Flat, CarryBytes;
      if readCarry.Some? {
        var (bytes, offset) := readCarry.value;
        var take := Min(remaining, |bytes| - offset);
        CarrySlice(bytes, offset, take);
        ReadFromCarry((bytes, offset), toForwarder, take);
        r := ReadReady(bytes[offset..offset + take]);
        read := read + bytes[offset..offset + take];
        readCarry := if offset + take < |bytes| then Some((bytes, offset + take)) else None;
      } else if toForwarder == [] {
        NothingAhead(read, Kept(history));
        r := if stackOpen then ReadPending else ReadReady([]);
      } else {
        var bytes := toForwarder[0];
        var take := Min(remaining, |bytes|);
        ReadFromQueue(toForwarder, take);
        r := ReadReady(bytes[..take]);
        toForwarder := toForwarder[1..];
        read := read + bytes[..take];
        if take < |bytes| { readCarry := Some((bytes, take)); }
      }
    }

    method PollWrite(data: Bytes) returns (r: WritePoll)
      requires Valid() && streamOpen
      modifies `fromForwarder, `written
      ensures Valid()
      ensures written == old(written) + if r.WriteReady? then data else []
      ensures fromForwarder == if r.WriteReady? then old(fromForwarder) + [data] else old(fromForwarder)
      ensures r == if !stackOpen then BrokenPipe
                   else if |old(fromForwarder)| == 64 then WritePending
                   else WriteReady(|data|)
    {
      hide Received, Inbound, Transmitted, Flat;
      if !stackOpen { return BrokenPipe; }
      if |fromForwarder| == CHANNEL_CAPACITY { return WritePending; }
      FlatSnoc(fromForwarder, data);
      fromForwarder, written := fromForwarder + [data], written + data;
      return WriteReady(|data|);
    }

    /** Dropping the forwarder's half discards what it had not read. */
    method DropStream()
      requires Valid() && streamOpen
      modifies `streamOpen, `readCarry, `toForwarder, `unread
      ensures Valid() && !streamOpen
      ensures unread == CarryBytes(old(readCarry)) + Flat(old(toForwarder))
    {
      hide Received, Outbound, Transmitted, Kept, Flat;
      unread := CarryBytes(readCarry) + Flat(toForwarder);
      streamOpen, readCarry, toForwarder := false, None, [];
    }

    // ----- The stack's half -----

    /** Take what the socket received and queue it. A chunk is lost exactly when the channel is full or closed. */
    method Drain(turn: Turn) returns (shut: bool)
      requires Valid() && stackOpen
      modifies `rx, `toForwarder, `history
      ensures Valid()
      ensures var n, kept := Count(turn, |old(rx)|), streamOpen && |old(toForwarder)| < 64;
        && rx == old(rx)[n..] && history == Extended(old(history), old(rx)[..n], kept)
        && toForwarder == Queued(old(toForwarder), old(rx)[..n], kept)
        && (shut <==> n > 0 && !streamOpen)
    {
      hide Outbound, Transmitted, Kept, All, Flat, CarryBytes;
      shut := false;
      if turn.canRecv && turn.recv.Some? {
        var count := Min(turn.recv.value, Min(RECV_CHUNK, |rx|));
        if count > 0 {
          var chunk := rx[..count];
          ghost var kept := streamOpen && |toForwarder| < CHANNEL_CAPACITY;
          TakeChunk(history, rx, readCarry, toForwarder, count, kept);
          rx, history := rx[count..], history + [Chunk(chunk, kept)];
          if !streamOpen {
            shut := true;
          } else if |toForwarder| < CHANNEL_CAPACITY {
            toForwarder := toForwarder + [chunk];
          }
        }
      }
    }

    /** Offer bytes to the socket; what its send buffer does not take is kept for the next turn. */
    method Offer(data: Bytes, answer: Option<nat>)
      requires pendingSend.None?
      modifies `pendingSend, `tx, `accepted
      ensures accepted == old(accepted) + Taken(data, answer) && pendingSend == Rest(data, answer)
      ensures tx == old(tx) + Taken(data, answer)
    {
      if answer.None? {
        pendingSend := Some(data);
        return;
      }
      var n := Min(answer.value, |data|);
      tx, accepted := tx + data[..n], accepted + data[..n];
      if n < |data| { pendingSend := Some(data[n..]); }
    }

    /** The queue, chunk after chunk, while nothing is pending and the socket can send. */
    method PushQueue(turn: Turn) returns (idle: bool)
      modifies `pendingSend, `fromForwarder, `tx, `accepted
      ensures var out := Pushing(old(pendingSend), old(fromForwarder), turn, 1);
        && accepted == old(accepted) + out.taken && tx == old(tx) + out.taken
        && pendingSend == out.pending && fromForwarder == out.queue
        && (idle <==> out.idle)
    {
      hide Taken, Rest, PendingBytes;
      ghost var out := Pushing(pendingSend, fromForwarder, turn, 1);
      ghost var taken: Bytes := [];
      idle := false;
      var k := 1;
      while pendingSend.None? && turn.canSend(k)
        invariant accepted == old(accepted) + taken && tx == old(tx) + taken
        invariant out == Prefixed(taken, Pushing(pendingSend, fromForwarder, turn, k))
        decreases |fromForwarder|
      {
        if fromForwarder == [] {
          idle := true;
          break;
        }
        var data := fromForwarder[0];
        fromForwarder := fromForwarder[1..];
        Offer(data, turn.send(k));
        PrefixedTwice(taken, Taken(data, turn.send(k)), Pushing(pendingSend, fromForwarder, turn, k + 1));
        taken := taken + Taken(data, turn.send(k));
        k := k + 1;
      }
      assert taken + [] == taken;
    }

    /** Push the pending rest, then the queue, for as long as the socket can send. */
    method Push(turn: Turn) returns (shut: bool)
      requires Valid() && stackOpen
      modifies `pendingSend, `fromForwarder, `tx, `accepted
      ensures Valid()
      ensures var out := Pushed(old(pendingSend), old(fromForwarder), turn);
        && accepted == old(accepted) + out.taken && tx == old(tx) + out.taken
        && pendingSend == out.pending && fromForwarder == out.queue
        && (shut <==> out.idle && !streamOpen)
    {
      hide Received, Inbound, Outbound, Transmitted, Pushing, Taken, Rest;
      PushKeeps(accepted, pendingSend, fromForwarder, unsent, written, delivered, tx, untransmitted, turn);
      if pendingSend.Some? && turn.canSend(0) {
        var data := pendingSend.value;
        pendingSend := None;
        Offer(data, turn.send(0));
      }
      shut := PushQueue(turn);
      shut := shut && !streamOpen;
      ghost var out := Pushed(old(pendingSend), old(fromForwarder), turn);
      assert accepted == old(accepted) + out.taken && tx == old(tx) + out.taken;
    }

    /** The stack task's turn for this flow. */
    method Service(turn: Turn) returns (closed: bool, shut: bool)
      requires Valid() && stackOpen
      modifies `sawEstablished, `rx, `toForwarder, `history, `pendingSend, `fromForwarder, `tx, `accepted
      ensures Valid() && Progress(old(Snapshot()), Snapshot(), turn)
      ensures var n, kept := Count(turn, |old(rx)|), streamOpen && |old(toForwarder)| < 64;
        && rx == old(rx)[n..] && history == Extended(old(history), old(rx)[..n], kept)
        && toForwarder == Queued(old(toForwarder), old(rx)[..n], kept)
      ensures var out := Pushed(old(pendingSend), old(fromForwarder), turn);
        && accepted == old(accepted) + out.taken && tx == old(tx) + out.taken
        && pendingSend == out.pending && fromForwarder == out.queue
        && (shut <==> closed || (!streamOpen && (Count(turn, |old(rx)|) > 0 || out.idle)))
      ensures sawEstablished <==> old(sawEstablished) || turn.established
      ensures closed <==> sawEstablished && turn.ended
    {
      hide Received, Inbound, Outbound, Transmitted, Pushed, Unlimited;
      PushKeeps(accepted, pendingSend, fromForwarder, unsent, written, delivered, tx, untransmitted, turn);
      if turn.established { sawEstablished := true; }
      shut := Drain(turn);
      var disconnected := Push(turn);
      shut := shut || disconnected;
      closed := sawEstablished && turn.ended;
      shut := shut || closed;
    }

    /** The stack drops its half when it removes the flow, and with it the socket's two buffers, the pending rest and
        the queue. */
    method Release()
      requires Valid() && stackOpen
      modifies `stackOpen, `rx, `tx, `pendingSend, `fromForwarder, `undrained, `unsent, `untransmitted
      ensures Valid() && !stackOpen
      ensures rx == tx == [] && pendingSend.None? && fromForwarder == []
      ensures undrained == old(rx) && untransmitted == old(tx)
      ensures unsent == Waiting(old(pendingSend), old(fromForwarder))
    {
      hide Received, Inbound, Outbound, Transmitted, Waiting;
      NothingDiscarded(sent, history, rx, undrained, accepted, pendingSend, fromForwarder, unsent, written, delivered,
                       tx, untransmitted);
      ReleaseKeeps(sent, history, rx, accepted, pendingSend, fromForwarder, written, delivered, tx);
      undrained, untransmitted, unsent := rx, tx, Waiting(pendingSend, fromForwarder);
      stackOpen, rx, tx, pendingSend, fromForwarder := false, [], [], None, [];
    }
  }

  lemma CarrySlice(bytes: Bytes, offset: nat, take: nat)
    requires offset + take <= |bytes|
    ensures |CarryBytes(Some((bytes, offset)))| == |bytes| - offset
    ensures CarryBytes(Some((bytes, offset)))[..take] == bytes[offset..offset + take]
  {
  }

  lemma NothingAhead(read: Bytes, kept: Bytes)
    requires read + (CarryBytes(None) + Flat([])) == kept
    ensures read == kept
  {
  }

  lemma PrefixedTwice(a: Bytes, b: Bytes, r: Outgoing)
    ensures Prefixed(a, Prefixed(b, r)) == Prefixed(a + b, r)
  {
    assert a + (b + r.taken) == (a + b) + r.taken;
  }

  /** A turn's sends keep the outbound accounts. */
  lemma PushKeeps(accepted: Bytes, pending: Option<Bytes>, queue: seq<Bytes>, unsent: Bytes, written: Bytes,
                  delivered: Bytes, tx: Bytes, untransmitted: Bytes, turn: Turn)
    requires Outbound(true, accepted, pending, queue, unsent, written)
    requires Transmitted(true, accepted, delivered, tx, untransmitted)
    ensures var out := Pushed(pending, queue, turn);
            && Outbound(true, accepted + out.taken, out.pending, out.queue, unsent, written)
            && Transmitted(true, accepted + out.taken, delivered, tx + out.taken, untransmitted)
            && (Unlimited(turn, |written|) ==> accepted + out.taken == written)
  {
    hide Pushed, Waiting, Unlimited;
    PushAccounts(accepted, pending, queue, turn, written);
    var taken := Pushed(pending, queue, turn).taken;
    assert (delivered + tx) + taken == delivered + (tx + taken);
  }

  /** What a removed flow held moves to the discarded accounts. */
  lemma ReleaseKeeps(sent: Bytes, history: seq<Chunk>, rx: Bytes, accepted: Bytes, pending: Option<Bytes>,
                     queue: seq<Bytes>, written: Bytes, delivered: Bytes, tx: Bytes)
    requires Received(true, sent, history, rx, []) && Outbound(true, accepted, pending, queue, [], written)
    requires Transmitted(true, accepted, delivered, tx, [])
    ensures Received(false, sent, history, [], rx)
    ensures Outbound(false, accepted, None, [], Waiting(pending, queue), written)
    ensures Transmitted(false, accepted, delivered, [], tx)
  {
    hide All, Waiting;
  }

  lemma NothingDiscarded(sent: Bytes, history: seq<Chunk>, rx: Bytes, undrained: Bytes, accepted: Bytes,
                         pending: Option<Bytes>, queue: seq<Bytes>, unsent: Bytes, written: Bytes, delivered: Bytes,
                         tx: Bytes, untransmitted: Bytes)
    requires Received(true, sent, history, rx, undrained) && Outbound(true, accepted, pending, queue, unsent, written)
    requires Transmitted(true, accepted, delivered, tx, untransmitted)
    ensures undrained == unsent == untransmitted == []
  {
  }

  lemma PushAccounts(accepted: Bytes, pending: Option<Bytes>, queue: seq<Bytes>, turn: Turn, written: Bytes)
    requires accepted + Waiting(pending, queue) == written
    ensures var out := Pushed(pending, queue, turn);
            && (accepted + out.taken) + Waiting(out.pending, out.queue) == written && |out.queue| <= |queue|
            && (Unlimited(turn, |written|) ==> accepted + out.taken == written)
  {
    hide Pushed, Unlimited;
    PushedConserves(pending, queue, turn);
    var out := Pushed(pending, queue, turn);
    assert (accepted + out.taken) + Waiting(out.pending, out.queue) == accepted + Waiting(pending, queue);
    if Unlimited(turn, |written|) {
      UnlimitedLess(turn, |written|, |Waiting(pending, queue)|);
      assert Waiting(out.pending, out.queue) == [];
    }
  }

  // ----- What the invariant gives -----

  /** In a flow that exists, what the workload sent is read, on its way or lost in a discarded chunk: it all adds up
      exactly when no chunk was lost. What was written has gone out, is in the send buffer or waits behind it. */
  lemma Conservation(f: Flow)
    requires f.Valid() && f.stackOpen && f.streamOpen
    ensures f.read + CarryBytes(f.readCarry) + Flat(f.toForwarder) + f.rx == f.sent <==> Lossless(f.history)
    ensures Lossless(f.history) ==> f.read <= f.sent
    ensures f.delivered + f.tx + Waiting(f.pendingSend, f.fromForwarder) == f.written
    ensures f.delivered <= f.written
  {
    hide Flat, CarryBytes, Waiting;
    LosslessIff(f.history);
    var kept, all := Kept(f.history), All(f.history);
    assert f.read + CarryBytes(f.readCarry) + Flat(f.toForwarder) == kept;
    assert kept == f.read + (CarryBytes(f.readCarry) + Flat(f.toForwarder));
    if kept + f.rx == all + f.rx {
      assert (kept + f.rx)[..|kept|] == kept && (all + f.rx)[..|all|] == all;
    }
    assert f.written == f.delivered + (f.tx + Waiting(f.pendingSend, f.fromForwarder));
  }

  /** Once the stack has removed the flow nothing more moves on either side. All the forwarder can still read adds up to
      what the workload sent exactly when no chunk was lost and the receive buffer had been drained; the workload got
      all that was written exactly when nothing was pending or queued and the send buffer had gone out. */
  lemma RemovedConservation(f: Flow)
    requires f.Valid() && !f.stackOpen && f.streamOpen
    ensures f.read + CarryBytes(f.readCarry) + Flat(f.toForwarder) == f.sent <==>
            Lossless(f.history) && f.undrained == []
    ensures f.delivered == f.written <==> f.unsent == [] && f.untransmitted == []
    ensures f.delivered <= f.written
  {
    hide Flat, CarryBytes, Waiting;
    LosslessIff(f.history);
    var kept, all := Kept(f.history), All(f.history);
    assert f.read + CarryBytes(f.readCarry) + Flat(f.toForwarder) == kept;
    assert f.sent == all + f.undrained && |kept| <= |all|;
    if f.undrained == [] { assert f.sent == all; }
    assert f.written == f.delivered + (f.untransmitted + f.unsent);
    assert |f.written| == |f.delivered| + |f.untransmitted| + |f.unsent|;
    if f.unsent == [] && f.untransmitted == [] { assert f.written == f.delivered + []; }
  }

  /** A forwarder that does not read loses the chunk after the channel is full. */
  method SlowForwarderLoses(src: Addr, dst: Addr) returns (f: Flow)
    ensures fresh(f) && f.Valid() && f.streamOpen && f.stackOpen && !Lossless(f.history)
    ensures |f.history| == 65 && (forall i :: 0 <= i < 64 ==> f.history[i].kept) && !f.history[64].kept
    ensures f.read + CarryBytes(f.readCarry) + Flat(f.toForwarder) + f.rx != f.sent
  {
    hide Received, Inbound, Outbound, Transmitted;
    f := new Flow(src, dst);
    var turn := Turn(true, true, Some(1), (k: nat) => false, (k: nat) => None, false);
    for i := 0 to 64
      invariant fresh(f) && f.Valid() && f.streamOpen && f.stackOpen
      invariant f.rx == [] && |f.toForwarder| == |f.history| == i
      invariant forall j :: 0 <= j < i ==> f.history[j].kept
    {
      f.Deliver([0]);
      var shut := f.Drain(turn);
    }
    f.Deliver([0]);
    var shut := f.Drain(turn);
    assert !f.history[64].kept;
    Conservation(f);
  }

  /** A workload that sends more than one chunk and closes: its flow is removed after one turn, and the rest of what it
      sent is discarded although no chunk was lost. */
  method ClosedFlowLoses(src: Addr, dst: Addr) returns (f: Flow)
    ensures fresh(f) && f.Valid() && f.streamOpen && !f.stackOpen && Lossless(f.history)
    ensures |f.sent| == 16385 && |f.undrained| == 1
    ensures f.read + CarryBytes(f.readCarry) + Flat(f.toForwarder) != f.sent
  {
    hide Received, Inbound, Outbound, Transmitted, Flat, Progress, Pushed, CarryBytes, Waiting, Lossless;
    f := new Flow(src, dst);
    var request: Bytes := seq(16385, _ => 0);
    f.Deliver(request);
    var turn := Turn(true, true, Some(16384), (k: nat) => false, (k: nat) => None, true);
    var closed, shut := f.Service(turn);
    assert closed && |f.rx| == 1;
    OneKept(f.history);
    f.Release();
    RemovedConservation(f);
  }

  lemma OneKept(history: seq<Chunk>)
    requires |history| == 1 && history[0].kept
    ensures Lossless(history)
  {
  }

  /** An answer the socket takes in the flow's last turn: everything is accepted and nothing waits, yet the byte is in
      the send buffer of the socket that is removed and never goes out. */
  method LastTurnLoses(src: Addr, dst: Addr) returns (f: Flow)
    ensures fresh(f) && f.Valid() && f.streamOpen && !f.stackOpen
    ensures f.accepted == f.written && f.unsent == [] && f.undrained == [] && f.delivered != f.written
  {
    hide Received, Inbound, Outbound, Transmitted, Flat, Progress;
    f := new Flow(src, dst);
    var wrote := f.PollWrite([0]);
    var turn := Turn(true, false, None, (k: nat) => true, (k: nat) => Some(1), true);
    LastTurnPush(turn);
    var closed, shut := f.Service(turn);
    assert closed && f.tx == [0];
    f.Release();
    FlatEmpty();
    RemovedConservation(f);
  }

  lemma LastTurnPush(turn: Turn)
    requires forall k: nat :: turn.canSend(k) && turn.send(k) == Some(1)
    ensures Pushed(None, [] + [[0]], turn) == Outgoing([0], None, [], true)
  {
    var queue: seq<Bytes> := [] + [[0]];
    assert queue[0] == [0] && queue[1..] == [];
    assert turn.canSend(1) && turn.send(1) == Some(1) && turn.canSend(2);
    assert Pushing(None, [], turn, 2) == Outgoing([], None, [], true);
    assert Taken([0], Some(1)) == [0] && Rest([0], Some(1)) == None;
  }
}
