/** The stack task's flow table: one flow per TCP 4-tuple, serviced in turns. */
module EgressStack {
  import opened Wrappers
  import opened EgressFlow

  type Handle = nat

  /** The endpoints of a packet that opens a connection, destination first. */
  type Demux = Bytes -> Option<(Addr, Addr)>

  predicate IsIpv4(packet: Bytes) {
    packet != [] && packet[0] / 16 == 4
  }

  /** Some flow has these endpoints. */
  predicate Tabled(flows: map<Handle, Flow>, dst: Addr, src: Addr) {
    exists h :: h in flows && flows[h].dst == dst && flows[h].src == src
  }

  /** No two flows share both endpoints. */
  ghost predicate Unique(flows: map<Handle, Flow>) {
    forall g, h :: g in flows && h in flows && flows[g].dst == flows[h].dst && flows[g].src == flows[h].src ==> g == h
  }

  class Stack {
    const demux: Demux
    var flows: map<Handle, Flow>
    /** Packets waiting for the socket layer. */
    var inbound: seq<Bytes>
    /** Flows announced to the supervisor, in order. */
    var announced: seq<Flow>

    ghost predicate Valid()
      reads this, flows.Values
    {
      Unique(flows) && AllValid(flows)
    }

    constructor (demux: Demux)
      ensures Valid() && flows == map[] && inbound == [] && announced == [] && this.demux == demux
    {
      this.demux := demux;
      flows, inbound, announced := map[], [], [];
    }

    /** Open a listening socket under a free handle and table the flow. `listens` is the socket layer's answer. */
    method AllocateFlow(dst: Addr, src: Addr, handle: Handle, listens: bool) returns (flow: Option<Flow>)
      requires Valid() && !Tabled(flows, dst, src) && handle !in flows
      modifies `flows
      ensures Valid()
      ensures flow.Some? <==> listens
      ensures listens ==> fresh(flow.value) && flow.value.dst == dst && flow.value.src == src
      ensures listens ==> flow.value.Valid() && flow.value.stackOpen && flow.value.streamOpen
      ensures flows == if listens then old(flows)[handle := flow.value] else old(flows)
    {
      hide Flow.Valid;
      if !listens { return None; }
      var f := new Flow(src, dst);
      flows := flows[handle := f];
      return Some(f);
    }

    /** A connection-opening packet gets a flow unless its 4-tuple has one, so a retransmission adds nothing and a new
        source port adds exactly one flow, announced once. Every IPv4 packet reaches the socket layer; others do not. */
    method HandleInbound(packet: Bytes, handle: Handle, listens: bool, acceptorOpen: bool)
      requires Valid() && handle !in flows
      modifies this
      ensures Valid()
      ensures var v4 := packet != [] && 0x40 <= packet[0] < 0x50;
        inbound == if v4 then old(inbound) + [packet] else old(inbound)
      ensures var opening := if packet != [] && 0x40 <= packet[0] < 0x50 then demux(packet) else None;
        if opening.Some? && listens &&
           forall h :: h in old(flows) ==> old(flows)[h].dst != opening.value.0 || old(flows)[h].src != opening.value.1
        then && handle in flows && flows == old(flows)[handle := flows[handle]] && fresh(flows[handle])
             && flows[handle].dst == opening.value.0 && flows[handle].src == opening.value.1
             && announced == old(announced) + if acceptorOpen then [flows[handle]] else []
        else flows == old(flows) && announced == old(announced)
    {
      hide Flow.Valid;
      if !IsIpv4(packet) { return; }
      var opening := demux(packet);
      if opening.Some? {
        var (dst, src) := opening.value;
        if !Tabled(flows, dst, src) {
          var flow := AllocateFlow(dst, src, handle, listens);
          if flow.Some? {
            if acceptorOpen { announced := announced + [flow.value]; } else { flow.value.DropStream(); }
          }
        }
      }
      inbound := inbound + [packet];
    }

    /** One iteration: service the flows, then remove those whose socket has ended. Nothing is added and no account is
        rewritten; a removed flow takes its socket's buffers, its pending rest and its queue with it. The bytes its last
        turn gave the socket are among them: only the polls between iterations transmit. */
    method Step(turns: Handle -> Turn) returns (closed: set<Handle>, ghost serviced: map<Handle, Totals>)
      requires Valid()
      modifies this, flows.Values
      ensures Valid() && inbound == old(inbound) && announced == old(announced)
      ensures AllProgress(old(Accounts(flows)), serviced, turns) && IsEnded(serviced, turns, closed)
      ensures flows == old(flows) - closed && Accounts(flows) == serviced - closed
      ensures AllDiscarded(old(flows), serviced, closed)
    {
      hide AllValid, AllProgress, Accounts, IsEnded, AllDiscarded, Unique;
      var table := flows;
      closed := ServiceAll(table, turns);
      serviced := Accounts(table);
      UniqueWithout(table, closed);
      flows := table - closed;
      ReleaseAll(table, closed);
    }
  }

  /** A removed flow keeps its account; what the stack's half held is discarded. */
  ghost predicate Discarded(was: Totals, f: Flow)
    reads f
  {
    && f.Valid() && !f.stackOpen
    && f.undrained == was.rx && f.untransmitted == was.tx && f.unsent == Waiting(was.pending, was.queue)
    && f.Snapshot() == was.(rx := [], tx := [], pending := None, queue := [])
  }

  ghost predicate AllDiscarded(flows: map<Handle, Flow>, was: map<Handle, Totals>, closed: set<Handle>)
    reads flows.Values
  {
    forall h :: h in closed ==> h in flows && h in was && Discarded(was[h], flows[h])
  }

  ghost predicate AllValid(flows: map<Handle, Flow>)
    reads flows.Values
  {
    forall h :: h in flows ==> flows[h].Valid() && flows[h].stackOpen
  }

  /** The accounts of all flows. */
  ghost function Accounts(flows: map<Handle, Flow>): (r: map<Handle, Totals>)
    reads flows.Values
    ensures r.Keys == flows.Keys
  {
    map h | h in flows :: flows[h].Snapshot()
  }

  ghost predicate AllProgress(was: map<Handle, Totals>, now: map<Handle, Totals>, turns: Handle -> Turn) {
    was.Keys == now.Keys && forall h :: h in was ==> Progress(was[h], now[h], turns(h))
  }

  /** Exactly the flows that were up and whose socket has ended. */
  ghost predicate IsEnded(now: map<Handle, Totals>, turns: Handle -> Turn, closed: set<Handle>) {
    closed <= now.Keys && forall h :: h in now ==> (h in closed <==> now[h].established && turns(h).ended)
  }

  lemma UniqueWithout(flows: map<Handle, Flow>, closed: set<Handle>)
    requires Unique(flows)
    ensures Unique(flows - closed)
  {
  }

  lemma DistinctFlows(flows: map<Handle, Flow>, h: Handle)
    requires Unique(flows) && h in flows
    ensures forall g :: g in flows && g != h ==> flows[g] != flows[h]
  {
  }

  /** One flow's turn leaves every other account alone. */
  method ServiceOne(flows: map<Handle, Flow>, h: Handle, turn: Turn) returns (ended: bool)
    requires Unique(flows) && AllValid(flows) && h in flows
    modifies flows[h]
    ensures AllValid(flows)
    ensures Accounts(flows) == old(Accounts(flows))[h := flows[h].Snapshot()]
    ensures Progress(old(Accounts(flows))[h], Accounts(flows)[h], turn)
    ensures ended <==> Accounts(flows)[h].established && turn.ended
  {
    hide Flow.Valid, Progress, Unique;
    DistinctFlows(flows, h);
    var shut;
    ended, shut := flows[h].Service(turn);
  }

  /** Part way through the turns: the flows still to do are untouched, the others have had theirs. */
  ghost predicate Underway(start: map<Handle, Totals>, now: map<Handle, Totals>, turns: Handle -> Turn,
                           todo: set<Handle>, closed: set<Handle>) {
    && now.Keys == start.Keys && todo <= now.Keys && closed <= now.Keys - todo
    && (forall h :: h in todo ==> now[h] == start[h])
    && (forall h :: h in now && h !in todo ==> Progress(start[h], now[h], turns(h)))
    && (forall h :: h in now && h !in todo ==> (h in closed <==> now[h].established && turns(h).ended))
  }

  lemma UnderwayStep(start: map<Handle, Totals>, now: map<Handle, Totals>, turns: Handle -> Turn, todo: set<Handle>,
                     closed: set<Handle>, h: Handle, x: Totals, ended: bool)
    requires Underway(start, now, turns, todo, closed) && h in todo && Progress(start[h], x, turns(h))
    requires ended <==> x.established && turns(h).ended
    ensures Underway(start, now[h := x], turns, todo - {h}, if ended then closed + {h} else closed)
  {
    hide Progress;
  }

  /** Give every flow its turn, in any order. */
  method ServiceAll(flows: map<Handle, Flow>, turns: Handle -> Turn) returns (closed: set<Handle>)
    requires Unique(flows) && AllValid(flows)
    modifies flows.Values
    ensures AllValid(flows)
    ensures AllProgress(old(Accounts(flows)), Accounts(flows), turns)
    ensures IsEnded(Accounts(flows), turns, closed) && closed <= flows.Keys
  {
    hide AllValid, Progress, Accounts, Unique, Underway;
    ghost var start := Accounts(flows);
    closed := {};
    var todo := flows.Keys;
    assert Underway(start, start, turns, todo, closed) by { UnderwayStart(start, turns); }
    while todo != {}
      invariant todo <= flows.Keys && AllValid(flows)
      invariant Underway(start, Accounts(flows), turns, todo, closed)
      decreases todo
    {
      var h :| h in todo;
      ghost var now := Accounts(flows);
      assert now[h] == start[h] by { StillToDo(start, now, turns, todo, closed, h); }
      var ended := ServiceOne(flows, h, turns(h));
      UnderwayStep(start, now, turns, todo, closed, h, Accounts(flows)[h], ended);
      todo := todo - {h};
      if ended { closed := closed + {h}; }
    }
    UnderwayDone(start, Accounts(flows), turns, closed);
  }

  lemma UnderwayStart(start: map<Handle, Totals>, turns: Handle -> Turn)
    ensures Underway(start, start, turns, start.Keys, {})
  {
  }

  lemma StillToDo(start: map<Handle, Totals>, now: map<Handle, Totals>, turns: Handle -> Turn, todo: set<Handle>,
                  closed: set<Handle>, h: Handle)
    requires Underway(start, now, turns, todo, closed) && h in todo
    ensures h in now && h in start && now[h] == start[h]
  {
  }

  lemma UnderwayDone(start: map<Handle, Totals>, now: map<Handle, Totals>, turns: Handle -> Turn, closed: set<Handle>)
    requires Underway(start, now, turns, {}, closed)
    ensures AllProgress(start, now, turns) && IsEnded(now, turns, closed) && closed <= now.Keys
  {
    hide Progress;
  }

  /** Drop one flow's half; every other account stays. */
  method ReleaseOne(flows: map<Handle, Flow>, h: Handle)
    requires Unique(flows) && h in flows && flows[h].Valid() && flows[h].stackOpen
    modifies flows[h]
    ensures Discarded(old(flows[h].Snapshot()), flows[h])
    ensures forall g :: g in flows && g != h ==> unchanged(flows[g])
  {
    hide Received, Inbound, Outbound, Transmitted, Unique, Waiting;
    DistinctFlows(flows, h);
    flows[h].Release();
  }

  /** Drop the stack's half of the flows that ended. */
  method ReleaseAll(flows: map<Handle, Flow>, closed: set<Handle>)
    requires Unique(flows) && AllValid(flows) && closed <= flows.Keys
    modifies flows.Values
    ensures AllValid(flows - closed) && Accounts(flows - closed) == old(Accounts(flows)) - closed
    ensures AllDiscarded(flows, old(Accounts(flows)), closed)
  {
    hide Flow.Valid, Unique, Discarded;
    ghost var start := Accounts(flows);
    var todo := closed;
    while todo != {}
      invariant todo <= closed
      invariant forall h :: h in flows && (h !in closed || h in todo) ==> unchanged(flows[h])
      invariant forall h :: h in closed && h !in todo ==> Discarded(start[h], flows[h])
      decreases todo
    {
      var h :| h in todo;
      ReleaseOne(flows, h);
      todo := todo - {h};
    }
  }
}
