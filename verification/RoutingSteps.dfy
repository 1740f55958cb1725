/** The proofs behind the steps of the server that attach ports and route data. */
module RoutingSteps {
  import opened Common
  import opened Bytes
  import opened Routing
  import opened RoutingData
  import opened RoutingInvariant
  import opened RoutingWrites

  /** A side that was never connected, and whose providers' signatures are not taken. */
  ghost predicate Free(w: World, n: nat, side: Side) {
    && n in w.nodes && !Started(StateOf(w.nodes[n], side))
    && UniqueProvider(w.t, Connecting(w, n, side).attached)
  }

  lemma FreeRequire(w: World, n: nat)
    requires Keeps(w) && n in w.nodes && !Started(w.nodes[n].requireState)
    ensures Free(w, n, Require)
  {
    hide Keeps, UniqueProvider, Ports, FirstPorts;
    KeepsFacts(w);
    SameUnique(w, n);
  }

  lemma FreeFacts(w: World, n: nat, side: Side)
    requires Keeps(w) && Free(w, n, side)
    ensures w.nodes.Keys == w.t.Keys
    ensures forall x :: x in w.attached ==> !(x.node == n && x.side == side)
  {
    hide Keeps, UniqueProvider, FirstPorts, Ports;
    KeepsFacts(w);
    NotAttached(w, n, side);
  }

  /** The ports of one side are attached and their couples recorded, but nothing is delivered. */
  ghost predicate Attaching(w: World, now: World, n: nat, side: Side, pairs: seq<Pair>, modified: seq<nat>) {
    && Keeps(w) && Free(w, n, side) && SameBare(w.nodes, now.nodes) && n in now.nodes
    && now == w.(nodes := now.nodes, attached := Connecting(w, n, side).attached)
    && PairsExact(w.t, w.attached, now.attached, pairs) && Records(w.t, now.nodes, modified, pairs, 1)
  }

  lemma AttachingReady(w: World, now: World, n: nat, side: Side, pairs: seq<Pair>, modified: seq<nat>)
    requires Keeps(w) && Free(w, n, side) && SameBare(w.nodes, now.nodes)
    requires now == w.(nodes := now.nodes, attached := w.attached + FirstPorts(n, side, |Ports(w.t, n, side)|))
    requires PairsExact(w.t, w.attached, now.attached, pairs) && Records(w.t, now.nodes, modified, pairs, 1)
    ensures Attaching(w, now, n, side, pairs, modified)
  {
    hide Keeps, PairsExact, Records, FirstPorts, Ports, UniqueProvider;
  }


  /** The nodes with one side in a given state. */
  function InState(nodes: Nodes, n: nat, side: Side, state: DataState): Nodes
    requires n in nodes
  {
    nodes[n := WithState(nodes[n], side, state)]
  }

  /** What delivering the couples of a side needs, whether its state has been set or not. */
  lemma AttachingFacts(w: World, now: World, n: nat, side: Side, pairs: seq<Pair>, modified: seq<nat>, state: DataState)
    requires Attaching(w, now, n, side, pairs, modified)
    ensures now.t == w.t && n in w.nodes && n in now.nodes && (state == StateOf(w.nodes[n], side) ==> InState(now.nodes, n, side, state) == now.nodes)
    ensures WellFormed(w.t) && PortsOf(w.t, now.attached) && UniqueProvider(w.t, now.attached)
    ensures var start := InState(now.nodes, n, side, state);
            && Shape(w.t, start) && ReceiversValid(w.t, start) && ReceiversCoherent(w.t, start, now.attached)
            && NewCouples(w.t, now.attached, start, pairs)
            && Delivering(w.t, now.attached, start, start, {})
            && Table(start[n], side) == Table(now.nodes[n], side)
    ensures var table := Table(now.nodes[n], side);
            TableRecords(table, |Ports(w.t, n, side)|, n, side, pairs, 1) && (table.None? ==> pairs == [])
    ensures forall p, r :: (p, r) in pairs ==> if side.Provide? then p == Port(n, Provide, p.id) else r == Port(n, Require, r.id)
  {
    hide Keeps, PairsExact, Records, FirstPorts, Ports, UniqueProvider, WellFormed, PortsOf, ReceiversValid, ReceiversCoherent, SameBare, Shape, NewCouples, Receivers, Held, Delivering;
    var v, start := w.(nodes := now.nodes), InState(now.nodes, n, side, state);
    BareKeeps(w, now.nodes);
    BareStates(w.nodes, now.nodes);
    KeepsFacts(v);
    DeliveryReady(v, n, side, pairs);
    DeliveryTable(v, n, side, pairs, modified);
    StateRouting(w.t, now.attached, now.nodes, n, side, state);
    StateCouples(w.t, now.attached, now.nodes, pairs, n, side, state);
    DeliveringStarts(w.t, now.attached, start);
  }

  lemma StateCouples(t: Topology, attached: set<Port>, nodes: Nodes, pairs: seq<Pair>, n: nat, side: Side, state: DataState)
    requires NewCouples(t, attached, nodes, pairs) && n in nodes
    ensures NewCouples(t, attached, InState(nodes, n, side, state), pairs)
  {
    hide Receivers, Sided, NoDup, PortsOf, Couple;
    forall p ensures Receivers(InState(nodes, n, side, state), p) == Receivers(nodes, p) {
      StateReceivers(nodes, n, side, state, p);
    }
  }

  /** A node with its state on one side, its receivers, its require port data and its change tables out of sight. */
  function Rest(node: Node, side: Side): Node {
    WithState(Undelivered(Bare(node)), side, Init)
  }

  /** The require ports that become part of a couple. */
  ghost predicate Joining(t: Topology, before: set<Port>, after: set<Port>, r: Port) {
    exists p :: Couple(t, after, p, r) && !Couple(t, before, p, r)
  }

  /** Nothing else has changed: no other state, no provide port's data, and no require port's data outside new couples. */
  ghost predicate RestSame(w: World, now: World, side: Side) {
    && now.t == w.t && now.nodes.Keys == w.nodes.Keys && now.gatheredProvide == w.gatheredProvide && now.gatheredRequire == w.gatheredRequire
    && (forall m :: m in w.nodes ==> Rest(now.nodes[m], side) == Rest(w.nodes[m], side))
    && (forall x :: IsPort(w.t, x) && x.side.Require? && !Joining(w.t, w.attached, now.attached, x) ==>
      Held(w.t, now.nodes, x) == Held(w.t, w.nodes, x))
  }

  /** One side of a node has been connected and delivered; its state is `state`, where it should be `Connected`. */
  ghost predicate ConnectedFrom(w: World, now: World, n: nat, side: Side, state: DataState) {
    && n in w.nodes && n in now.nodes && StateOf(now.nodes[n], side) == state
    && now.attached == w.attached + FirstPorts(n, side, |Ports(w.t, n, side)|) && RestSame(w, now, side)
    && (forall m :: m in w.nodes && m != n ==> m in now.nodes && StateOf(now.nodes[m], side) == StateOf(w.nodes[m], side))
    && Keeps(now.(nodes := InState(now.nodes, n, side, Connected)))
  }

  /** What connecting one side of a node does to the world. */
  ghost predicate SideConnected(w: World, now: World, n: nat, side: Side) {
    ConnectedFrom(w, now, n, side, Connected)
  }

  lemma DeliveredFrom(w: World, middle: World, n: nat, side: Side, pairs: seq<Pair>, modified: seq<nat>, state: DataState, nodes: Nodes, done: set<Pair>)
    requires Attaching(w, middle, n, side, pairs, modified)
    requires Delivering(w.t, middle.attached, InState(middle.nodes, n, side, state), nodes, done)
    requires forall p, r :: (p, r) in done <==> (p, r) in pairs
    ensures ConnectedFrom(w, middle.(nodes := nodes), n, side, state)
    ensures TablesListed(nodes, modified) && nodes.Keys == w.t.Keys
  {
    hide Keeps, PairsExact, Records, FirstPorts, Ports, UniqueProvider, SameBare, Receivers, Held, Delivering, TablesListed, RestSame;
    DeliveredStates(w, middle, n, side, pairs, modified, state, nodes, done);
    DeliveredWorld(w, middle, n, side, pairs, modified, state, nodes, done);
    DeliveredRest(w, middle, n, side, pairs, modified, state, nodes, done);
    DeliveredTables(w, middle, n, side, pairs, modified, state, nodes, done);
  }

  lemma DeliveredTables(w: World, middle: World, n: nat, side: Side, pairs: seq<Pair>, modified: seq<nat>, state: DataState, nodes: Nodes, done: set<Pair>)
    requires Attaching(w, middle, n, side, pairs, modified)
    requires Delivering(w.t, middle.attached, InState(middle.nodes, n, side, state), nodes, done)
    ensures TablesListed(nodes, modified) && nodes.Keys == w.t.Keys
  {
    hide Keeps, PairsExact, Records, FirstPorts, Ports, UniqueProvider, SameBare, Receivers, Held, Delivering, TablesListed, RestSame, WellFormed, Shape, PortsOf, ReceiversValid, ReceiversCoherent, Free, InState;
    var start := InState(middle.nodes, n, side, state);
    KeepsFacts(w);
    SameBareKeys(w.nodes, middle.nodes);
    StateKeys(middle.nodes, n, side, state);
    StateRecords(w.t, middle.nodes, modified, pairs, n, side, state);
    DeliveryTables(w.t, middle.attached, start, nodes, done, modified, pairs);
  }

  lemma StateKeys(nodes: Nodes, n: nat, side: Side, state: DataState)
    requires n in nodes
    ensures InState(nodes, n, side, state).Keys == nodes.Keys
  {
  }

  lemma StateRecords(t: Topology, nodes: Nodes, modified: seq<nat>, pairs: seq<Pair>, n: nat, side: Side, state: DataState)
    requires n in nodes && Records(t, nodes, modified, pairs, 1)
    ensures Records(t, InState(nodes, n, side, state), modified, pairs, 1)
  {
    hide TableRecords, Ports;
    var b := InState(nodes, n, side, state);
    forall m, s | m in b ensures Table(b[m], s) == Table(nodes[m], s) && TableRecords(Table(b[m], s), |Ports(t, m, s)|, m, s, pairs, 1) {
      assert TableRecords(Table(nodes[m], s), |Ports(t, m, s)|, m, s, pairs, 1);
    }
  }

  lemma DeliveredStates(w: World, middle: World, n: nat, side: Side, pairs: seq<Pair>, modified: seq<nat>, state: DataState, nodes: Nodes, done: set<Pair>)
    requires Attaching(w, middle, n, side, pairs, modified)
    requires Delivering(w.t, middle.attached, InState(middle.nodes, n, side, state), nodes, done)
    ensures n in w.nodes && n in nodes && StateOf(nodes[n], side) == state
    ensures forall m :: m in w.nodes && m != n ==> m in nodes && StateOf(nodes[m], side) == StateOf(w.nodes[m], side)
  {
    hide Keeps, PairsExact, Records, FirstPorts, Ports, UniqueProvider, SameBare, Receivers, Held, Shape, ReceiversValid, ReceiversCoherent, OthersHold, Delivered, SameUndelivered;
    SameBareKeys(w.nodes, middle.nodes);
    BareStates(w.nodes, middle.nodes);
    UndeliveredStates(InState(middle.nodes, n, side, state), nodes);
  }

  lemma DeliveredWorld(w: World, middle: World, n: nat, side: Side, pairs: seq<Pair>, modified: seq<nat>, state: DataState, nodes: Nodes, done: set<Pair>)
    requires Attaching(w, middle, n, side, pairs, modified) && n in nodes
    requires Delivering(w.t, middle.attached, InState(middle.nodes, n, side, state), nodes, done)
    requires forall p, r :: (p, r) in done <==> (p, r) in pairs
    ensures Keeps(middle.(nodes := InState(nodes, n, side, Connected)))
  {
    hide Keeps, PairsExact, Records, FirstPorts, Ports, UniqueProvider, SameBare, Receivers, Held, Delivering;
    var v := w.(nodes := middle.nodes);
    BareKeeps(w, middle.nodes);
    BareStates(w.nodes, middle.nodes);
    DeliveringState(w.t, middle.attached, InState(middle.nodes, n, side, state), nodes, done, n, side, Connected);
    StateTwice(middle.nodes, n, side, state, Connected);
    DeliveredKeeps(v, n, side, pairs, done, InState(nodes, n, side, Connected));
  }

  lemma StateTwice(nodes: Nodes, n: nat, side: Side, a: DataState, b: DataState)
    requires n in nodes
    ensures InState(InState(nodes, n, side, a), n, side, b) == InState(nodes, n, side, b)
  {
  }

  lemma DeliveredRest(w: World, middle: World, n: nat, side: Side, pairs: seq<Pair>, modified: seq<nat>, state: DataState, nodes: Nodes, done: set<Pair>)
    requires Attaching(w, middle, n, side, pairs, modified)
    requires Delivering(w.t, middle.attached, InState(middle.nodes, n, side, state), nodes, done)
    requires forall p, r :: (p, r) in done <==> (p, r) in pairs
    ensures RestSame(w, middle.(nodes := nodes), side)
  {
    hide Keeps, Records, FirstPorts, Ports, UniqueProvider, Receivers, Held, Shape, ReceiversValid, ReceiversCoherent, Delivered, NoDup, Couple, IsPort, InState, SameBare, SameUndelivered, Rest, Takers, Joining, PairsExact;
    StateKeys(middle.nodes, n, side, state);
    SameBareKeys(w.nodes, middle.nodes);
    UndeliveredRest(w.nodes, middle.nodes, n, side, state, nodes);
    forall x | IsPort(w.t, x) && x.side.Require? && !Joining(w.t, w.attached, middle.attached, x)
      ensures Held(w.t, nodes, x) == Held(w.t, w.nodes, x)
    {
      NotTaken(w.t, w.attached, middle.attached, pairs, done, x);
      StateKeepsHeld(w.t, middle.nodes, n, side, state, x);
      BareHeld(w.t, w.nodes, middle.nodes, x);
    }
  }

  lemma StateKeepsHeld(t: Topology, nodes: Nodes, n: nat, side: Side, state: DataState, x: Port)
    requires n in nodes
    ensures Held(t, InState(nodes, n, side, state), x) == Held(t, nodes, x)
  {
    hide Held;
    StateHeld(t, nodes, n, side, state, x);
  }

  /** Ports that join no new couple take nothing. */
  lemma NotTaken(t: Topology, small: set<Port>, large: set<Port>, pairs: seq<Pair>, done: set<Pair>, x: Port)
    requires PairsExact(t, small, large, pairs) && !Joining(t, small, large, x)
    requires forall p, r :: (p, r) in done <==> (p, r) in pairs
    ensures x !in Takers(done)
  {
    hide Couple, NoDup;
    forall pair | pair in done ensures pair.1 != x {
      assert (pair.0, pair.1) in pairs;
    }
  }

  lemma UndeliveredRest(a: Nodes, b: Nodes, n: nat, side: Side, state: DataState, nodes: Nodes)
    requires SameBare(a, b) && n in b && SameUndelivered(InState(b, n, side, state), nodes)
    ensures nodes.Keys == a.Keys && forall m :: m in a ==> Rest(nodes[m], side) == Rest(a[m], side)
  {
    hide Rest;
    var start := InState(b, n, side, state);
    forall m | m in a ensures m in nodes && Rest(nodes[m], side) == Rest(a[m], side) {
      assert Undelivered(nodes[m]) == Undelivered(start[m]);
      assert Bare(b[m]) == Bare(a[m]);
      RestOnly(nodes[m], start[m], side);
      RestState(b[m], side, state);
      RestBare(b[m], a[m], side);
    }
  }

  lemma RestOnly(a: Node, b: Node, side: Side)
    requires Undelivered(a) == Undelivered(b)
    ensures Rest(a, side) == Rest(b, side)
  {
    assert Undelivered(Bare(a)) == Bare(Undelivered(a));
    assert Undelivered(Bare(b)) == Bare(Undelivered(b));
  }

  lemma RestState(a: Node, side: Side, state: DataState)
    ensures Rest(WithState(a, side, state), side) == Rest(a, side)
  {
  }

  lemma RestBare(a: Node, b: Node, side: Side)
    requires Bare(a) == Bare(b)
    ensures Rest(a, side) == Rest(b, side)
  {
  }

  lemma ClearedFrom(w: World, delivered: World, now: World, n: nat, side: Side, state: DataState)
    requires ConnectedFrom(w, delivered, n, side, state) && SameBare(delivered.nodes, now.nodes)
    requires now == delivered.(nodes := now.nodes)
    ensures ConnectedFrom(w, now, n, side, state)
  {
    hide Keeps, SameBare, FirstPorts, Ports, Held, Rest, Joining, IsPort;
    SameBareKeys(delivered.nodes, now.nodes);
    BareStates(delivered.nodes, now.nodes);
    StateBare(delivered.nodes, now.nodes, n, side, Connected);
    BareKeeps(delivered.(nodes := InState(delivered.nodes, n, side, Connected)), InState(now.nodes, n, side, Connected));
    ClearedRest(w, delivered, now, side);
  }

  lemma ClearedRest(w: World, delivered: World, now: World, side: Side)
    requires RestSame(w, delivered, side) && SameBare(delivered.nodes, now.nodes) && now == delivered.(nodes := now.nodes)
    ensures RestSame(w, now, side)
  {
    hide Held, Rest, Joining, IsPort;
    forall m | m in w.nodes ensures Rest(now.nodes[m], side) == Rest(w.nodes[m], side) {
      assert Bare(delivered.nodes[m]) == Bare(now.nodes[m]);
      RestBare(delivered.nodes[m], now.nodes[m], side);
    }
    forall x ensures Held(w.t, now.nodes, x) == Held(w.t, delivered.nodes, x) {
      BareHeld(w.t, delivered.nodes, now.nodes, x);
    }
  }

  /** Setting the state ends the connecting of a side. */
  lemma ConnectedFacts(w: World, now: World, n: nat, side: Side, state: DataState)
    requires ConnectedFrom(w, now, n, side, state)
    ensures n in now.nodes
    ensures var v := now.(nodes := InState(now.nodes, n, side, Connected)); Keeps(v) && SideConnected(w, v, n, side)
  {
    hide Keeps, FirstPorts, Ports, RestSame, InState;
    var v := now.(nodes := InState(now.nodes, n, side, Connected));
    StateTwice(now.nodes, n, side, Connected, Connected);
    ConnectedRest(w, now, n, side);
    ConnectedStates(now.nodes, n, side);
  }

  lemma ConnectedStates(nodes: Nodes, n: nat, side: Side)
    requires n in nodes
    ensures var b := InState(nodes, n, side, Connected);
            n in b && StateOf(b[n], side) == Connected && forall m :: m in nodes && m != n ==> m in b && StateOf(b[m], side) == StateOf(nodes[m], side)
  {
  }

  lemma ConnectedRest(w: World, now: World, n: nat, side: Side)
    requires RestSame(w, now, side) && n in now.nodes
    ensures RestSame(w, now.(nodes := InState(now.nodes, n, side, Connected)), side)
  {
    hide Held, Joining, IsPort, Rest;
    var v := now.(nodes := InState(now.nodes, n, side, Connected));
    forall m | m in w.nodes ensures Rest(v.nodes[m], side) == Rest(w.nodes[m], side) {
      assert Rest(now.nodes[m], side) == Rest(w.nodes[m], side);
      RestState(now.nodes[m], side, Connected);
    }
    forall x ensures Held(w.t, v.nodes, x) == Held(w.t, now.nodes, x) {
      StateHeld(w.t, now.nodes, n, side, Connected, x);
    }
  }

  lemma ConnectedKeeps(w: World, now: World, n: nat, side: Side)
    requires ConnectedFrom(w, now, n, side, Connected)
    ensures Keeps(now) && SideConnected(w, now, n, side)
  {
    hide Keeps, RestSame, FirstPorts, Ports;
    assert InState(now.nodes, n, side, Connected) == now.nodes;
  }

  /** What a write to a node's provide ports does, state by state. */
  ghost predicate WriteOutcome(w: World, now: World, n: nat, offset: nat, data: seq<byte>, error: Error)
    requires n in w.nodes
  {
    match w.nodes[n].provideState
    case Init => error == InternalError && now == w
    case WaitingFileInfo => error == InternalError && now == w
    case WaitingForFileOpenRequest => error == NoError && now == w
    case Disconnected => error == NoError && now == w
    case WaitingForFileData =>
      if offset + |data| > |w.nodes[n].provideData| then error == InvalidArgumentError && now == w
      else error == NoError && SideConnected(w.(nodes := WithWritten(w.nodes, n, offset, data)), now, n, Provide)
    case Connected =>
      if offset + |data| > |w.nodes[n].provideData| then error == InvalidArgumentError && now == w
      else error == NoError && DataRouted(w, now, n, offset, data)
  }

  lemma WrittenFree(w: World, n: nat, offset: nat, data: seq<byte>)
    requires Keeps(w) && Free(w, n, Provide) && offset + |data| <= |w.nodes[n].provideData|
    ensures var v := w.(nodes := WithWritten(w.nodes, n, offset, data)); Keeps(v) && Free(v, n, Provide)
  {
    hide Keeps, UniqueProvider, FirstPorts, Ports;
    UnconnectedDataKeeps(w, n, WriteAt(w.nodes[n].provideData, offset, data));
  }

  lemma WrittenNoTables(nodes: Nodes, n: nat, offset: nat, data: seq<byte>)
    requires NoTables(nodes) && n in nodes && offset + |data| <= |nodes[n].provideData|
    ensures NoTables(WithWritten(nodes, n, offset, data))
  {
    hide WriteAt;
    var b := WithWritten(nodes, n, offset, data);
    forall m, side | m in b ensures Table(b[m], side).None? {
      assert Table(nodes[m], side).None?;
    }
  }

  lemma RoutedNoTables(w: World, now: World, n: nat, offset: nat, data: seq<byte>)
    requires DataRouted(w, now, n, offset, data) && NoTables(w.nodes)
    ensures NoTables(now.nodes)
  {
    hide Feeds, Held, Takers, OthersHold, Shape, NoTables, WithWritten;
    WrittenNoTables(w.nodes, n, offset, data);
    UnfedNoTables(WithWritten(w.nodes, n, offset, data), now.nodes);
  }

  lemma UnfedNoTables(a: Nodes, b: Nodes)
    requires a.Keys == b.Keys && (forall n :: n in a ==> Unfed(b[n]) == Unfed(a[n])) && NoTables(a)
    ensures NoTables(b)
  {
    forall m, side | m in b ensures Table(b[m], side).None? {
      assert Table(a[m], side).None? && Unfed(b[m]) == Unfed(a[m]);
    }
  }

  /** Sides that were not connected may wait for whatever they like. */
  lemma StateSetKeeps(w: World, n: nat, side: Side, state: DataState)
    requires Keeps(w) && n in w.nodes && !Started(StateOf(w.nodes[n], side)) && !Started(state)
    ensures Keeps(w.(nodes := InState(w.nodes, n, side, state)))
  {
    hide Sig, Receivers, Held, WellFormed, Shape, IsPort, UniqueProvider, ReceiversValid, ReceiversCoherent, Ports, Couple;
    var v := w.(nodes := InState(w.nodes, n, side, state));
    StateRouting(w.t, w.attached, w.nodes, n, side, state);
    forall p ensures Receivers(v.nodes, p) == Receivers(w.nodes, p) {
      StateReceivers(w.nodes, n, side, state, p);
    }
    assert forall p, r :: Pending(v, p, r) <==> Pending(w, p, r);
    StateSetFits(w, n, side, state);
    hide StatesFit, GatheredFit;
    assert ReceiversExact(v);
    NotStartedMore(w, v);
  }

  lemma StateSetFits(w: World, n: nat, side: Side, state: DataState)
    requires StatesFit(w) && GatheredFit(w) && n in w.nodes && !Started(StateOf(w.nodes[n], side)) && !Started(state)
    ensures var v := w.(nodes := InState(w.nodes, n, side, state)); StatesFit(v) && GatheredFit(v)
    ensures forall x :: StartedPort(w.nodes, x) ==> StartedPort(InState(w.nodes, n, side, state), x)
  {
    hide IsPort, Ports, StatesFit, GatheredFit, StartedPort;
    StateSetStates(w, n, side, state);
    StateSetGathered(w, n, side, state);
    StateSetStarted(w.nodes, n, side, state);
  }

  lemma StateSetStates(w: World, n: nat, side: Side, state: DataState)
    requires StatesFit(w) && n in w.nodes && !Started(StateOf(w.nodes[n], side)) && !Started(state)
    ensures StatesFit(w.(nodes := InState(w.nodes, n, side, state)))
  {
    hide IsPort;
  }

  lemma StateSetGathered(w: World, n: nat, side: Side, state: DataState)
    requires GatheredFit(w) && n in w.nodes && !Started(StateOf(w.nodes[n], side))
    ensures GatheredFit(w.(nodes := InState(w.nodes, n, side, state)))
  {
    hide Ports;
  }

  lemma StateSetStarted(nodes: Nodes, n: nat, side: Side, state: DataState)
    requires n in nodes && !Started(StateOf(nodes[n], side))
    ensures forall x :: StartedPort(nodes, x) ==> StartedPort(InState(nodes, n, side, state), x)
  {
  }

  /** No provider is attached under a signature of the node's provide ports, and these differ. */
  predicate SignaturesFree(t: Topology, m: SignatureMap, n: nat) {
    var ports := Ports(t, n, Provide);
    && (forall i | 0 <= i < |ports| :: EntryOf(m, ports[i].signature).providePorts == [])
    && (forall i, j | 0 <= i < j < |ports| :: ports[i].signature != ports[j].signature)
  }

  /** Which is what keeps providers unique. */
  lemma SignaturesFreeUnique(w: World, m: SignatureMap, n: nat)
    requires Keeps(w) && MapExact(w.t, m, w.attached) && SignaturesFree(w.t, m, n) && n in w.nodes
    requires w.nodes[n].provideState == WaitingForFileData
    ensures Free(w, n, Provide)
  {
    hide Keeps, Ports, MapExact, FirstPorts, IsPort, Receivers, Held;
    KeepsFacts(w);
    var att := Connecting(w, n, Provide).attached;
    forall p, q | p in att && q in att && p.side.Provide? && q.side.Provide? && Sig(w.t, p) == Sig(w.t, q) ensures p == q {
      FirstPortsAre(w.t, n, Provide, p);
      FirstPortsAre(w.t, n, Provide, q);
      if p !in w.attached {
        FreePort(w, m, n, p, q);
      } else if q !in w.attached {
        FreePort(w, m, n, q, p);
      }
    }
  }

  /** And nothing less would do. */
  lemma UniqueSignaturesFree(w: World, m: SignatureMap, n: nat)
    requires Keeps(w) && MapExact(w.t, m, w.attached) && Free(w, n, Provide)
    ensures SignaturesFree(w.t, m, n)
  {
    hide Keeps, MapExact, FirstPorts, Receivers, Held;
    var ports, att := Ports(w.t, n, Provide), Connecting(w, n, Provide).attached;
    FreeFacts(w, n, Provide);
    forall i | 0 <= i < |ports| ensures EntryOf(m, ports[i].signature).providePorts == [] {
      FirstPortsAre(w.t, n, Provide, Port(n, Provide, i));
      EntryExact(w.t, m, w.attached, ports[i].signature);
      var taken := EntryOf(m, ports[i].signature).providePorts;
      assert Sig(w.t, Port(n, Provide, i)) == ports[i].signature;
      EmptyOrNot(taken);
    }
    forall i, j | 0 <= i < j < |ports| ensures ports[i].signature != ports[j].signature {
      FirstPortsAre(w.t, n, Provide, Port(n, Provide, i));
      FirstPortsAre(w.t, n, Provide, Port(n, Provide, j));
      assert Sig(w.t, Port(n, Provide, i)) == ports[i].signature && Sig(w.t, Port(n, Provide, j)) == ports[j].signature;
    }
  }

  lemma FreePort(w: World, m: SignatureMap, n: nat, p: Port, q: Port)
    requires MapExact(w.t, m, w.attached) && SignaturesFree(w.t, m, n)
    requires IsPort(w.t, p) && p.node == n && p.side.Provide? && q.side.Provide? && Sig(w.t, p) == Sig(w.t, q)
    requires q in w.attached || (IsPort(w.t, q) && q.node == n)
    ensures p == q
  {
    hide MapExact;
    assert Sig(w.t, p) == Ports(w.t, n, Provide)[p.id].signature;
    if q in w.attached {
      TakenSignature(w, m, q);
    }
  }

  lemma TakenSignature(w: World, m: SignatureMap, q: Port)
    requires MapExact(w.t, m, w.attached) && q in w.attached && q.side.Provide?
    ensures EntryOf(m, Sig(w.t, q)).providePorts != []
  {
    hide MapExact, Sig;
    EntryExact(w.t, m, w.attached, Sig(w.t, q));
  }

  lemma InitialKeeps(w: World)
    requires w.attached == {} && w.gatheredProvide == map[] && w.gatheredRequire == map[]
    requires WellFormed(w.t) && Shape(w.t, w.nodes)
    requires forall n :: n in w.nodes ==> !Started(w.nodes[n].provideState) && !Started(w.nodes[n].requireState)
    requires forall p :: Receivers(w.nodes, p) == []
    ensures Keeps(w) && MapExact(w.t, map[], w.attached)
  {
    hide Sig, Receivers, Held, WellFormed, Shape, IsPort;
  }

  lemma KeepsFacts(w: World)
    requires Keeps(w)
    ensures WellFormed(w.t) && Shape(w.t, w.nodes) && PortsOf(w.t, w.attached) && UniqueProvider(w.t, w.attached)
    ensures ReceiversValid(w.t, w.nodes) && ReceiversCoherent(w.t, w.nodes, w.attached)
    ensures w.nodes.Keys == w.t.Keys
  {
    hide Sig, Receivers, Held, WellFormed, IsPort, UniqueProvider, ReceiversValid, ReceiversCoherent, TotalSize;
  }

  lemma NotAttached(w: World, n: nat, side: Side)
    requires Keeps(w) && n in w.nodes && !Started(StateOf(w.nodes[n], side))
    ensures forall x :: x in w.attached ==> !(x.node == n && x.side == side)
  {
    hide Sig, Receivers, Held, WellFormed, IsPort, UniqueProvider, ReceiversValid, ReceiversCoherent, Shape, ReceiversExact, NotStartedUnused;
  }

  lemma NoTablesRecorded(t: Topology, nodes: Nodes)
    requires NoTables(nodes)
    ensures forall modified, sign :: Records(t, nodes, modified, [], sign)
  {
    hide Ports;
  }

  /** No provider is added with the require ports of a node. */
  lemma SameUnique(w: World, n: nat)
    requires UniqueProvider(w.t, w.attached)
    ensures UniqueProvider(w.t, w.attached + FirstPorts(n, Require, |Ports(w.t, n, Require)|))
  {
    hide Sig, Ports;
  }

  lemma StateBare(a: Nodes, b: Nodes, n: nat, side: Side, state: DataState)
    requires SameBare(a, b) && n in a
    ensures n in b && SameBare(a[n := WithState(a[n], side, state)], b[n := WithState(b[n], side, state)])
  {
    forall m | m in a
      ensures Bare(a[n := WithState(a[n], side, state)][m]) == Bare(b[n := WithState(b[n], side, state)][m])
    {
      assert Bare(a[m]) == Bare(b[m]);
    }
  }

  lemma StateNoTables(nodes: Nodes, n: nat, side: Side, state: DataState)
    requires NoTables(nodes) && n in nodes
    ensures NoTables(nodes[n := WithState(nodes[n], side, state)])
  {
    var b := nodes[n := WithState(nodes[n], side, state)];
    forall m, s | m in b ensures Table(b[m], s).None? {
      assert Table(nodes[m], s).None?;
    }
  }

  /** A table that was never created recorded nothing. */
  lemma NothingForNode(t: Topology, nodes: Nodes, modified: seq<nat>, pairs: seq<Pair>, n: nat, side: Side)
    requires Records(t, nodes, modified, pairs, 1) && n in nodes && Table(nodes[n], side).None? && Sided(pairs)
    requires forall p, r :: (p, r) in pairs ==> if side.Provide? then p == Port(n, Provide, p.id) && IsPort(t, p) else r == Port(n, Require, r.id) && IsPort(t, r)
    ensures pairs == []
  {
    hide Partners;
    assert TableRecords(Table(nodes[n], side), |Ports(t, n, side)|, n, side, pairs, 1);
    if |pairs| > 0 {
      var (p, r) := pairs[0];
      assert (p, r) in pairs;
      PartnersPairs(pairs, p, r);
    }
  }

  /** Setting a state and setting it back. */
  lemma StateBack(nodes: Nodes, n: nat, side: Side, state: DataState)
    requires n in nodes
    ensures var b := nodes[n := WithState(nodes[n], side, state)];
            b[n := WithState(b[n], side, StateOf(nodes[n], side))] == nodes
  {
  }

  /** What processing the changes of a side that is being connected needs to know. */
  lemma DeliveryReady(w: World, n: nat, side: Side, pairs: seq<Pair>)
    requires Keeps(w) && n in w.nodes && !Started(StateOf(w.nodes[n], side))
    requires var att := Connecting(w, n, side).attached; UniqueProvider(w.t, att) && PairsExact(w.t, w.attached, att, pairs)
    ensures var att := Connecting(w, n, side).attached;
            && PortsOf(w.t, att) && ReceiversCoherent(w.t, w.nodes, att) && NewCouples(w.t, att, w.nodes, pairs)
    ensures forall p, r :: (p, r) in pairs ==> if side.Provide? then p == Port(n, Provide, p.id) else r == Port(n, Require, r.id)
  {
    hide Sig, Receivers, Held, WellFormed, IsPort, UniqueProvider, ReceiversValid, ReceiversCoherent, Shape, ReceiversExact, NotStartedUnused, FirstPorts, Ports, PairsExact, StatesFit, GatheredFit, NoDup, Sided, Couple;
    var v := Connecting(w, n, side);
    ConnectingKeeps(w, n, side);
    ConnectingPairs(w, n, side, pairs);
    StateBack(w.nodes, n, side, Connected);
    StateRouting(w.t, v.attached, v.nodes, n, side, StateOf(w.nodes[n], side));
    forall p ensures Receivers(v.nodes, p) == Receivers(w.nodes, p) {
      StateReceivers(w.nodes, n, side, Connected, p);
    }
  }

  /** The change table of a side that is being connected. */
  lemma DeliveryTable(w: World, n: nat, side: Side, pairs: seq<Pair>, modified: seq<nat>)
    requires n in w.nodes && Records(w.t, w.nodes, modified, pairs, 1)
    requires NewCouples(w.t, Connecting(w, n, side).attached, w.nodes, pairs)
    requires forall p, r :: (p, r) in pairs ==> if side.Provide? then p == Port(n, Provide, p.id) else r == Port(n, Require, r.id)
    ensures TableRecords(Table(w.nodes[n], side), |Ports(w.t, n, side)|, n, side, pairs, 1)
    ensures Table(w.nodes[n], side).None? ==> pairs == []
  {
    hide Partners, Sig, Receivers, FirstPorts, NoDup;
    if Table(w.nodes[n], side).None? {
      NothingForNode(w.t, w.nodes, modified, pairs, n, side);
    }
  }

  /** Delivery leaves change tables alone. */
  lemma DeliveryTables(t: Topology, attached: set<Port>, a: Nodes, b: Nodes, done: set<Pair>, modified: seq<nat>, pairs: seq<Pair>)
    requires Delivering(t, attached, a, b, done) && Records(t, a, modified, pairs, 1)
    ensures TablesListed(b, modified) && b.Keys == a.Keys
  {
    hide Sig, Receivers, Held, ReceiversValid, ReceiversCoherent, Shape, TableRecords, Delivered;
    forall n, side | n in b && Table(b[n], side).Some? ensures n in modified {
      assert Undelivered(a[n]) == Undelivered(b[n]);
      assert Table(a[n], side) == Table(b[n], side);
    }
  }

  lemma NotBefore(xs: seq<Port>, i: nat)
    requires NoDup(xs) && i < |xs|
    ensures xs[i] !in xs[..i]
  {
  }

  lemma CoupleIds(t: Topology, attached: set<Port>, p: Port, r: Port)
    requires PortsOf(t, attached) && Couple(t, attached, p, r)
    ensures p.id < |Ports(t, p.node, Provide)| && r.id < |Ports(t, r.node, Require)|
    ensures p.side.Provide? && r.side.Require?
  {
  }

  lemma NothingRecorded(t: Topology, attached: set<Port>)
    ensures PairsExact(t, attached, attached, [])
  {
  }

  /** Every node with a change table is on the list of modified nodes. */
  ghost predicate TablesListed(nodes: Nodes, modified: seq<nat>) {
    forall n, side :: n in nodes && Table(nodes[n], side).Some? ==> n in modified
  }

  ghost predicate NoTables(nodes: Nodes) {
    forall n, side :: n in nodes ==> Table(nodes[n], side).None?
  }

  lemma DeliveringShape(t: Topology, attached: set<Port>, start: Nodes, nodes: Nodes, done: set<Pair>)
    requires Delivering(t, attached, start, nodes, done)
    ensures Shape(t, nodes) && SameUndelivered(start, nodes)
  {
  }

  /** Both ports of a couple have their place in their nodes' data, and are of one size. */
  lemma CoupleFits(t: Topology, attached: set<Port>, nodes: Nodes, p: Port, r: Port)
    requires WellFormed(t) && PortsOf(t, attached) && Couple(t, attached, p, r) && Shape(t, nodes)
    ensures p.side.Provide? && r.side.Require? && Info(t, p).size == Info(t, r).size
    ensures p.node in nodes && Info(t, p).offset + Info(t, p).size <= |nodes[p.node].provideData|
    ensures r.node in nodes && Info(t, r).offset + Info(t, r).size <= |nodes[r.node].requireData|
  {
    HeldInside(t, nodes, p);
    HeldInside(t, nodes, r);
    SizesEqual(t, p, r);
  }

  lemma ReceiverFits(t: Topology, nodes: Nodes, p: Port, r: Port)
    requires p.node in nodes && p.id < |nodes[p.node].connectors| && r.node in nodes
    ensures var d := WithReceiver(nodes, p, r);
            && r.node in d && p.node in d && |d[p.node].provideData| == |nodes[p.node].provideData|
            && |d[r.node].requireData| == |nodes[r.node].requireData|
  {
  }

  lemma AttachedPorts(t: Topology, m: SignatureMap, attached: set<Port>)
    requires MapExact(t, m, attached)
    ensures forall x :: x in attached ==> IsPort(t, x) && Sig(t, x) in m
  {
    hide ListExact, Sig, Ports;
  }

  /** The opposite list of an entry, which attaching or detaching `x` does not touch. */
  lemma OppositePorts(t: Topology, e: MapEntry, s: Signature, attached: set<Port>, x: Port)
    requires ListExact(t, e.providePorts, s, Provide, attached) && ListExact(t, e.requirePorts, s, Require, attached)
    requires forall y :: y in attached ==> IsPort(t, y)
    ensures ListExact(t, e.Of(Opposite(x.side)), s, Opposite(x.side), attached)
    ensures forall y :: y in e.Of(Opposite(x.side)) ==> IsPort(t, y) && y.side == Opposite(x.side)
    ensures WithPort(e, x).Of(Opposite(x.side)) == e.Of(Opposite(x.side)) == WithoutPort(e, x).Of(Opposite(x.side))
  {
  }

  lemma PortNode(t: Topology, x: Port)
    requires IsPort(t, x)
    ensures x.node in t
  {
  }

  lemma SameBareAsSelf(nodes: Nodes)
    ensures SameBare(nodes, nodes)
  {
  }

  lemma SameBareChain(a: Nodes, b: Nodes, c: Nodes)
    requires SameBare(a, b) && SameBare(b, c)
    ensures SameBare(a, c)
  {
  }

  /** An entry that records changes of one sign does not refuse another of that sign. */
  lemma EntrySign(t: Topology, nodes: Nodes, pairs: seq<Pair>, sign: int, x: Port)
    requires sign == 1 || sign == -1
    requires x.node in nodes && Table(nodes[x.node], x.side).Some? && IsPort(t, x)
    requires |Table(nodes[x.node], x.side).value| == |Ports(t, x.node, x.side)|
    requires EntryRecords(Table(nodes[x.node], x.side).value[x.id], pairs, sign, x)
    ensures sign * Table(nodes[x.node], x.side).value[x.id].count >= 0
  {
  }
}
