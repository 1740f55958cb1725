/** What every step of the server keeps, and what it means when no detach is under way. */
module RoutingInvariant {
  import opened Bytes
  import opened Routing
  import opened RoutingData

  /**
   * The server's state between steps. `gatheredProvide` and `gatheredRequire` hold, node by
   * node, the change tables that detaching connections have taken along after releasing the
   * global lock.
   */
  datatype World = World(
    t: Topology,
    nodes: Nodes,
    attached: set<Port>,
    gatheredProvide: map<nat, seq<Change>>,
    gatheredRequire: map<nat, seq<Change>>)

  /** A detach is under way that will take `r` off the list of `p`. */
  predicate Pending(w: World, p: Port, r: Port) {
    && r.side.Require? && r.node in w.gatheredRequire && r.id < |w.gatheredRequire[r.node]|
    && w.gatheredRequire[r.node][r.id] == Change(-1, [p])
  }

  /**
   * An attached provider's receivers are exactly the attached require ports of its signature,
   * and those that a detach under way has yet to remove.
   */
  ghost predicate ReceiversExact(w: World) {
    forall p, r :: p in w.attached && p.side.Provide? ==>
      (r in Receivers(w.nodes, p) <==> Couple(w.t, w.attached, p, r) || Pending(w, p, r))
  }

  /** Nodes that were connected once. */
  predicate Started(s: DataState) { s.Connected? || s.Disconnected? }

  function StateOf(node: Node, side: Side): DataState {
    if side.Provide? then node.provideState else node.requireState
  }

  function Gathered(w: World, side: Side): map<nat, seq<Change>> {
    if side.Provide? then w.gatheredProvide else w.gatheredRequire
  }

  /** A node is connected on a side exactly while all its ports of that side are attached, or a detach is under way. */
  ghost predicate StatesFit(w: World) {
    && (forall x :: x in w.attached ==>
      x.node in w.nodes && StateOf(w.nodes[x.node], x.side).Connected? && x.node !in Gathered(w, x.side))
    && (forall x ::
      IsPort(w.t, x) && x.node in w.nodes && StateOf(w.nodes[x.node], x.side).Connected? && x.node !in Gathered(w, x.side) ==>
      x in w.attached)
  }

  predicate StartedPort(nodes: Nodes, x: Port) {
    x.node in nodes && Started(StateOf(nodes[x.node], x.side))
  }

  /** Ports of nodes that were never connected are on no list, and have no list. */
  ghost predicate NotStartedUnused(w: World) {
    && (forall p, r {:trigger r in Receivers(w.nodes, p)} :: IsPort(w.t, p) && p.side.Provide? && r in Receivers(w.nodes, p) ==>
      StartedPort(w.nodes, p) && StartedPort(w.nodes, r))
    && (forall p, r :: Pending(w, p, r) ==> IsPort(w.t, p) && p.side.Provide? && StartedPort(w.nodes, p))
  }

  ghost predicate GatheredFit(w: World) {
    && (forall n :: n in w.gatheredProvide ==>
      n in w.nodes && w.nodes[n].provideState.Connected? && |w.gatheredProvide[n]| == |Ports(w.t, n, Provide)|)
    && (forall n :: n in w.gatheredRequire ==>
      && n in w.nodes && w.nodes[n].requireState.Connected? && |w.gatheredRequire[n]| == |Ports(w.t, n, Require)|
      && forall i :: 0 <= i < |w.gatheredRequire[n]| ==>
        w.gatheredRequire[n][i].count == -|w.gatheredRequire[n][i].ports| && |w.gatheredRequire[n][i].ports| <= 1)
  }

  ghost predicate Keeps(w: World) {
    && WellFormed(w.t) && Shape(w.t, w.nodes) && PortsOf(w.t, w.attached) && UniqueProvider(w.t, w.attached)
    && ReceiversValid(w.t, w.nodes) && ReceiversCoherent(w.t, w.nodes, w.attached) && ReceiversExact(w)
    && StatesFit(w) && NotStartedUnused(w) && GatheredFit(w)
  }

  predicate Quiescent(w: World) { w.gatheredProvide == map[] && w.gatheredRequire == map[] }

  /** The connected ports of one side and signature. */
  ghost predicate ConnectedPort(w: World, x: Port, side: Side, s: Signature) {
    x.side == side && IsPort(w.t, x) && Sig(w.t, x) == s && x.node in w.nodes && StateOf(w.nodes[x.node], side).Connected?
  }

  /**
   * When no detach is under way, each connected provide port's list holds exactly the connected
   * require ports of its signature, each once, and all of them hold the provider's bytes.
   */
  lemma QuiescentRouting(w: World, p: Port)
    requires Keeps(w) && Quiescent(w) && ConnectedPort(w, p, Provide, Sig(w.t, p))
    ensures NoDup(Receivers(w.nodes, p))
    ensures forall r :: r in Receivers(w.nodes, p) <==> ConnectedPort(w, r, Require, Sig(w.t, p))
    ensures forall r :: ConnectedPort(w, r, Require, Sig(w.t, p)) ==> Held(w.t, w.nodes, r) == Held(w.t, w.nodes, p)
  {
    hide Sig, Held, Receivers, IsPort, WellFormed, Shape, UniqueProvider, GatheredFit;
    assert p in w.attached;
    forall r ensures r in w.attached && r.side.Require? && Sig(w.t, r) == Sig(w.t, p) <==> ConnectedPort(w, r, Require, Sig(w.t, p)) {
    }
  }

  // ---------- states that differ in change tables only ----------

  lemma BareReceivers(a: Nodes, b: Nodes, p: Port)
    requires SameBare(a, b)
    ensures Receivers(a, p) == Receivers(b, p)
  {
    assert p.node in a ==> Bare(a[p.node]).connectors == Bare(b[p.node]).connectors;
  }

  lemma BareHeld(t: Topology, a: Nodes, b: Nodes, x: Port)
    requires SameBare(a, b)
    ensures Held(t, a, x) == Held(t, b, x)
  {
    hide Info;
    assert x.node in a ==> DataOf(Bare(a[x.node]), x.side) == DataOf(Bare(b[x.node]), x.side);
  }

  lemma BareShape(t: Topology, a: Nodes, b: Nodes)
    requires SameBare(a, b) && Shape(t, a)
    ensures Shape(t, b)
  {
    hide TotalSize;
    forall n | n in b
      ensures |b[n].connectors| == |t[n].provide| && |b[n].provideData| == TotalSize(t[n].provide) && |b[n].requireData| == TotalSize(t[n].require)
    {
      assert Bare(a[n]) == Bare(b[n]);
    }
  }

  lemma BareStates(a: Nodes, b: Nodes)
    requires SameBare(a, b)
    ensures SameStates(a, b)
  {
    forall n | n in a ensures a[n].provideState == b[n].provideState && a[n].requireState == b[n].requireState {
      assert Bare(a[n]) == Bare(b[n]);
    }
  }

  /** Change tables are no concern of receivers and data. */
  lemma BareRouting(t: Topology, attached: set<Port>, a: Nodes, b: Nodes)
    requires SameBare(a, b)
    ensures Shape(t, a) ==> Shape(t, b)
    ensures ReceiversValid(t, a) ==> ReceiversValid(t, b)
    ensures ReceiversCoherent(t, a, attached) ==> ReceiversCoherent(t, b, attached)
  {
    hide Sig, Held, Receivers, IsPort, SameBare, Shape;
    if Shape(t, a) {
      BareShape(t, a, b);
    }
    forall p ensures Receivers(a, p) == Receivers(b, p) {
      BareReceivers(a, b, p);
    }
    forall x ensures Held(t, a, x) == Held(t, b, x) {
      BareHeld(t, a, b, x);
    }
  }

  lemma BareKeeps(w: World, nodes: Nodes)
    requires Keeps(w) && SameBare(w.nodes, nodes)
    ensures Keeps(w.(nodes := nodes))
  {
    hide Sig, Held, Receivers, IsPort, SameBare, Shape, WellFormed, UniqueProvider, ReceiversValid, ReceiversCoherent, StateOf;
    BareRouting(w.t, w.attached, w.nodes, nodes);
    forall p ensures Receivers(w.nodes, p) == Receivers(nodes, p) {
      BareReceivers(w.nodes, nodes, p);
    }
    SameBareKeys(w.nodes, nodes);
    BareStates(w.nodes, nodes);
    var v := w.(nodes := nodes);
    assert ReceiversExact(v);
    StatesFitSame(w, v);
    StartedSame(w.nodes, nodes);
    NotStartedSame(w, v);
    GatheredSame(w, v);
  }

  lemma SameBareKeys(a: Nodes, b: Nodes)
    requires SameBare(a, b)
    ensures a.Keys == b.Keys
  {
  }

  /** Two worlds that agree on states. */
  ghost predicate SameStates(a: Nodes, b: Nodes) {
    a.Keys == b.Keys && forall n :: n in a ==> a[n].provideState == b[n].provideState && a[n].requireState == b[n].requireState
  }

  lemma StatesFitSame(w: World, v: World)
    requires StatesFit(w) && v == w.(nodes := v.nodes) && SameStates(w.nodes, v.nodes)
    ensures StatesFit(v)
  {
    hide IsPort;
  }

  lemma StartedSame(a: Nodes, b: Nodes)
    requires SameStates(a, b)
    ensures forall x :: StartedPort(a, x) <==> StartedPort(b, x)
  {
  }

  lemma NotStartedSame(w: World, v: World)
    requires NotStartedUnused(w) && v.t == w.t && v.gatheredRequire == w.gatheredRequire
    requires forall x :: StartedPort(w.nodes, x) ==> StartedPort(v.nodes, x)
    requires forall p :: Receivers(w.nodes, p) == Receivers(v.nodes, p)
    ensures NotStartedUnused(v)
  {
    hide IsPort, Receivers, StartedPort;
    assert forall p, r :: Pending(v, p, r) <==> Pending(w, p, r);
    NotStartedMore(w, v);
  }

  lemma NotStartedMore(w: World, v: World)
    requires NotStartedUnused(w) && v.t == w.t
    requires forall x :: StartedPort(w.nodes, x) ==> StartedPort(v.nodes, x)
    requires forall p :: Receivers(w.nodes, p) == Receivers(v.nodes, p)
    requires forall p, r :: Pending(v, p, r) ==> Pending(w, p, r) || (IsPort(w.t, p) && p.side.Provide? && StartedPort(v.nodes, p))
    ensures NotStartedUnused(v)
  {
    hide IsPort, Receivers, StartedPort, Pending;
    forall p, r | IsPort(v.t, p) && p.side.Provide? && r in Receivers(v.nodes, p)
      ensures StartedPort(v.nodes, p) && StartedPort(v.nodes, r)
    {
      assert r in Receivers(w.nodes, p);
      assert StartedPort(w.nodes, p) && StartedPort(w.nodes, r);
    }
  }

  lemma GatheredSame(w: World, v: World)
    requires GatheredFit(w) && v == w.(nodes := v.nodes) && SameStates(w.nodes, v.nodes)
    ensures GatheredFit(v)
  {
    hide Ports;
  }

  // ---------- connecting one side of a node ----------

  function WithState(node: Node, side: Side, state: DataState): Node {
    if side.Provide? then node.(provideState := state) else node.(requireState := state)
  }

  /** One side of node `n` connected, its ports attached, before anything is delivered. */
  ghost function Connecting(w: World, n: nat, side: Side): World
    requires n in w.nodes
  {
    w.(nodes := w.nodes[n := WithState(w.nodes[n], side, Connected)],
       attached := w.attached + FirstPorts(n, side, |Ports(w.t, n, side)|))
  }

  lemma FirstPortsAre(t: Topology, n: nat, side: Side, x: Port)
    ensures x in FirstPorts(n, side, |Ports(t, n, side)|) <==> IsPort(t, x) && x.node == n && x.side == side
  {
    if IsPort(t, x) && x.node == n && x.side == side {
      assert x == Port(n, side, x.id);
    }
  }

  lemma StateReceivers(nodes: Nodes, n: nat, side: Side, state: DataState, p: Port)
    requires n in nodes
    ensures Receivers(nodes[n := WithState(nodes[n], side, state)], p) == Receivers(nodes, p)
  {
  }

  lemma StateHeld(t: Topology, nodes: Nodes, n: nat, side: Side, state: DataState, x: Port)
    requires n in nodes
    ensures Held(t, nodes[n := WithState(nodes[n], side, state)], x) == Held(t, nodes, x)
  {
    hide Info;
  }

  /** A change of state is no concern of receivers and data. */
  lemma StateRouting(t: Topology, attached: set<Port>, nodes: Nodes, n: nat, side: Side, state: DataState)
    requires n in nodes && Shape(t, nodes) && ReceiversValid(t, nodes)
    ensures var b := nodes[n := WithState(nodes[n], side, state)];
            && Shape(t, b) && ReceiversValid(t, b) && (ReceiversCoherent(t, nodes, attached) ==> ReceiversCoherent(t, b, attached))
  {
    hide Sig, Held, Receivers, IsPort, TotalSize;
    var b := nodes[n := WithState(nodes[n], side, state)];
    forall p ensures Receivers(nodes, p) == Receivers(b, p) {
      StateReceivers(nodes, n, side, state, p);
    }
    forall x ensures Held(t, nodes, x) == Held(t, b, x) {
      StateHeld(t, nodes, n, side, state, x);
    }
  }

  /** Ports of a side that was never connected are neither attached nor on a list. */
  lemma NotStartedPort(w: World, x: Port)
    requires Keeps(w) && x.node in w.nodes && !Started(StateOf(w.nodes[x.node], x.side)) && IsPort(w.t, x)
    ensures x !in w.attached && x.node !in Gathered(w, x.side)
    ensures x.side.Provide? ==> Receivers(w.nodes, x) == []
    ensures forall p :: IsPort(w.t, p) && p.side.Provide? ==> x !in Receivers(w.nodes, p)
    ensures forall r :: !Pending(w, x, r)
  {
    hide Sig, Held, Receivers, IsPort, WellFormed, Shape, UniqueProvider, ReceiversValid, ReceiversCoherent, ReceiversExact;
    EmptyOrNot(Receivers(w.nodes, x));
  }

  lemma EmptyOrNot(xs: seq<Port>)
    ensures xs == [] || exists x :: x in xs
  {
    assert |xs| > 0 ==> xs[0] in xs;
  }

  /** What connecting a side keeps before delivery. */
  lemma ConnectingKeeps(w: World, n: nat, side: Side)
    requires Keeps(w) && n in w.nodes && !Started(StateOf(w.nodes[n], side))
    requires UniqueProvider(w.t, Connecting(w, n, side).attached)
    ensures var v := Connecting(w, n, side);
            && Shape(v.t, v.nodes) && PortsOf(v.t, v.attached)
            && ReceiversValid(v.t, v.nodes) && ReceiversCoherent(v.t, v.nodes, v.attached)
            && StatesFit(v) && NotStartedUnused(v) && GatheredFit(v)
  {
    hide Sig, Held, Receivers, IsPort, WellFormed, Shape, UniqueProvider, ReceiversValid, ReceiversExact, FirstPorts, Ports;
    var v := Connecting(w, n, side);
    forall x ensures x in v.attached <==> x in w.attached || (IsPort(w.t, x) && x.node == n && x.side == side) {
      FirstPortsAre(w.t, n, side, x);
    }
    StateRouting(w.t, w.attached, w.nodes, n, side, Connected);
    ConnectingCoherent(w, n, side);
    ConnectingStates(w, n, side);
  }

  lemma ConnectingCoherent(w: World, n: nat, side: Side)
    requires Keeps(w) && n in w.nodes && !Started(StateOf(w.nodes[n], side))
    ensures ReceiversCoherent(w.t, Connecting(w, n, side).nodes, Connecting(w, n, side).attached)
  {
    hide Sig, Held, Receivers, IsPort, WellFormed, Shape, UniqueProvider, ReceiversValid, ReceiversExact, FirstPorts, Ports, NotStartedUnused, GatheredFit, StatesFit;
    var v := Connecting(w, n, side);
    forall p, r | p in v.attached && p.side.Provide? && r in v.attached && r in Receivers(v.nodes, p)
      ensures Held(v.t, v.nodes, r) == Held(v.t, v.nodes, p)
    {
      StateReceivers(w.nodes, n, side, Connected, p);
      StateHeld(w.t, w.nodes, n, side, Connected, p);
      StateHeld(w.t, w.nodes, n, side, Connected, r);
      FirstPortsAre(w.t, n, side, p);
      FirstPortsAre(w.t, n, side, r);
      if p !in w.attached {
        NotStartedPort(w, p);
      } else if r !in w.attached {
        NotStartedPort(w, r);
      }
    }
  }

  lemma ConnectingStates(w: World, n: nat, side: Side)
    requires Keeps(w) && n in w.nodes && !Started(StateOf(w.nodes[n], side))
    ensures var v := Connecting(w, n, side); StatesFit(v) && NotStartedUnused(v) && GatheredFit(v)
  {
    ConnectingStatesFit(w, n, side);
    ConnectingUnused(w, n, side);
    ConnectingGathered(w, n, side);
  }

  lemma ConnectingStatesFit(w: World, n: nat, side: Side)
    requires StatesFit(w) && GatheredFit(w) && n in w.nodes && !Started(StateOf(w.nodes[n], side))
    ensures StatesFit(Connecting(w, n, side))
  {
    hide IsPort, FirstPorts, Ports;
    var v := Connecting(w, n, side);
    forall x ensures x in v.attached <==> x in w.attached || (IsPort(w.t, x) && x.node == n && x.side == side) {
      FirstPortsAre(w.t, n, side, x);
    }
    assert n !in Gathered(w, side);
  }

  lemma ConnectingUnused(w: World, n: nat, side: Side)
    requires NotStartedUnused(w) && n in w.nodes
    ensures NotStartedUnused(Connecting(w, n, side))
  {
    hide IsPort, Receivers, FirstPorts, Ports, NotStartedUnused;
    var v := Connecting(w, n, side);
    assert forall x :: StartedPort(w.nodes, x) ==> StartedPort(v.nodes, x);
    forall p ensures Receivers(w.nodes, p) == Receivers(v.nodes, p) {
      StateReceivers(w.nodes, n, side, Connected, p);
    }
    NotStartedSame(w, v);
  }

  lemma ConnectingGathered(w: World, n: nat, side: Side)
    requires GatheredFit(w) && n in w.nodes
    ensures GatheredFit(Connecting(w, n, side))
  {
    hide FirstPorts, Ports;
  }

  // ---------- after delivery ----------

  /** The couples that connecting a side adds are new to their providers' lists. */
  lemma ConnectingPairs(w: World, n: nat, side: Side, pairs: seq<Pair>)
    requires Keeps(w) && n in w.nodes && !Started(StateOf(w.nodes[n], side))
    requires var v := Connecting(w, n, side); PairsExact(w.t, w.attached, v.attached, pairs) && PortsOf(w.t, v.attached)
    ensures var v := Connecting(w, n, side); NewCouples(v.t, v.attached, v.nodes, pairs)
    ensures forall p, r :: (p, r) in pairs ==> if side.Provide? then p == Port(n, Provide, p.id) else r == Port(n, Require, r.id)
  {
    hide Sig, Held, Receivers, IsPort, WellFormed, Shape, UniqueProvider, ReceiversValid, ReceiversExact, ReceiversCoherent, FirstPorts, Ports, NoDup, NotStartedUnused, GatheredFit, StatesFit;
    var v := Connecting(w, n, side);
    PairsExactSided(w.t, w.attached, v.attached, pairs);
    forall p, r | (p, r) in pairs
      ensures Couple(v.t, v.attached, p, r) && r !in Receivers(v.nodes, p)
      ensures if side.Provide? then p == Port(n, Provide, p.id) else r == Port(n, Require, r.id)
    {
      assert Couple(w.t, v.attached, p, r) && !Couple(w.t, w.attached, p, r);
      StateReceivers(w.nodes, n, side, Connected, p);
      FirstPortsAre(w.t, n, side, p);
      FirstPortsAre(w.t, n, side, r);
      if p !in w.attached {
        NotStartedPort(w, p);
      } else {
        NotStartedPort(w, r);
      }
    }
  }

  /** Once its couples are delivered the world keeps everything. */
  lemma DeliveredKeeps(w: World, n: nat, side: Side, pairs: seq<Pair>, done: set<Pair>, nodes: Nodes)
    requires Keeps(w) && n in w.nodes && !Started(StateOf(w.nodes[n], side))
    requires var v := Connecting(w, n, side);
             && UniqueProvider(w.t, v.attached) && PairsExact(w.t, w.attached, v.attached, pairs)
             && Delivering(w.t, v.attached, v.nodes, nodes, done)
    requires forall p, r :: (p, r) in done <==> (p, r) in pairs
    ensures Keeps(Connecting(w, n, side).(nodes := nodes))
  {
    hide Sig, Held, Receivers, IsPort, WellFormed, Shape, UniqueProvider, ReceiversValid, ReceiversCoherent, ReceiversExact, FirstPorts, Ports, NotStartedUnused, GatheredFit, StatesFit, NoDup, PairsExact, Delivered;
    var v := Connecting(w, n, side);
    ConnectingKeeps(w, n, side);
    UndeliveredStates(v.nodes, nodes);
    StatesFitSame(v, v.(nodes := nodes));
    GatheredSame(v, v.(nodes := nodes));
    DeliveredExact(w, n, side, pairs, done, nodes);
    DeliveredUnused(w, n, side, pairs, done, nodes);
  }

  lemma UndeliveredStates(a: Nodes, b: Nodes)
    requires SameUndelivered(a, b)
    ensures SameStates(a, b)
  {
    forall n | n in a ensures a[n].provideState == b[n].provideState && a[n].requireState == b[n].requireState {
      assert Undelivered(a[n]) == Undelivered(b[n]);
    }
  }

  lemma DeliveredExact(w: World, n: nat, side: Side, pairs: seq<Pair>, done: set<Pair>, nodes: Nodes)
    requires Keeps(w) && n in w.nodes && !Started(StateOf(w.nodes[n], side))
    requires var v := Connecting(w, n, side);
             PairsExact(w.t, w.attached, v.attached, pairs) && Delivered(w.t, v.nodes, nodes, done)
    requires forall p, r :: (p, r) in done <==> (p, r) in pairs
    ensures ReceiversExact(Connecting(w, n, side).(nodes := nodes))
  {
    hide Sig, Held, Receivers, IsPort, WellFormed, Shape, UniqueProvider, ReceiversValid, ReceiversCoherent, FirstPorts, Ports, NotStartedUnused, GatheredFit, StatesFit, NoDup;
    var v := Connecting(w, n, side);
    forall p, r | p in v.attached && p.side.Provide?
      ensures r in Receivers(nodes, p) <==> Couple(v.t, v.attached, p, r) || Pending(v, p, r)
    {
      StateReceivers(w.nodes, n, side, Connected, p);
      FirstPortsAre(w.t, n, side, p);
      assert (p, r) in done <==> (p, r) in pairs;
      assert r in Receivers(nodes, p) <==> r in Receivers(v.nodes, p) || (p, r) in done;
      if p !in w.attached {
        NotStartedPort(w, p);
        assert !Pending(w, p, r);
      }
    }
  }

  lemma DeliveredUnused(w: World, n: nat, side: Side, pairs: seq<Pair>, done: set<Pair>, nodes: Nodes)
    requires n in w.nodes
    requires var v := Connecting(w, n, side);
             && NotStartedUnused(v) && StatesFit(v) && SameStates(v.nodes, nodes)
             && PairsExact(w.t, w.attached, v.attached, pairs) && Delivered(w.t, v.nodes, nodes, done)
    requires forall p, r :: (p, r) in done <==> (p, r) in pairs
    ensures NotStartedUnused(Connecting(w, n, side).(nodes := nodes))
  {
    hide Sig, Receivers, IsPort, FirstPorts, Ports, NoDup;
    var v := Connecting(w, n, side);
    var u := v.(nodes := nodes);
    StartedSame(v.nodes, nodes);
    assert forall p, r :: Pending(u, p, r) <==> Pending(v, p, r);
    assert forall x :: x in v.attached ==> StartedPort(v.nodes, x);
    hide StatesFit, StartedPort;
    forall p, r | IsPort(u.t, p) && p.side.Provide? && r in Receivers(u.nodes, p)
      ensures StartedPort(u.nodes, p) && StartedPort(u.nodes, r)
    {
      assert (p, r) in done <==> (p, r) in pairs;
      assert r in Receivers(v.nodes, p) || (p, r) in done;
      if r in Receivers(v.nodes, p) {
        assert StartedPort(v.nodes, p) && StartedPort(v.nodes, r);
      } else {
        assert Couple(w.t, v.attached, p, r);
      }
    }
  }

  /** The state of a side may be set before its couples are delivered, or after. */
  lemma DeliveringState(t: Topology, attached: set<Port>, a: Nodes, b: Nodes, done: set<Pair>, n: nat, side: Side, state: DataState)
    requires Delivering(t, attached, a, b, done) && n in a && n in b
    ensures Delivering(t, attached, a[n := WithState(a[n], side, state)], b[n := WithState(b[n], side, state)], done)
  {
    hide Sig, Held, Receivers, IsPort, TotalSize, ReceiversValid, ReceiversCoherent, Shape;
    StateRouting(t, attached, b, n, side, state);
    forall p
      ensures Receivers(a[n := WithState(a[n], side, state)], p) == Receivers(a, p)
      ensures Receivers(b[n := WithState(b[n], side, state)], p) == Receivers(b, p)
    {
      StateReceivers(a, n, side, state, p);
      StateReceivers(b, n, side, state, p);
    }
    forall x
      ensures Held(t, a[n := WithState(a[n], side, state)], x) == Held(t, a, x)
      ensures Held(t, b[n := WithState(b[n], side, state)], x) == Held(t, b, x)
    {
      StateHeld(t, a, n, side, state, x);
      StateHeld(t, b, n, side, state, x);
    }
    forall m | m in a
      ensures Undelivered(a[n := WithState(a[n], side, state)][m]) == Undelivered(b[n := WithState(b[n], side, state)][m])
    {
      assert Undelivered(a[m]) == Undelivered(b[m]);
    }
  }

  // ---------- writing the data of a provider that is not connected ----------

  function WithProvideData(nodes: Nodes, n: nat, data: seq<byte>): Nodes
    requires n in nodes
  {
    nodes[n := nodes[n].(provideData := data)]
  }

  lemma ProvideDataFacts(t: Topology, nodes: Nodes, n: nat, data: seq<byte>)
    requires n in nodes && Shape(t, nodes) && |data| == |nodes[n].provideData|
    ensures var b := WithProvideData(nodes, n, data);
            && Shape(t, b) && SameStates(nodes, b)
            && (forall p :: Receivers(b, p) == Receivers(nodes, p))
            && (forall x: Port :: !(x.node == n && x.side.Provide?) ==> Held(t, b, x) == Held(t, nodes, x))
  {
    hide TotalSize, Info;
  }

  lemma UnconnectedDataKeeps(w: World, n: nat, data: seq<byte>)
    requires Keeps(w) && n in w.nodes && |data| == |w.nodes[n].provideData| && !Started(w.nodes[n].provideState)
    ensures Keeps(w.(nodes := WithProvideData(w.nodes, n, data)))
  {
    hide Sig, Held, Receivers, IsPort, Shape, WellFormed, UniqueProvider, TotalSize, WithProvideData;
    var v := w.(nodes := WithProvideData(w.nodes, n, data));
    ProvideDataFacts(w.t, w.nodes, n, data);
    StartedSame(w.nodes, v.nodes);
    UnattachedProvider(w, n);
    hide NotStartedUnused, StatesFit, GatheredFit;
    StatesFitSame(w, v);
    GatheredSame(w, v);
    NotStartedSame(w, v);
    assert forall p, r :: Pending(v, p, r) <==> Pending(w, p, r);
    assert ReceiversExact(v);
    forall p, r | p in v.attached && p.side.Provide? && r in v.attached && r in Receivers(v.nodes, p)
      ensures Held(v.t, v.nodes, r) == Held(v.t, v.nodes, p)
    {
      ReceiverSide(w, p, r);
    }
  }

  lemma UnattachedProvider(w: World, n: nat)
    requires StatesFit(w) && n in w.nodes && !Started(w.nodes[n].provideState)
    ensures forall x :: x in w.attached && x.side.Provide? ==> x.node != n
  {
    hide IsPort;
  }

  lemma ReceiverSide(w: World, p: Port, r: Port)
    requires Keeps(w) && p in w.attached && p.side.Provide? && r in Receivers(w.nodes, p)
    ensures r.side.Require? && IsPort(w.t, r) && IsPort(w.t, p) && Sig(w.t, r) == Sig(w.t, p)
  {
    hide Sig, Held, Receivers, IsPort, Shape, WellFormed, UniqueProvider, NotStartedUnused, StatesFit, GatheredFit, ReceiversCoherent, ReceiversExact;
  }
}
