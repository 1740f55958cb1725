/**
 * Detaching the nodes of a closed connection (apx/src/server_connection.c): what the first
 * phase gathers under the global lock, and what the second phase takes off the lists after it
 * was released.
 */
module RoutingDetach {
  import opened Common
  import opened Routing
  import opened RoutingData
  import opened RoutingInvariant
  import opened RoutingSteps

  // ---------- gathering ----------

  /** A connected side hands over its change table; with none to hand over it is disconnected. */
  function GatheredNode(node: Node, side: Side): Node {
    if !StateOf(node, side).Connected? then node
    else if Table(node, side).Some? then WithTable(node, side, None)
    else WithState(node, side, Disconnected)
  }

  predicate Hands(node: Node, side: Side) {
    StateOf(node, side).Connected? && Table(node, side).Some?
  }

  function GatheredNodes(nodes: Nodes, ns: seq<nat>, side: Side): Nodes {
    map n | n in nodes :: if n in ns then GatheredNode(nodes[n], side) else nodes[n]
  }

  /** The tables that the nodes `ns` hand over. */
  function HandedTables(nodes: Nodes, ns: seq<nat>, side: Side): map<nat, seq<Change>> {
    map n | n in ns && n in nodes && Hands(nodes[n], side) :: Table(nodes[n], side).value
  }

  lemma GatheredNext(nodes: Nodes, ns: seq<nat>, side: Side, n: nat)
    requires n in nodes && n !in ns
    ensures n in GatheredNodes(nodes, ns, side) && GatheredNodes(nodes, ns, side)[n] == nodes[n]
    ensures GatheredNodes(nodes, ns + [n], side) == GatheredNodes(nodes, ns, side)[n := GatheredNode(nodes[n], side)]
    ensures HandedTables(nodes, ns + [n], side)
         == if Hands(nodes[n], side) then HandedTables(nodes, ns, side)[n := Table(nodes[n], side).value] else HandedTables(nodes, ns, side)
  {
    hide GatheredNode, Hands, Table;
  }

  /** The nodes after both sides were gathered, provide side first. */
  function Gathering(nodes: Nodes, ns: seq<nat>): Nodes {
    GatheredNodes(GatheredNodes(nodes, ns, Provide), ns, Require)
  }

  /** The first phase, with the change tables of the batch recording `pairs`. */
  ghost predicate Detaching(w: World, middle: World, ns: seq<nat>, pairs: seq<Pair>, modified: seq<nat>) {
    && Keeps(w) && SameBare(w.nodes, middle.nodes) && middle == w.(nodes := middle.nodes, attached := middle.attached)
    && (forall n :: n in ns ==> n in w.nodes && n !in w.gatheredProvide && n !in w.gatheredRequire)
    && (forall x :: x in middle.attached <==> x in w.attached && x.node !in ns)
    && PairsExact(w.t, middle.attached, w.attached, pairs) && Records(w.t, middle.nodes, modified, pairs, -1)
  }

  /** The world with the tables of `ns` gathered. */
  function WithGathered(middle: World, ns: seq<nat>): World {
    middle.(nodes := Gathering(middle.nodes, ns),
            gatheredProvide := middle.gatheredProvide + HandedTables(middle.nodes, ns, Provide),
            gatheredRequire := middle.gatheredRequire + HandedTables(middle.nodes, ns, Require))
  }

  lemma GatheringNode(nodes: Nodes, ns: seq<nat>, n: nat)
    requires n in nodes
    ensures n in Gathering(nodes, ns)
    ensures n !in ns ==> Gathering(nodes, ns)[n] == nodes[n]
    ensures n in ns ==> Gathering(nodes, ns)[n] == GatheredNode(GatheredNode(nodes[n], Provide), Require)
  {
    hide GatheredNode;
  }

  lemma GatheredSide(node: Node, side: Side)
    ensures var g := GatheredNode(GatheredNode(node, Provide), Require);
            && StateOf(g, side) == (if StateOf(node, side).Connected? && !Hands(node, side) then Disconnected else StateOf(node, side))
            && g.connectors == node.connectors && g.provideData == node.provideData && g.requireData == node.requireData
  {
  }

  /** Gathering changes states of connected sides and tables, nothing else. */
  lemma GatheringFacts(t: Topology, nodes: Nodes, ns: seq<nat>)
    ensures var g := Gathering(nodes, ns);
            && g.Keys == nodes.Keys
            && (forall p :: Receivers(g, p) == Receivers(nodes, p))
            && (forall x :: Held(t, g, x) == Held(t, nodes, x))
            && (Shape(t, nodes) ==> Shape(t, g))
            && (forall x: Port :: StartedPort(g, x) <==> StartedPort(nodes, x))
  {
    hide Info, TotalSize, GatheredNode, Gathering;
    var g := Gathering(nodes, ns);
    assert g.Keys == nodes.Keys by {
      GatheringKeys(nodes, ns);
    }
    forall n | n in nodes
      ensures g[n].connectors == nodes[n].connectors && g[n].provideData == nodes[n].provideData && g[n].requireData == nodes[n].requireData
      ensures Started(g[n].provideState) == Started(nodes[n].provideState) && Started(g[n].requireState) == Started(nodes[n].requireState)
    {
      GatheringNode(nodes, ns, n);
      GatheredSide(nodes[n], Provide);
      GatheredSide(nodes[n], Require);
    }
  }

  lemma GatheringKeys(nodes: Nodes, ns: seq<nat>)
    ensures Gathering(nodes, ns).Keys == nodes.Keys
  {
    hide GatheredNode;
  }

  // ---------- the first phase keeps everything ----------

  lemma DetachedKeeps(w: World, middle: World, ns: seq<nat>, pairs: seq<Pair>, modified: seq<nat>)
    requires Detaching(w, middle, ns, pairs, modified)
    ensures Keeps(WithGathered(middle, ns))
  {
    hide Sig, Receivers, Held, IsPort, WellFormed, Shape, UniqueProvider, Gathering, HandedTables, PairsExact, Records, SameBare, StartedPort, ReceiversExact, StatesFit, NotStartedUnused, GatheredFit;
    var v := WithGathered(middle, ns);
    SameBareKeys(w.nodes, middle.nodes);
    BareRouting(w.t, w.attached, w.nodes, middle.nodes);
    GatheringFacts(w.t, middle.nodes, ns);
    DetachedExact(w, middle, ns, pairs, modified);
    DetachedStates(w, middle, ns, pairs, modified);
    DetachedGathered(w, middle, ns, pairs, modified);
    DetachedUnused(w, middle, ns, pairs, modified);
    UniqueFewer(w.t, w.attached, middle.attached);
  }

  lemma UniqueFewer(t: Topology, large: set<Port>, small: set<Port>)
    requires UniqueProvider(t, large) && forall x :: x in small ==> x in large
    ensures UniqueProvider(t, small)
  {
    hide Sig;
  }

  /** A detached require port's handed-over entry: its one provider, if it had one. */
  lemma HandedEntry(w: World, middle: World, ns: seq<nat>, pairs: seq<Pair>, modified: seq<nat>, r: Port)
    requires Detaching(w, middle, ns, pairs, modified)
    requires r.side.Require? && r.node in ns && Hands(middle.nodes[r.node], Require)
    ensures |Table(middle.nodes[r.node], Require).value| == |Ports(w.t, r.node, Require)|
    ensures r.id < |Table(middle.nodes[r.node], Require).value| ==>
      var c := Table(middle.nodes[r.node], Require).value[r.id];
      c.count == -|c.ports| && |c.ports| <= 1 && c.ports == Partners(pairs, r)
  {
    hide Sig, Receivers, Held, IsPort, WellFormed, Shape, UniqueProvider, PairsExact, Records, SameBare, ReceiversExact, StatesFit, NotStartedUnused, GatheredFit, Partners, NoDup;
    SameBareKeys(w.nodes, middle.nodes);
    RecordedSize(w.t, middle.nodes, modified, pairs, -1, r.node, Require);
    DetachedPairs(w, middle, pairs);
    OnePartner(w.t, w.attached, pairs, r);
    assert r == Port(r.node, Require, r.id);
  }

  lemma DetachedPairs(w: World, middle: World, pairs: seq<Pair>)
    requires PairsExact(w.t, middle.attached, w.attached, pairs)
    ensures NoDup(pairs) && Sided(pairs) && forall p, r :: (p, r) in pairs ==> Couple(w.t, w.attached, p, r)
  {
    hide Couple, NoDup;
    PairsExactSided(w.t, middle.attached, w.attached, pairs);
  }

  /** A couple that loses its require port is on record for it, and will be taken off. */
  lemma LostCouple(w: World, middle: World, ns: seq<nat>, pairs: seq<Pair>, modified: seq<nat>, p: Port, r: Port)
    requires Detaching(w, middle, ns, pairs, modified) && Couple(w.t, w.attached, p, r) && r !in middle.attached
    ensures Pending(WithGathered(middle, ns), p, r)
  {
    hide Sig, Receivers, Held, IsPort, WellFormed, Shape, UniqueProvider, PairsExact, Records, SameBare, ReceiversExact, NotStartedUnused, GatheredFit, Partners, Gathering, NoDup;
    assert r.node in ns;
    SameBareKeys(w.nodes, middle.nodes);
    BareStates(w.nodes, middle.nodes);
    LostPair(w, middle, pairs, p, r);
    DetachedPairs(w, middle, pairs);
    PartnersExact(pairs, r);
    AttachedId(w, r);
    TableThere(w.t, middle.nodes, modified, pairs, r, p);
    HandedEntry(w, middle, ns, pairs, modified, r);
    assert Hands(middle.nodes[r.node], Require);
    OnlyOne(Partners(pairs, r), p);
  }

  lemma OnlyOne(xs: seq<Port>, x: Port)
    requires |xs| <= 1 && x in xs
    ensures xs == [x]
  {
  }

  lemma LostPair(w: World, middle: World, pairs: seq<Pair>, p: Port, r: Port)
    requires PairsExact(w.t, middle.attached, w.attached, pairs) && Couple(w.t, w.attached, p, r) && r !in middle.attached
    ensures (p, r) in pairs && p.side.Provide? && r.side.Require?
  {
    hide Sig;
  }

  lemma AttachedId(w: World, r: Port)
    requires Keeps(w) && r in w.attached && r.side.Require?
    ensures r.id < |Ports(w.t, r.node, Require)| && r.node in w.nodes && w.nodes[r.node].requireState.Connected?
  {
    hide Sig, Receivers, Held, WellFormed, Shape, UniqueProvider, ReceiversExact, NotStartedUnused, GatheredFit, ReceiversValid, ReceiversCoherent;
  }

  lemma TableThere(t: Topology, nodes: Nodes, modified: seq<nat>, pairs: seq<Pair>, r: Port, p: Port)
    requires Records(t, nodes, modified, pairs, -1) && r.node in nodes && r.side.Require? && r.id < |Ports(t, r.node, Require)|
    requires p in Partners(pairs, r)
    ensures Table(nodes[r.node], Require).Some?
  {
    hide Partners, Ports;
    assert TableRecords(Table(nodes[r.node], Require), |Ports(t, r.node, Require)|, r.node, Require, pairs, -1);
    assert r == Port(r.node, Require, r.id);
  }

  /** Taking tables along changes what is pending for the require ports of `ns` only. */
  lemma PendingGathered(w: World, middle: World, ns: seq<nat>, pairs: seq<Pair>, modified: seq<nat>, p: Port, r: Port)
    requires Detaching(w, middle, ns, pairs, modified)
    ensures Pending(w, p, r) ==> Pending(WithGathered(middle, ns), p, r)
    ensures Pending(WithGathered(middle, ns), p, r) && !Pending(w, p, r) ==> Couple(w.t, w.attached, p, r)
  {
    hide Sig, Receivers, Held, IsPort, WellFormed, Shape, UniqueProvider, PairsExact, Records, SameBare, ReceiversExact, NotStartedUnused, GatheredFit, Partners, Gathering, NoDup, Couple, StatesFit;
    var v := WithGathered(middle, ns);
    if Pending(v, p, r) && r.node !in w.gatheredRequire {
      HandedEntry(w, middle, ns, pairs, modified, r);
      DetachedPairs(w, middle, pairs);
      PartnersExact(pairs, r);
      assert p in Partners(pairs, r);
    }
  }

  lemma DetachedExact(w: World, middle: World, ns: seq<nat>, pairs: seq<Pair>, modified: seq<nat>)
    requires Detaching(w, middle, ns, pairs, modified)
    ensures ReceiversExact(WithGathered(middle, ns))
  {
    hide Sig, Receivers, Held, IsPort, WellFormed, Shape, UniqueProvider, PairsExact, Records, SameBare, NotStartedUnused, GatheredFit, Gathering, StatesFit, Pending, WithGathered, ReceiversCoherent, ReceiversValid;
    var v := WithGathered(middle, ns);
    forall p, r | p in v.attached && p.side.Provide?
      ensures r in Receivers(v.nodes, p) <==> Couple(v.t, v.attached, p, r) || Pending(v, p, r)
    {
      GatheredReceivers(w, middle, ns, p);
      PendingGathered(w, middle, ns, pairs, modified, p, r);
      WorldGathered(middle, ns);
      if Couple(w.t, w.attached, p, r) && r !in middle.attached {
        LostCouple(w, middle, ns, pairs, modified, p, r);
      }
    }
  }

  lemma WorldGathered(middle: World, ns: seq<nat>)
    ensures WithGathered(middle, ns).t == middle.t && WithGathered(middle, ns).attached == middle.attached
  {
  }

  lemma GatheredReceivers(w: World, middle: World, ns: seq<nat>, p: Port)
    requires SameBare(w.nodes, middle.nodes)
    ensures Receivers(WithGathered(middle, ns).nodes, p) == Receivers(w.nodes, p)
  {
    hide Receivers, Held, Gathering, Shape, StartedPort;
    BareReceivers(w.nodes, middle.nodes, p);
    GatheringFacts(w.t, middle.nodes, ns);
  }

  lemma DetachedStates(w: World, middle: World, ns: seq<nat>, pairs: seq<Pair>, modified: seq<nat>)
    requires Detaching(w, middle, ns, pairs, modified)
    ensures StatesFit(WithGathered(middle, ns))
  {
    hide Sig, Receivers, Held, IsPort, WellFormed, Shape, UniqueProvider, PairsExact, Records, SameBare, NotStartedUnused, GatheredFit, Gathering, GatheredNode, ReceiversExact, ReceiversCoherent, ReceiversValid;
    var v := WithGathered(middle, ns);
    SameBareKeys(w.nodes, middle.nodes);
    BareStates(w.nodes, middle.nodes);
    GatheringKeys(middle.nodes, ns);
    forall n, side | n in v.nodes
      ensures n !in ns ==> v.nodes[n] == middle.nodes[n]
      ensures n in ns ==> StateOf(v.nodes[n], side) == (if StateOf(w.nodes[n], side).Connected? && !Hands(middle.nodes[n], side) then Disconnected else StateOf(w.nodes[n], side))
      ensures n in Gathered(v, side) <==> n in Gathered(w, side) || (n in ns && Hands(middle.nodes[n], side))
    {
      GatheringNode(middle.nodes, ns, n);
      GatheredSide(middle.nodes[n], side);
    }
  }

  lemma DetachedGathered(w: World, middle: World, ns: seq<nat>, pairs: seq<Pair>, modified: seq<nat>)
    requires Detaching(w, middle, ns, pairs, modified)
    ensures GatheredFit(WithGathered(middle, ns))
  {
    hide Detaching, WithGathered, Ports;
    var v := WithGathered(middle, ns);
    forall n | n in v.gatheredProvide
      ensures n in v.nodes && v.nodes[n].provideState.Connected? && |v.gatheredProvide[n]| == |Ports(v.t, n, Provide)|
    {
      NodeGatheredFit(w, middle, ns, pairs, modified, n);
    }
    forall n | n in v.gatheredRequire
      ensures n in v.nodes && v.nodes[n].requireState.Connected? && |v.gatheredRequire[n]| == |Ports(v.t, n, Require)|
      ensures forall i :: 0 <= i < |v.gatheredRequire[n]| ==>
        v.gatheredRequire[n][i].count == -|v.gatheredRequire[n][i].ports| && |v.gatheredRequire[n][i].ports| <= 1
    {
      NodeGatheredFit(w, middle, ns, pairs, modified, n);
    }
  }

  /** What `GatheredFit` says of one node. */
  ghost predicate GatheredNodeFit(w: World, n: nat) {
    && (n in w.gatheredProvide ==>
      n in w.nodes && w.nodes[n].provideState.Connected? && |w.gatheredProvide[n]| == |Ports(w.t, n, Provide)|)
    && (n in w.gatheredRequire ==>
      && n in w.nodes && w.nodes[n].requireState.Connected? && |w.gatheredRequire[n]| == |Ports(w.t, n, Require)|
      && forall i :: 0 <= i < |w.gatheredRequire[n]| ==>
        w.gatheredRequire[n][i].count == -|w.gatheredRequire[n][i].ports| && |w.gatheredRequire[n][i].ports| <= 1)
  }

  lemma NodeGatheredFit(w: World, middle: World, ns: seq<nat>, pairs: seq<Pair>, modified: seq<nat>, n: nat)
    requires Detaching(w, middle, ns, pairs, modified)
    ensures GatheredNodeFit(WithGathered(middle, ns), n)
  {
    hide Sig, Receivers, Held, IsPort, WellFormed, Shape, UniqueProvider, PairsExact, Records, SameBare, NotStartedUnused, Gathering, GatheredNode, ReceiversExact, ReceiversCoherent, ReceiversValid, StatesFit, Partners, Ports;
    SameBareKeys(w.nodes, middle.nodes);
    BareStates(w.nodes, middle.nodes);
    if n in middle.nodes {
      GatheringNode(middle.nodes, ns, n);
      GatheredSide(middle.nodes[n], Provide);
      GatheredSide(middle.nodes[n], Require);
      if n in ns && Hands(middle.nodes[n], Provide) {
        RecordedSize(w.t, middle.nodes, modified, pairs, -1, n, Provide);
      }
      if n in ns && Hands(middle.nodes[n], Require) {
        var table := Table(middle.nodes[n], Require).value;
        HandedEntry(w, middle, ns, pairs, modified, Port(n, Require, 0));
        forall i | 0 <= i < |table| ensures table[i].count == -|table[i].ports| && |table[i].ports| <= 1 {
          HandedEntry(w, middle, ns, pairs, modified, Port(n, Require, i));
        }
      }
    }
  }

  lemma DetachedUnused(w: World, middle: World, ns: seq<nat>, pairs: seq<Pair>, modified: seq<nat>)
    requires Detaching(w, middle, ns, pairs, modified)
    ensures NotStartedUnused(WithGathered(middle, ns))
  {
    hide Sig, Receivers, Held, IsPort, WellFormed, Shape, UniqueProvider, PairsExact, Records, SameBare, Gathering, GatheredNode, ReceiversExact, ReceiversCoherent, ReceiversValid, GatheredFit, StartedPort, Pending, WithGathered;
    var v := WithGathered(middle, ns);
    WorldGathered(middle, ns);
    GatheredStarted(w, middle, ns);
    forall p ensures Receivers(v.nodes, p) == Receivers(w.nodes, p) {
      GatheredReceivers(w, middle, ns, p);
    }
    forall p, r | Pending(v, p, r) && !Pending(w, p, r) ensures IsPort(v.t, p) && p.side.Provide? && StartedPort(v.nodes, p) {
      PendingGathered(w, middle, ns, pairs, modified, p, r);
      AttachedStarted(w, p);
    }
    NotStartedMore(w, v);
  }

  lemma GatheredStarted(w: World, middle: World, ns: seq<nat>)
    requires SameBare(w.nodes, middle.nodes)
    ensures forall x :: StartedPort(WithGathered(middle, ns).nodes, x) <==> StartedPort(w.nodes, x)
  {
    hide Receivers, Held, Gathering, Shape, StartedPort, SameBare;
    BareStates(w.nodes, middle.nodes);
    StartedSame(w.nodes, middle.nodes);
    GatheringFacts(w.t, middle.nodes, ns);
  }

  lemma AttachedStarted(w: World, p: Port)
    requires Keeps(w) && p in w.attached
    ensures IsPort(w.t, p) && StartedPort(w.nodes, p)
  {
    hide Sig, Receivers, Held, WellFormed, Shape, UniqueProvider, ReceiversExact, NotStartedUnused, GatheredFit, ReceiversValid, ReceiversCoherent, IsPort;
  }

  // ---------- what the first phase has done ----------

  function GatheredTable(w: World, n: nat, side: Side): Option<seq<Change>> {
    if n in Gathered(w, side) then Some(Gathered(w, side)[n]) else None
  }

  function DetachedState(w: World, now: World, n: nat, side: Side, state: DataState): DataState {
    if state.Connected? && n !in Gathered(now, side) then Disconnected else state
  }

  function NodeDetached(w: World, now: World, n: nat): Node
    requires n in w.nodes
  {
    w.nodes[n].(provideState := DetachedState(w, now, n, Provide, w.nodes[n].provideState),
                requireState := DetachedState(w, now, n, Require, w.nodes[n].requireState))
  }

  /**
   * The nodes `ns` are detached. Their ports are no longer attached; every couple this breaks
   * is recorded once, in the gathered tables of both its ends as far as they are in `ns`; sides
   * without a couple are disconnected at once.
   */
  ghost predicate NodesDetached(w: World, now: World, ns: seq<nat>, pairs: seq<Pair>) {
    && now.t == w.t && now.nodes.Keys == w.nodes.Keys
    && (forall x :: x in now.attached <==> x in w.attached && x.node !in ns)
    && PairsExact(w.t, now.attached, w.attached, pairs)
    && (forall n, side :: n in ns && n in w.nodes && StateOf(w.nodes[n], side).Connected? ==>
      TableRecords(GatheredTable(now, n, side), |Ports(w.t, n, side)|, n, side, pairs, -1))
    && (forall n, side :: !(n in ns && n in w.nodes && StateOf(w.nodes[n], side).Connected?) ==>
      GatheredTable(now, n, side) == GatheredTable(w, n, side))
    && (forall n :: n in w.nodes ==> now.nodes[n] == if n in ns then NodeDetached(w, now, n) else w.nodes[n])
  }

  ghost predicate NoTable(node: Node) {
    node.provideChanges.None? && node.requireChanges.None?
  }

  lemma DetachedOutcome(w: World, middle: World, ns: seq<nat>, pairs: seq<Pair>, modified: seq<nat>, now: World)
    requires Detaching(w, middle, ns, pairs, modified)
    requires forall n :: n in w.nodes ==> NoTable(w.nodes[n])
    requires now == WithGathered(middle, ns).(nodes := now.nodes) && SameBare(WithGathered(middle, ns).nodes, now.nodes)
    requires forall n :: n in now.nodes ==> NoTable(now.nodes[n])
    ensures NodesDetached(w, now, ns, pairs)
  {
    hide Keeps, PairsExact, Records, SameBare, TableRecords, GatheredNodes, GatheredNode, NodeDetached, GatheredTable, NoTable, Ports, StateOf, HandedTables;
    SameBareKeys(w.nodes, middle.nodes);
    SameBareKeys(WithGathered(middle, ns).nodes, now.nodes);
    GatheringKeys(middle.nodes, ns);
    forall n, side
      ensures n in ns && n in w.nodes && StateOf(w.nodes[n], side).Connected? ==>
        TableRecords(GatheredTable(now, n, side), |Ports(w.t, n, side)|, n, side, pairs, -1)
      ensures !(n in ns && n in w.nodes && StateOf(w.nodes[n], side).Connected?) ==> GatheredTable(now, n, side) == GatheredTable(w, n, side)
    {
      HandedTable(w, middle, ns, now, n, side);
      if n in w.nodes {
        RecordsTable(w.t, middle.nodes, modified, pairs, n, side);
      }
    }
    forall n | n in w.nodes
      ensures now.nodes[n] == if n in ns then NodeDetached(w, now, n) else w.nodes[n]
    {
      DetachedNode(w, middle, ns, now, n);
    }
  }

  lemma HandedTable(w: World, middle: World, ns: seq<nat>, now: World, n: nat, side: Side)
    requires SameBare(w.nodes, middle.nodes) && middle == w.(nodes := middle.nodes, attached := middle.attached)
    requires now == WithGathered(middle, ns).(nodes := now.nodes)
    requires forall m :: m in ns ==> m !in w.gatheredProvide && m !in w.gatheredRequire
    ensures n in w.nodes ==> n in middle.nodes
    ensures GatheredTable(now, n, side)
         == if n in ns && n in w.nodes && StateOf(w.nodes[n], side).Connected? then Table(middle.nodes[n], side) else GatheredTable(w, n, side)
  {
    hide Gathering, SameBare;
    SameBareKeys(w.nodes, middle.nodes);
    BareStates(w.nodes, middle.nodes);
  }

  lemma RecordsTable(t: Topology, nodes: Nodes, modified: seq<nat>, pairs: seq<Pair>, n: nat, side: Side)
    requires Records(t, nodes, modified, pairs, -1) && n in nodes
    ensures TableRecords(Table(nodes[n], side), |Ports(t, n, side)|, n, side, pairs, -1)
  {
    hide TableRecords;
  }

  lemma DetachedNode(w: World, middle: World, ns: seq<nat>, now: World, n: nat)
    requires SameBare(w.nodes, middle.nodes) && n in w.nodes && n in middle.nodes && n in now.nodes
    requires now == WithGathered(middle, ns).(nodes := now.nodes) && SameBare(WithGathered(middle, ns).nodes, now.nodes)
    requires middle == w.(nodes := middle.nodes, attached := middle.attached)
    requires NoTable(w.nodes[n]) && NoTable(now.nodes[n])
    requires n in ns ==> n !in w.gatheredProvide && n !in w.gatheredRequire
    ensures now.nodes[n] == if n in ns then NodeDetached(w, now, n) else w.nodes[n]
  {
    hide Gathering;
    GatheringNode(middle.nodes, ns, n);
    assert Bare(w.nodes[n]) == Bare(middle.nodes[n]);
    assert Bare(Gathering(middle.nodes, ns)[n]) == Bare(now.nodes[n]);
    GatheredSide(middle.nodes[n], Provide);
    GatheredSide(middle.nodes[n], Require);
  }

  // ---------- the second phase: a provider ----------

  /** apx_nodeInstance_clear_connector_table clears the first list of the table, and no other. */
  function ClearedConnectors(node: Node): Node {
    if |node.connectors| == 0 then node else node.(connectors := node.connectors[0 := []])
  }

  function ProviderFinished(w: World, n: nat): World
    requires n in w.nodes
  {
    w.(nodes := w.nodes[n := ClearedConnectors(w.nodes[n]).(provideState := Disconnected)],
       gatheredProvide := w.gatheredProvide - {n})
  }

  lemma ProviderFinishedKeeps(w: World, n: nat)
    requires Keeps(w) && n in w.gatheredProvide
    ensures n in w.nodes && Keeps(ProviderFinished(w, n))
  {
    hide Sig, Held, IsPort, WellFormed, UniqueProvider, NoDup, Receivers, TotalSize, Pending, Couple;
    var v := ProviderFinished(w, n);
    forall p ensures Receivers(v.nodes, p) == Receivers(w.nodes, p) || (p.node == n && Receivers(v.nodes, p) == []) {
      ClearedReceivers(w.nodes, n, p);
    }
    forall x ensures Held(w.t, v.nodes, x) == Held(w.t, w.nodes, x) {
      ClearedHeld(w.t, w.nodes, n, x);
    }
    assert forall p :: p in w.attached && p.side.Provide? ==> p.node != n;
    ProviderFinishedLists(w, v, n);
    hide ReceiversExact, ReceiversCoherent;
    ProviderFinishedStates(w, n);
  }

  /**
   * What is left of a finished provider: it is disconnected, its first list is empty, every
   * other list of the server is as it was, and so are all other nodes and its other side.
   */
  lemma ProviderFinishedOutcome(w: World, n: nat, p: Port)
    requires n in w.nodes
    ensures var v := ProviderFinished(w, n);
            && v == w.(nodes := v.nodes, gatheredProvide := v.gatheredProvide) && v.nodes.Keys == w.nodes.Keys
            && (forall m :: m in w.nodes && m != n ==> v.nodes[m] == w.nodes[m])
            && v.nodes[n] == w.nodes[n].(provideState := Disconnected, connectors := v.nodes[n].connectors)
            && Receivers(v.nodes, p) == (if p.node == n && p.id == 0 then [] else Receivers(w.nodes, p))
            && (p.node in v.gatheredProvide <==> p.node in w.gatheredProvide && p.node != n)
            && (p.node in v.gatheredProvide ==> v.gatheredProvide[p.node] == w.gatheredProvide[p.node])
  {
  }

  lemma ClearedReceivers(nodes: Nodes, n: nat, p: Port)
    requires n in nodes
    ensures var d := nodes[n := ClearedConnectors(nodes[n]).(provideState := Disconnected)];
            Receivers(d, p) == Receivers(nodes, p) || (p.node == n && Receivers(d, p) == [])
  {
  }

  lemma ClearedHeld(t: Topology, nodes: Nodes, n: nat, x: Port)
    requires n in nodes
    ensures Held(t, nodes[n := ClearedConnectors(nodes[n]).(provideState := Disconnected)], x) == Held(t, nodes, x)
  {
    hide Info;
  }

  lemma ProviderFinishedLists(w: World, v: World, n: nat)
    requires Keeps(w) && n in w.gatheredProvide && v.t == w.t && v.attached == w.attached && v.gatheredRequire == w.gatheredRequire
    requires forall p :: p in w.attached && p.side.Provide? ==> p.node != n
    requires forall p :: Receivers(v.nodes, p) == Receivers(w.nodes, p) || (p.node == n && Receivers(v.nodes, p) == [])
    requires forall x :: Held(w.t, v.nodes, x) == Held(w.t, w.nodes, x)
    ensures ReceiversValid(v.t, v.nodes) && ReceiversCoherent(v.t, v.nodes, v.attached) && ReceiversExact(v)
  {
    hide Sig, Held, IsPort, WellFormed, UniqueProvider, NoDup, Receivers, TotalSize, Couple, StatesFit, NotStartedUnused, GatheredFit, Shape;
    assert NoDup<Port>([]) by {
      NothingTwice();
    }
    assert forall p, r :: Pending(v, p, r) <==> Pending(w, p, r);
  }

  lemma NothingTwice()
    ensures NoDup<Port>([])
  {
  }

  lemma ProviderFinishedStates(w: World, n: nat)
    requires Keeps(w) && n in w.gatheredProvide && n in w.nodes
    requires forall p :: Receivers(ProviderFinished(w, n).nodes, p) == Receivers(w.nodes, p) || (p.node == n && Receivers(ProviderFinished(w, n).nodes, p) == [])
    ensures var v := ProviderFinished(w, n); Shape(v.t, v.nodes) && StatesFit(v) && NotStartedUnused(v) && GatheredFit(v)
  {
    hide Sig, Held, IsPort, WellFormed, UniqueProvider, NoDup, Receivers, TotalSize, Couple, ReceiversExact, ReceiversCoherent, ReceiversValid, Pending, Ports, NotStartedUnused, StatesFit, GatheredFit, Shape;
    ProviderFinishedShape(w, n);
    ProviderFinishedFit(w, n);
    ProviderFinishedGathered(w, n);
    ProviderFinishedUnused(w, ProviderFinished(w, n));
  }

  lemma ProviderFinishedShape(w: World, n: nat)
    requires Shape(w.t, w.nodes) && n in w.nodes
    ensures Shape(w.t, ProviderFinished(w, n).nodes)
  {
    hide TotalSize;
  }

  lemma ProviderFinishedFit(w: World, n: nat)
    requires StatesFit(w) && n in w.nodes && n in w.gatheredProvide
    ensures StatesFit(ProviderFinished(w, n))
  {
    hide IsPort;
  }

  lemma ProviderFinishedGathered(w: World, n: nat)
    requires GatheredFit(w) && n in w.nodes && n in w.gatheredProvide
    ensures GatheredFit(ProviderFinished(w, n))
    ensures forall x :: StartedPort(ProviderFinished(w, n).nodes, x) <==> StartedPort(w.nodes, x)
  {
    hide Ports;
  }

  lemma ProviderFinishedUnused(w: World, v: World)
    requires NotStartedUnused(w) && v.t == w.t && v.gatheredRequire == w.gatheredRequire
    requires forall x :: StartedPort(v.nodes, x) <==> StartedPort(w.nodes, x)
    requires forall p :: Receivers(v.nodes, p) == Receivers(w.nodes, p) || Receivers(v.nodes, p) == []
    ensures NotStartedUnused(v)
  {
    hide IsPort, Receivers, StartedPort;
    assert forall p, r :: Pending(v, p, r) <==> Pending(w, p, r);
    forall p, r | IsPort(v.t, p) && p.side.Provide? && r in Receivers(v.nodes, p)
      ensures StartedPort(v.nodes, p) && StartedPort(v.nodes, r)
    {
      assert r in Receivers(w.nodes, p);
      assert StartedPort(w.nodes, p) && StartedPort(w.nodes, r);
    }
  }

  // ---------- the second phase: a requester ----------

  /** The world when the first `k` entries of a requester's gathered table have been processed. */
  function Processed(w: World, n: nat, k: nat): World
    requires n in w.gatheredRequire
  {
    var table := w.gatheredRequire[n];
    w.(gatheredRequire := w.gatheredRequire[n := seq(|table|, i requires 0 <= i < |table| => if i < k then NO_CHANGE else table[i])])
  }

  /** The receiver taken off its provider's list. */
  function WithoutReceiver(nodes: Nodes, p: Port, r: Port): Nodes
    requires p.node in nodes && p.id < |nodes[p.node].connectors|
  {
    nodes[p.node := nodes[p.node].(connectors := nodes[p.node].connectors[p.id := Without(nodes[p.node].connectors[p.id], r)])]
  }

  lemma ProcessedPending(w: World, n: nat, k: nat, p: Port, r: Port)
    requires n in w.gatheredRequire
    ensures Pending(Processed(w, n, k), p, r) <==> Pending(w, p, r) && !(r.node == n && r.id < k)
  {
  }

  /** An entry without a provider needs no processing. */
  lemma NothingPending(w: World, n: nat, k: nat)
    requires n in w.gatheredRequire && k < |w.gatheredRequire[n]| && w.gatheredRequire[n][k].count == 0
    requires Keeps(Processed(w, n, k))
    ensures Keeps(Processed(w, n, k + 1))
  {
    hide Sig, Held, IsPort, WellFormed, UniqueProvider, NoDup, Receivers, TotalSize, Couple, Shape, StartedPort, Pending, Ports, Processed;
    var u, v := Processed(w, n, k), Processed(w, n, k + 1);
    forall p, r ensures Pending(u, p, r) <==> Pending(v, p, r) {
      ProcessedPending(w, n, k, p, r);
      ProcessedPending(w, n, k + 1, p, r);
      ZeroPending(w, n, k, p, r);
    }
    ProcessedOnly(w, n, k);
    ProcessedOnly(w, n, k + 1);
    ProcessedGathered(w, n, k);
    ProcessedStates(w, n, k);
    hide StatesFit, GatheredFit;
    NotStartedMore(u, v);
  }

  lemma ZeroPending(w: World, n: nat, k: nat, p: Port, r: Port)
    requires n in w.gatheredRequire && k < |w.gatheredRequire[n]| && w.gatheredRequire[n][k].count == 0
    ensures !(r.node == n && r.id == k && Pending(w, p, r))
  {
  }

  lemma ProcessedOnly(w: World, n: nat, k: nat)
    requires n in w.gatheredRequire
    ensures var v := Processed(w, n, k); v == w.(gatheredRequire := v.gatheredRequire) && v.gatheredRequire.Keys == w.gatheredRequire.Keys
  {
  }

  lemma ProcessedGathered(w: World, n: nat, k: nat)
    requires n in w.gatheredRequire && k < |w.gatheredRequire[n]| && GatheredFit(Processed(w, n, k))
    ensures GatheredFit(Processed(w, n, k + 1))
  {
    hide Ports;
    var u, v := Processed(w, n, k), Processed(w, n, k + 1);
    forall m | m in v.gatheredRequire
      ensures |v.gatheredRequire[m]| == |u.gatheredRequire[m]|
      ensures forall i :: 0 <= i < |v.gatheredRequire[m]| ==> v.gatheredRequire[m][i] == u.gatheredRequire[m][i] || v.gatheredRequire[m][i] == NO_CHANGE
    {
    }
  }

  lemma ProcessedStates(w: World, n: nat, k: nat)
    requires n in w.gatheredRequire && StatesFit(Processed(w, n, k))
    ensures StatesFit(Processed(w, n, k + 1))
  {
    hide IsPort;
  }

  lemma WithoutReceiverFacts(t: Topology, nodes: Nodes, p: Port, r: Port)
    requires p.node in nodes && p.id < |nodes[p.node].connectors| && Shape(t, nodes)
    ensures var d := WithoutReceiver(nodes, p, r);
            && Shape(t, d) && SameStates(nodes, d)
            && (forall q: Port :: Receivers(d, q) == if q.node == p.node && q.id == p.id then Without(Receivers(nodes, q), r) else Receivers(nodes, q))
            && (forall x :: Held(t, d, x) == Held(t, nodes, x))
  {
    hide TotalSize, Info, Without;
  }

  /** What a processed entry's provider is. */
  lemma PendingProvider(w: World, n: nat, k: nat)
    requires n in w.gatheredRequire && k < |w.gatheredRequire[n]| && w.gatheredRequire[n][k].count != 0
    requires Keeps(Processed(w, n, k))
    ensures var c := w.gatheredRequire[n][k];
            && c.count == -1 && |c.ports| == 1 && c == Change(-1, [c.ports[0]])
            && IsPort(w.t, c.ports[0]) && c.ports[0].side.Provide?
            && c.ports[0].node in w.nodes && c.ports[0].id < |w.nodes[c.ports[0].node].connectors| && c.ports[0].id < |Ports(w.t, c.ports[0].node, Provide)|
            && Port(n, Require, k) !in w.attached && NoDup(Receivers(w.nodes, c.ports[0]))
  {
    hide Sig, Held, WellFormed, UniqueProvider, NoDup, Receivers, TotalSize, Couple, ReceiversExact, ReceiversCoherent;
    var u, c := Processed(w, n, k), w.gatheredRequire[n][k];
    assert u.gatheredRequire[n][k] == c;
    assert |c.ports| == 1 && c.count == -1;
    assert Pending(u, c.ports[0], Port(n, Require, k));
  }

  /** Taking a processed entry's port off its provider's list. */
  lemma UnlistedKeeps(w: World, n: nat, k: nat, p: Port)
    requires n in w.gatheredRequire && k < |w.gatheredRequire[n]| && w.gatheredRequire[n][k] == Change(-1, [p])
    requires Keeps(Processed(w, n, k))
    ensures p.node in w.nodes && p.id < |w.nodes[p.node].connectors|
    ensures Keeps(Processed(w.(nodes := WithoutReceiver(w.nodes, p, Port(n, Require, k))), n, k + 1))
  {
    hide Sig, Held, IsPort, WellFormed, UniqueProvider, NoDup, Receivers, TotalSize, Couple, Shape, StartedPort, Pending, Ports, Processed, Without, ReceiversExact, ReceiversCoherent, ReceiversValid, StatesFit, NotStartedUnused, GatheredFit, WithoutReceiver;
    PendingProvider(w, n, k);
    var r := Port(n, Require, k);
    var d := w.(nodes := WithoutReceiver(w.nodes, p, r));
    var u, v := Processed(w, n, k), Processed(d, n, k + 1);
    ProcessedOnly(w, n, k);
    ProcessedOnly(d, n, k + 1);
    WithoutReceiverFacts(w.t, w.nodes, p, r);
    ProcessedNodes(w, d, n, k);
    StatesFitSame(u, u.(nodes := d.nodes));
    ProcessedStates(d, n, k);
    GatheredSame(u, u.(nodes := d.nodes));
    ProcessedGathered(d, n, k);
    UnlistedLists(w, n, k, p, d.nodes);
    StartedSame(w.nodes, d.nodes);
    UnlistedUnused(w, n, k, p, d.nodes);
  }

  lemma ProcessedNodes(w: World, d: World, n: nat, k: nat)
    requires n in w.gatheredRequire && d == w.(nodes := d.nodes)
    ensures Processed(d, n, k) == Processed(w, n, k).(nodes := d.nodes)
  {
  }

  /** The lists after one receiver was taken off. */
  ghost predicate OneUnlisted(t: Topology, nodes: Nodes, d: Nodes, p: Port, r: Port) {
    && (forall q: Port :: q.side.Provide? ==> Receivers(d, q) == if q == p then Without(Receivers(nodes, q), r) else Receivers(nodes, q))
    && (forall x :: Held(t, d, x) == Held(t, nodes, x))
  }

  lemma UnlistedLists(w: World, n: nat, k: nat, p: Port, nodes: Nodes)
    requires n in w.gatheredRequire && k < |w.gatheredRequire[n]| && w.gatheredRequire[n][k] == Change(-1, [p])
    requires Keeps(Processed(w, n, k)) && IsPort(w.t, p) && p.side.Provide? && Port(n, Require, k) !in w.attached
    requires OneUnlisted(w.t, w.nodes, nodes, p, Port(n, Require, k))
    ensures var v := Processed(w.(nodes := nodes), n, k + 1);
            ReceiversValid(v.t, v.nodes) && ReceiversCoherent(v.t, v.nodes, v.attached) && ReceiversExact(v)
  {
    hide Sig, Held, IsPort, WellFormed, UniqueProvider, NoDup, Receivers, TotalSize, Shape, StartedPort, Pending, Ports, Processed, Without, StatesFit, NotStartedUnused, GatheredFit;
    var r := Port(n, Require, k);
    var d := w.(nodes := nodes);
    var u, v := Processed(w, n, k), Processed(d, n, k + 1);
    ProcessedOnly(w, n, k);
    ProcessedOnly(d, n, k + 1);
    WithoutMembers(Receivers(w.nodes, p), r);
    forall q, x | q in v.attached && q.side.Provide?
      ensures x in Receivers(v.nodes, q) <==> Couple(v.t, v.attached, q, x) || Pending(v, q, x)
    {
      ProcessedPending(d, n, k + 1, q, x);
      ProcessedPending(w, n, k, q, x);
      PendingSame(w, d, q, x);
      OnlyPending(w, n, k, p, q, x);
    }
  }

  lemma PendingSame(w: World, d: World, q: Port, x: Port)
    requires d.gatheredRequire == w.gatheredRequire
    ensures Pending(d, q, x) <==> Pending(w, q, x)
  {
  }

  lemma OnlyPending(w: World, n: nat, k: nat, p: Port, q: Port, x: Port)
    requires n in w.gatheredRequire && k < |w.gatheredRequire[n]| && w.gatheredRequire[n][k] == Change(-1, [p])
    ensures Pending(w, q, x) && x.node == n && x.id == k ==> q == p && x == Port(n, Require, k)
  {
  }

  lemma UnlistedUnused(w: World, n: nat, k: nat, p: Port, nodes: Nodes)
    requires n in w.gatheredRequire && NotStartedUnused(Processed(w, n, k))
    requires NoDup(Receivers(w.nodes, p)) && OneUnlisted(w.t, w.nodes, nodes, p, Port(n, Require, k)) && SameStates(w.nodes, nodes)
    ensures NotStartedUnused(Processed(w.(nodes := nodes), n, k + 1))
  {
    hide Sig, Held, IsPort, NoDup, Receivers, StartedPort, Pending, Processed, Without;
    var r := Port(n, Require, k);
    var d := w.(nodes := nodes);
    var u, v := Processed(w, n, k), Processed(d, n, k + 1);
    ProcessedOnly(w, n, k);
    ProcessedOnly(d, n, k + 1);
    StartedSame(w.nodes, nodes);
    WithoutMembers(Receivers(w.nodes, p), r);
    forall q, x ensures Pending(v, q, x) ==> Pending(u, q, x) {
      ProcessedPending(d, n, k + 1, q, x);
      ProcessedPending(w, n, k, q, x);
      PendingSame(w, d, q, x);
    }
    forall q, x | IsPort(v.t, q) && q.side.Provide? && x in Receivers(v.nodes, q)
      ensures StartedPort(v.nodes, q) && StartedPort(v.nodes, x)
    {
      assert x in Receivers(u.nodes, q);
      assert StartedPort(u.nodes, q) && StartedPort(u.nodes, x);
    }
  }

  function RequesterFinished(w: World, n: nat): World
    requires n in w.nodes
  {
    w.(nodes := w.nodes[n := w.nodes[n].(requireState := Disconnected)], gatheredRequire := w.gatheredRequire - {n})
  }

  /** All entries processed, the node may be disconnected. */
  lemma RequesterFinishedKeeps(w: World, n: nat)
    requires n in w.gatheredRequire && Keeps(Processed(w, n, |w.gatheredRequire[n]|))
    ensures n in w.nodes && Keeps(RequesterFinished(w, n))
  {
    hide Sig, Held, IsPort, WellFormed, UniqueProvider, NoDup, Receivers, TotalSize, Couple, Shape, StartedPort, Pending, Ports, Processed, ReceiversCoherent, ReceiversValid, ReceiversExact, NotStartedUnused;
    var u := Processed(w, n, |w.gatheredRequire[n]|);
    ProcessedOnly(w, n, |w.gatheredRequire[n]|);
    assert n in u.gatheredRequire;
    var v := RequesterFinished(w, n);
    StateRouting(w.t, w.attached, w.nodes, n, Require, Disconnected);
    forall p ensures Receivers(v.nodes, p) == Receivers(w.nodes, p) {
      StateReceivers(w.nodes, n, Require, Disconnected, p);
    }
    forall p, r ensures Pending(v, p, r) <==> Pending(u, p, r) {
      ProcessedPending(w, n, |w.gatheredRequire[n]|, p, r);
      FinishedPending(w, n, p, r);
    }
    RequesterFinishedFit(w, n);
    RequesterFinishedGathered(w, n);
    hide StatesFit, GatheredFit;
    RequesterFinishedExact(u, v);
    NotStartedMore(u, v);
  }

  lemma FinishedPending(w: World, n: nat, p: Port, r: Port)
    requires n in w.gatheredRequire && n in w.nodes
    ensures Pending(RequesterFinished(w, n), p, r) <==> Pending(w, p, r) && !(r.node == n && r.id < |w.gatheredRequire[n]|)
  {
  }

  lemma RequesterFinishedExact(u: World, v: World)
    requires ReceiversExact(u) && v.t == u.t && v.attached == u.attached
    requires forall p :: Receivers(v.nodes, p) == Receivers(u.nodes, p)
    requires forall p, r :: Pending(v, p, r) <==> Pending(u, p, r)
    ensures ReceiversExact(v)
  {
    hide Receivers, Pending, Couple;
  }

  lemma RequesterFinishedFit(w: World, n: nat)
    requires n in w.gatheredRequire && n in w.nodes && StatesFit(Processed(w, n, |w.gatheredRequire[n]|))
    ensures StatesFit(RequesterFinished(w, n))
  {
    hide IsPort;
  }

  lemma RequesterFinishedGathered(w: World, n: nat)
    requires n in w.gatheredRequire && n in w.nodes && GatheredFit(Processed(w, n, |w.gatheredRequire[n]|))
    ensures GatheredFit(RequesterFinished(w, n))
    ensures forall x :: StartedPort(w.nodes, x) ==> StartedPort(RequesterFinished(w, n).nodes, x)
  {
    hide Ports;
    var u := Processed(w, n, |w.gatheredRequire[n]|);
    assert forall m :: m in w.gatheredRequire && m != n ==> u.gatheredRequire[m] == w.gatheredRequire[m];
  }

  // ---------- what the second phase has done for a requester ----------

  function Unlisted(node: Node): Node {
    node.(connectors := [])
  }

  /** The pending receivers of the first `k` entries are off the lists; nothing else has changed. */
  ghost predicate ListsProcessed(w: World, nodes: Nodes, n: nat, k: nat) {
    && nodes.Keys == w.nodes.Keys && (forall m :: m in nodes ==> Unlisted(nodes[m]) == Unlisted(w.nodes[m]))
    && (forall p, r {:trigger r in Receivers(nodes, p)} :: IsPort(w.t, p) && p.side.Provide? ==>
      (r in Receivers(nodes, p) <==> r in Receivers(w.nodes, p) && !(r.node == n && r.id < k && Pending(w, p, r))))
  }

  lemma ListsStart(w: World, n: nat)
    ensures ListsProcessed(w, w.nodes, n, 0)
  {
    hide Receivers, IsPort;
  }

  lemma ListsSkipped(w: World, nodes: Nodes, n: nat, k: nat)
    requires n in w.gatheredRequire && k < |w.gatheredRequire[n]| && w.gatheredRequire[n][k].count == 0 && ListsProcessed(w, nodes, n, k)
    ensures ListsProcessed(w, nodes, n, k + 1)
  {
    hide Receivers, IsPort, Pending;
    forall p: Port, r: Port ensures (r.node == n && r.id < k && Pending(w, p, r)) <==> (r.node == n && r.id < k + 1 && Pending(w, p, r)) {
      ZeroPending(w, n, k, p, r);
    }
  }

  lemma ListsNext(w: World, nodes: Nodes, n: nat, k: nat, p: Port)
    requires n in w.gatheredRequire && k < |w.gatheredRequire[n]| && w.gatheredRequire[n][k] == Change(-1, [p]) && ListsProcessed(w, nodes, n, k)
    requires Shape(w.t, nodes) && p.node in nodes && p.id < |nodes[p.node].connectors| && p.side.Provide? && NoDup(Receivers(nodes, p))
    ensures ListsProcessed(w, WithoutReceiver(nodes, p, Port(n, Require, k)), n, k + 1)
  {
    hide Receivers, IsPort, Pending, Shape, Held, NoDup, Without;
    var r := Port(n, Require, k);
    var d := WithoutReceiver(nodes, p, r);
    WithoutReceiverFacts(w.t, nodes, p, r);
    WithoutMembers(Receivers(nodes, p), r);
    assert Pending(w, p, r) by {
      IsPending(w, n, k, p);
    }
    forall q, x | IsPort(w.t, q) && q.side.Provide?
      ensures x in Receivers(d, q) <==> x in Receivers(w.nodes, q) && !(x.node == n && x.id < k + 1 && Pending(w, q, x))
    {
      OnlyPending(w, n, k, p, q, x);
      assert x in Receivers(nodes, q) <==> x in Receivers(w.nodes, q) && !(x.node == n && x.id < k && Pending(w, q, x));
    }
  }

  lemma IsPending(w: World, n: nat, k: nat, p: Port)
    requires n in w.gatheredRequire && k < |w.gatheredRequire[n]| && w.gatheredRequire[n][k] == Change(-1, [p])
    ensures Pending(w, p, Port(n, Require, k))
  {
  }

  /** A requester's second phase: off every list it was pending for, and disconnected. */
  ghost predicate RequesterGone(w: World, now: World, n: nat) {
    && n in w.nodes && now == RequesterFinished(w, n).(nodes := now.nodes) && now.nodes.Keys == w.nodes.Keys
    && (forall m :: m in w.nodes ==> Unlisted(now.nodes[m]) == Unlisted(RequesterFinished(w, n).nodes[m]))
    && (forall p, r {:trigger r in Receivers(now.nodes, p)} :: IsPort(w.t, p) && p.side.Provide? ==>
      (r in Receivers(now.nodes, p) <==> r in Receivers(w.nodes, p) && !(r.node == n && Pending(w, p, r))))
  }

  lemma ListsFinished(w: World, nodes: Nodes, n: nat)
    requires n in w.gatheredRequire && n in nodes && ListsProcessed(w, nodes, n, |w.gatheredRequire[n]|)
    ensures RequesterGone(w, RequesterFinished(w.(nodes := nodes), n), n)
  {
    hide IsPort, Receivers;
    var now := RequesterFinished(w.(nodes := nodes), n);
    forall p ensures Receivers(now.nodes, p) == Receivers(nodes, p) {
      StateReceivers(nodes, n, Require, Disconnected, p);
    }
    forall m | m in w.nodes ensures Unlisted(now.nodes[m]) == Unlisted(RequesterFinished(w, n).nodes[m]) {
      assert Unlisted(nodes[m]) == Unlisted(w.nodes[m]);
    }
  }

  lemma UnlistedNoTable(a: Nodes, b: Nodes)
    requires a.Keys == b.Keys && forall m :: m in a ==> Unlisted(b[m]) == Unlisted(a[m])
    ensures forall m :: m in a ==> b[m].provideChanges == a[m].provideChanges && b[m].requireChanges == a[m].requireChanges
  {
    forall m | m in a ensures b[m].provideChanges == a[m].provideChanges && b[m].requireChanges == a[m].requireChanges {
      assert Unlisted(b[m]) == Unlisted(a[m]);
    }
  }

  lemma ProcessedShape(w: World, n: nat, k: nat)
    requires n in w.gatheredRequire && Keeps(Processed(w, n, k))
    ensures Shape(w.t, w.nodes) && ReceiversValid(w.t, w.nodes)
  {
    hide Sig, Held, WellFormed, UniqueProvider, NoDup, Receivers, TotalSize, Couple, ReceiversExact, ReceiversCoherent, ReceiversValid, StatesFit, NotStartedUnused, GatheredFit;
  }

  lemma NothingProcessed(w: World, n: nat)
    requires n in w.gatheredRequire
    ensures Processed(w, n, 0) == w
  {
    var u := Processed(w, n, 0);
    assert u.gatheredRequire[n] == w.gatheredRequire[n];
    assert u.gatheredRequire == w.gatheredRequire;
  }

  // ---------- around the loops ----------

  /** The nodes of a connection that is not being detached yet. */
  ghost predicate ConnectionNodes(w: World, ns: seq<nat>) {
    NoDup(ns) && forall n :: n in ns ==> n in w.nodes && n !in w.gatheredProvide && n !in w.gatheredRequire
  }

  /** The sides of a node whose ports are attached are its connected sides. */
  ghost predicate SidesAttached(t: Topology, nodes: Nodes, attached: set<Port>, n: nat)
    requires n in nodes
  {
    forall x: Port :: x.node == n ==> (x in attached <==> IsPort(t, x) && StateOf(nodes[n], x.side).Connected?)
  }

  lemma SidesPorts(t: Topology, nodes: Nodes, attached: set<Port>, n: nat)
    requires n in nodes && SidesAttached(t, nodes, attached, n)
    ensures forall side, i | 0 <= i < |Ports(t, n, side)| :: Port(n, side, i) in attached <==> StateOf(nodes[n], side).Connected?
    ensures forall side, x :: x in FirstPorts(n, side, |Ports(t, n, side)|) <==> IsPort(t, x) && x.node == n && x.side == side
  {
    hide Ports, FirstPorts;
    forall side, i | 0 <= i < |Ports(t, n, side)| ensures Port(n, side, i) in attached <==> StateOf(nodes[n], side).Connected? {
      assert IsPort(t, Port(n, side, i));
    }
    forall side, x ensures x in FirstPorts(n, side, |Ports(t, n, side)|) <==> IsPort(t, x) && x.node == n && x.side == side {
      FirstPortsAre(t, n, side, x);
    }
  }

  lemma StillAttached(w: World, nodes: Nodes, attached: set<Port>, ns: seq<nat>, i: nat)
    requires Keeps(w) && SameBare(w.nodes, nodes) && ConnectionNodes(w, ns) && i < |ns|
    requires forall x :: x in attached <==> x in w.attached && x.node !in ns[..i]
    ensures ns[i] in nodes && SidesAttached(w.t, nodes, attached, ns[i])
  {
    hide Sig, Held, WellFormed, UniqueProvider, Receivers, TotalSize, ReceiversExact, ReceiversCoherent, ReceiversValid, NotStartedUnused, GatheredFit, IsPort, SameBare, Shape;
    SameBareKeys(w.nodes, nodes);
    BareStates(w.nodes, nodes);
    var n := ns[i];
    assert n in ns;
    assert n !in ns[..i];
    forall x: Port | x.node == n ensures x in attached <==> IsPort(w.t, x) && StateOf(nodes[n], x.side).Connected? {
      assert StateOf(nodes[n], x.side) == StateOf(w.nodes[n], x.side);
    }
  }

  lemma GatheredNone(nodes: Nodes, side: Side)
    ensures GatheredNodes(nodes, [], side) == nodes && HandedTables(nodes, [], side) == map[]
  {
  }

  lemma NothingAdded(tables: map<nat, seq<Change>>)
    ensures tables + map[] == tables
  {
  }

  /** Gathering the provide sides does not touch the require sides' tables. */
  lemma GatheredHanded(nodes: Nodes, ns: seq<nat>)
    ensures var g := GatheredNodes(nodes, ns, Provide);
            g.Keys == nodes.Keys && HandedTables(g, ns, Require) == HandedTables(nodes, ns, Require)
  {
  }

  lemma DetachingKeys(w: World, middle: World, ns: seq<nat>, pairs: seq<Pair>, modified: seq<nat>)
    requires Detaching(w, middle, ns, pairs, modified)
    ensures forall n :: n in ns ==> n in middle.nodes
  {
    hide Keeps, SameBare, PairsExact, Records;
    SameBareKeys(w.nodes, middle.nodes);
  }

  lemma DetachedReady(w: World, middle: World, gathered: World, ns: seq<nat>, pairs: seq<Pair>, modified: seq<nat>)
    requires Detaching(w, middle, ns, pairs, modified) && gathered == WithGathered(middle, ns)
    ensures Keeps(gathered) && TablesListed(gathered.nodes, modified) && gathered.nodes.Keys == w.t.Keys
  {
    hide Keeps, SameBare, PairsExact, Gathering, Ports, Records, TablesListed;
    DetachedKeeps(w, middle, ns, pairs, modified);
    KeepsFacts(w);
    SameBareKeys(w.nodes, middle.nodes);
    GatheringKeys(middle.nodes, ns);
    GatheredListed(w.t, middle.nodes, ns, pairs, modified);
  }

  lemma GatheredListed(t: Topology, nodes: Nodes, ns: seq<nat>, pairs: seq<Pair>, modified: seq<nat>)
    requires Records(t, nodes, modified, pairs, -1)
    ensures TablesListed(Gathering(nodes, ns), modified)
  {
    hide TableRecords, Gathering, Ports;
    GatheringKeys(nodes, ns);
    forall n, side | n in Gathering(nodes, ns) && Table(Gathering(nodes, ns)[n], side).Some? ensures n in modified {
      GatheringNode(nodes, ns, n);
      assert Table(nodes[n], side).Some?;
    }
  }

  lemma DetachedDone(w: World, middle: World, gathered: World, now: World, ns: seq<nat>, pairs: seq<Pair>, modified: seq<nat>)
    requires Detaching(w, middle, ns, pairs, modified) && gathered == WithGathered(middle, ns) && NoTables(w.nodes)
    requires NoTables(now.nodes) && SameBare(gathered.nodes, now.nodes) && now == gathered.(nodes := now.nodes)
    ensures Keeps(now) && NodesDetached(w, now, ns, pairs)
  {
    hide Keeps, SameBare, NodesDetached, Detaching, WithGathered;
    DetachedReady(w, middle, gathered, ns, pairs, modified);
    BareKeeps(gathered, now.nodes);
    TablesGone(w.nodes);
    TablesGone(now.nodes);
    DetachedOutcome(w, middle, ns, pairs, modified, now);
  }

  lemma TablesGone(nodes: Nodes)
    requires NoTables(nodes)
    ensures forall n :: n in nodes ==> NoTable(nodes[n])
  {
    forall n | n in nodes ensures NoTable(nodes[n]) {
      assert Table(nodes[n], Provide).None? && Table(nodes[n], Require).None?;
    }
  }

  lemma StillNoTables(a: Nodes, b: Nodes)
    requires NoTables(a) && b.Keys == a.Keys
    requires forall m :: m in a ==> b[m].provideChanges == a[m].provideChanges && b[m].requireChanges == a[m].requireChanges
    ensures NoTables(b)
  {
    forall m, side | m in b ensures Table(b[m], side).None? {
      assert Table(a[m], side).None?;
    }
  }

  lemma FinishedNoTables(w: World, n: nat)
    requires NoTables(w.nodes) && n in w.nodes
    ensures NoTables(ProviderFinished(w, n).nodes)
  {
    hide NoTables;
    StillNoTables(w.nodes, ProviderFinished(w, n).nodes);
  }

  lemma RequesterNoTables(w: World, nodes: Nodes, n: nat, k: nat)
    requires NoTables(w.nodes) && n in nodes && ListsProcessed(w, nodes, n, k)
    ensures NoTables(RequesterFinished(w.(nodes := nodes), n).nodes)
  {
    hide NoTables, Receivers, Pending, IsPort;
    UnlistedNoTable(w.nodes, nodes);
    StillNoTables(w.nodes, RequesterFinished(w.(nodes := nodes), n).nodes);
  }

  /** One entry of a requester's table processed. */
  lemma EntryProcessed(w: World, nodes: Nodes, n: nat, k: nat)
    requires n in w.gatheredRequire && k < |w.gatheredRequire[n]| && w.gatheredRequire[n][k].count != 0
    requires Keeps(Processed(w.(nodes := nodes), n, k)) && ListsProcessed(w, nodes, n, k)
    ensures var c := w.gatheredRequire[n][k];
            && c.count == -1 && |c.ports| == 1
            && var p, r := c.ports[0], Port(n, Require, k);
            && p.node in nodes && p.id < |nodes[p.node].connectors| == |Ports(w.t, p.node, Provide)|
            && Keeps(Processed(w.(nodes := WithoutReceiver(nodes, p, r)), n, k + 1))
            && ListsProcessed(w, WithoutReceiver(nodes, p, r), n, k + 1)
  {
    hide Keeps, Processed, ListsProcessed, Receivers, WithoutReceiver, Sig, IsPort, NoDup, Held;
    var d := w.(nodes := nodes);
    PendingProvider(d, n, k);
    var p := w.gatheredRequire[n][k].ports[0];
    UnlistedKeeps(d, n, k, p);
    ProcessedShape(d, n, k);
    ListsNext(w, nodes, n, k, p);
  }
}
