/** Writing the data of a connected provider: what goes to which receiver. */
module RoutingWrites {
  import opened Bytes
  import opened Routing
  import opened RoutingData
  import opened RoutingInvariant
  import opened BytePortMaps

  /** A write that covers whole ports. */
  predicate WholePorts(ports: seq<PortInfo>, offset: nat, size: nat) {
    && (exists i :: 0 <= i <= |ports| && offset == TotalSize(ports[..i]))
    && (exists i :: 0 <= i <= |ports| && offset + size == TotalSize(ports[..i]))
  }

  /** The places where a port begins, and the end. */
  ghost predicate Boundary(ports: seq<PortInfo>, at: nat) {
    exists i :: 0 <= i <= |ports| && at == TotalSize(ports[..i])
  }

  /** A port of `n` that begins in `from..to`, and one of its receivers. */
  predicate Feeds(t: Topology, nodes: Nodes, n: nat, from: nat, to: nat, p: Port, r: Port) {
    p.node == n && p.side.Provide? && IsPort(t, p) && from <= Info(t, p).offset < to && r in Receivers(nodes, p)
  }

  /** A node with its require port data out of sight. */
  function Unfed(node: Node): Node {
    node.(requireData := [])
  }

  /**
   * The receivers of the pairs in `fed` hold the bytes of their providers, and nothing else
   * has changed.
   */
  ghost predicate Feeding(t: Topology, start: Nodes, nodes: Nodes, fed: set<Pair>) {
    && Shape(t, nodes) && start.Keys == nodes.Keys
    && (forall n :: n in start ==> Unfed(nodes[n]) == Unfed(start[n]))
    && (forall p, r :: (p, r) in fed ==> Held(t, nodes, r) == Held(t, start, p))
    && OthersHold(t, start, nodes, Takers(fed))
  }

  lemma FeedingStarts(t: Topology, start: Nodes)
    requires Shape(t, start)
    ensures Feeding(t, start, start, {})
  {
    hide TotalSize, Held;
  }

  lemma UnfedReceivers(start: Nodes, nodes: Nodes)
    requires start.Keys == nodes.Keys && forall n :: n in start ==> Unfed(nodes[n]) == Unfed(start[n])
    ensures forall p :: Receivers(nodes, p) == Receivers(start, p)
  {
    forall p ensures Receivers(nodes, p) == Receivers(start, p) {
      assert p.node in start ==> Unfed(nodes[p.node]).connectors == Unfed(start[p.node]).connectors;
    }
  }

  lemma UnfedHeld(t: Topology, start: Nodes, nodes: Nodes, x: Port)
    requires start.Keys == nodes.Keys && forall n :: n in start ==> Unfed(nodes[n]) == Unfed(start[n])
    requires x.side.Provide?
    ensures Held(t, nodes, x) == Held(t, start, x)
  {
    hide Info;
    assert x.node in start ==> Unfed(nodes[x.node]).provideData == Unfed(start[x.node]).provideData;
  }

  lemma UnfedAfter(t: Topology, start: Nodes, nodes: Nodes, r: Port, bs: seq<byte>)
    requires start.Keys == nodes.Keys && forall n :: n in start ==> Unfed(nodes[n]) == Unfed(start[n])
    requires r.side.Require? && r.node in nodes && Info(t, r).offset + |bs| <= |DataOf(nodes[r.node], r.side)|
    ensures var d := WithHeld(t, nodes, r, bs);
            start.Keys == d.Keys && forall n :: n in start ==> Unfed(d[n]) == Unfed(start[n])
  {
    hide Info, WriteAt;
  }

  /** One more receiver fed. */
  lemma FedMore(t: Topology, start: Nodes, nodes: Nodes, fed: set<Pair>, p: Port, r: Port)
    requires WellFormed(t) && Shape(t, start) && Feeding(t, start, nodes, fed)
    requires IsPort(t, p) && p.side.Provide? && IsPort(t, r) && r.side.Require? && Sig(t, p) == Sig(t, r)
    requires forall q :: (q, r) in fed ==> q == p
    requires forall q, x :: (q, x) in fed ==> IsPort(t, x)
    ensures r.node in nodes && Info(t, r).offset + |Held(t, start, p)| <= |DataOf(nodes[r.node], r.side)|
    ensures Feeding(t, start, WithHeld(t, nodes, r, Held(t, start, p)), fed + {(p, r)})
  {
    FedFits(t, start, nodes, p, r);
    hide WellFormed, Shape, Held, Info, Sig, Takers, WithHeld, IsPort, Unfed, OthersHold, WriteAt, DataOf;
    var d := WithHeld(t, nodes, r, Held(t, start, p));
    ShapeAfter(t, nodes, r, Held(t, start, p));
    UnfedAfter(t, start, nodes, r, Held(t, start, p));
    HeldAfterAll(t, nodes, r, Held(t, start, p));
    FedOthers(t, start, nodes, d, fed, p, r);
    FedHeld(t, start, nodes, d, fed, p, r);
  }

  lemma HeldAfterAll(t: Topology, nodes: Nodes, r: Port, bs: seq<byte>)
    requires WellFormed(t) && Shape(t, nodes) && IsPort(t, r) && |bs| == Info(t, r).size
    requires r.node in nodes && Info(t, r).offset + |bs| <= |DataOf(nodes[r.node], r.side)|
    ensures forall x :: IsPort(t, x) ==> Held(t, WithHeld(t, nodes, r, bs), x) == if x == r then bs else Held(t, nodes, x)
  {
    hide WellFormed, Shape, Held, Info, WithHeld, IsPort, WriteAt, DataOf;
    forall x | IsPort(t, x) ensures Held(t, WithHeld(t, nodes, r, bs), x) == if x == r then bs else Held(t, nodes, x) {
      HeldAfter(t, nodes, r, bs, x);
    }
  }

  lemma FedHeld(t: Topology, start: Nodes, nodes: Nodes, d: Nodes, fed: set<Pair>, p: Port, r: Port)
    requires forall q, x :: (q, x) in fed ==> Held(t, nodes, x) == Held(t, start, q)
    requires forall q :: (q, r) in fed ==> q == p
    requires forall q, x :: (q, x) in fed ==> IsPort(t, x)
    requires forall x :: IsPort(t, x) ==> Held(t, d, x) == if x == r then Held(t, start, p) else Held(t, nodes, x)
    requires IsPort(t, r)
    ensures forall q, x :: (q, x) in fed + {(p, r)} ==> Held(t, d, x) == Held(t, start, q)
  {
    hide Held, IsPort;
  }

  lemma FedFits(t: Topology, start: Nodes, nodes: Nodes, p: Port, r: Port)
    requires WellFormed(t) && Shape(t, start) && Shape(t, nodes)
    requires IsPort(t, p) && p.side.Provide? && IsPort(t, r) && r.side.Require? && Sig(t, p) == Sig(t, r)
    ensures r.node in nodes && |Held(t, start, p)| == Info(t, r).size
    ensures Info(t, r).offset + |Held(t, start, p)| <= |DataOf(nodes[r.node], r.side)|
  {
    HeldInside(t, start, p);
    HeldInside(t, nodes, r);
    SizesEqual(t, p, r);
  }

  lemma FedOthers(t: Topology, start: Nodes, nodes: Nodes, d: Nodes, fed: set<Pair>, p: Port, r: Port)
    requires OthersHold(t, start, nodes, Takers(fed))
    requires forall x :: IsPort(t, x) ==> Held(t, d, x) == if x == r then Held(t, start, p) else Held(t, nodes, x)
    ensures OthersHold(t, start, d, Takers(fed + {(p, r)}))
  {
    hide Held, IsPort, Takers;
    MoreTakers(fed, p, r);
  }

  /** The ports found at a boundary, and the next boundary. */
  lemma PortAtBoundary(ports: seq<PortInfo>, at: nat, end: nat)
    requires Placed(ports) && Boundary(ports, at) && Boundary(ports, end) && at < end
    ensures PortAt(ports, at).Some? && PortAt(ports, at).value < |ports|
    ensures var i := PortAt(ports, at).value;
            && ports[i].offset == at && at + ports[i].size <= end && Boundary(ports, at + ports[i].size)
  {
    hide TotalSize, PortAt, Placed;
    var i :| 0 <= i <= |ports| && at == TotalSize(ports[..i]);
    var j :| 0 <= j <= |ports| && end == TotalSize(ports[..j]);
    if j <= i {
      PrefixGrows(ports, j, i);
      assert false;
    }
    PlacedAt(ports, i);
    PortAtExact(ports, at, i);
    TotalSizeGrows(ports, i, i + 1);
    PrefixNext(ports, i);
    PrefixGrows(ports, i + 1, j);
  }

  lemma PlacedAt(ports: seq<PortInfo>, i: nat)
    requires Placed(ports) && i < |ports|
    ensures ports[i].size > 0 && ports[i].offset == TotalSize(ports[..i])
  {
  }

  lemma PrefixNext(ports: seq<PortInfo>, i: nat)
    requires i < |ports|
    ensures TotalSize(ports[..i + 1]) == TotalSize(ports[..i]) + ports[i].size
  {
    assert ports[..i + 1][..i] == ports[..i];
  }

  lemma PrefixGrows(ports: seq<PortInfo>, i: nat, j: nat)
    requires i <= j <= |ports|
    ensures TotalSize(ports[..i]) <= TotalSize(ports[..j])
  {
    assert ports[..j][..i] == ports[..i];
    TotalSizePrefix(ports[..j], i);
  }

  /** Between a port's first byte and its end no other port begins. */
  lemma FeedsNext(t: Topology, nodes: Nodes, n: nat, from: nat, at: nat, end: nat, p: Port)
    requires WellFormed(t) && IsPort(t, p) && p.node == n && p.side.Provide?
    requires from <= at == Info(t, p).offset && end == at + Info(t, p).size
    ensures forall q, r :: Feeds(t, nodes, n, from, end, q, r) <==> Feeds(t, nodes, n, from, at, q, r) || (q == p && r in Receivers(nodes, p))
  {
    PlacedAt(Ports(t, n, Provide), p.id);
    hide WellFormed, Info, Receivers;
    forall q, r
      ensures Feeds(t, nodes, n, from, end, q, r) <==> Feeds(t, nodes, n, from, at, q, r) || (q == p && r in Receivers(nodes, p))
    {
      if q.node == n && q.side.Provide? && IsPort(t, q) {
        PortsApart(t, p, q);
        assert q == p || q.id != p.id;
        PlacedAt(Ports(t, n, Provide), q.id);
      }
    }
  }

  // ---------- the world after a write ----------

  /** The nodes with new bytes in one node's provide port data. */
  function WithWritten(nodes: Nodes, n: nat, offset: nat, data: seq<byte>): Nodes
    requires n in nodes && offset + |data| <= |nodes[n].provideData|
  {
    WithProvideData(nodes, n, WriteAt(nodes[n].provideData, offset, data))
  }

  /**
   * A write of whole ports was routed: each receiver of a written port holds that port's
   * bytes, and nothing else has changed.
   */
  ghost predicate DataRouted(w: World, now: World, n: nat, offset: nat, data: seq<byte>) {
    && n in w.nodes && offset + |data| <= |w.nodes[n].provideData|
    && now == w.(nodes := now.nodes)
    && exists fed ::
         && (forall p, r :: (p, r) in fed <==> Feeds(w.t, w.nodes, n, offset, offset + |data|, p, r))
         && Feeding(w.t, WithWritten(w.nodes, n, offset, data), now.nodes, fed)
  }

  /** Ports that do not begin in a write of whole ports keep their bytes. */
  lemma NotWritten(t: Topology, nodes: Nodes, n: nat, offset: nat, data: seq<byte>, p: Port)
    requires WellFormed(t) && Shape(t, nodes) && n in nodes && offset + |data| <= |nodes[n].provideData|
    requires WholePorts(Ports(t, n, Provide), offset, |data|)
    requires IsPort(t, p) && p.side.Provide? && (p.node != n || !(offset <= Info(t, p).offset < offset + |data|))
    ensures Held(t, WithWritten(nodes, n, offset, data), p) == Held(t, nodes, p)
  {
    var d := WithWritten(nodes, n, offset, data);
    if p.node == n {
      RangeApart(Ports(t, n, Provide), offset, |data|, p.id);
      hide Info, Held, WriteAt, WholePorts, TotalSize, Part, IsPort;
      assert DataOf(d[n], Provide) == WriteAt(nodes[n].provideData, offset, data);
      HeldIsPart(t, nodes, p);
      HeldIsPart(t, d, p);
      PartWritten(nodes[n].provideData, offset, data, Info(t, p).offset, Info(t, p).size);
    } else {
      hide Info, TotalSize;
    }
  }

  lemma RangeApart(ports: seq<PortInfo>, offset: nat, size: nat, i: nat)
    requires Placed(ports) && WholePorts(ports, offset, size) && i < |ports|
    requires !(offset <= ports[i].offset < offset + size)
    ensures ports[i].offset + ports[i].size <= offset || offset + size <= ports[i].offset
  {
    hide TotalSize, Placed;
    var a :| 0 <= a <= |ports| && offset == TotalSize(ports[..a]);
    PlacedAt(ports, i);
    PrefixNext(ports, i);
    if i < a {
      PrefixGrows(ports, i + 1, a);
    } else {
      PrefixGrows(ports, a, i);
    }
  }

  /** Every step of a routed write keeps what the server keeps. */
  lemma RoutedKeeps(w: World, nodes: Nodes, n: nat, offset: nat, data: seq<byte>, fed: set<Pair>)
    requires Keeps(w) && n in w.nodes && w.nodes[n].provideState.Connected? && n !in w.gatheredProvide
    requires offset + |data| <= |w.nodes[n].provideData| && WholePorts(Ports(w.t, n, Provide), offset, |data|)
    requires forall p, r :: (p, r) in fed <==> Feeds(w.t, w.nodes, n, offset, offset + |data|, p, r)
    requires Feeding(w.t, WithWritten(w.nodes, n, offset, data), nodes, fed)
    ensures Keeps(w.(nodes := nodes))
  {
    hide Sig, Held, Receivers, IsPort, Shape, WellFormed, UniqueProvider, TotalSize, WithProvideData, WholePorts, Feeds, Takers, StatesFit, NotStartedUnused, GatheredFit, ReceiversExact, ReceiversCoherent, ReceiversValid, Unfed;
    var written, v := WithWritten(w.nodes, n, offset, data), w.(nodes := nodes);
    ProvideDataFacts(w.t, w.nodes, n, WriteAt(w.nodes[n].provideData, offset, data));
    UnfedReceivers(written, nodes);
    UnfedStates(written, nodes);
    SameStatesChain(w.nodes, written, nodes);
    RoutedSame(w, v);
    RoutedCoherent(w, nodes, n, offset, data, fed);
  }

  lemma UnfedStates(a: Nodes, b: Nodes)
    requires a.Keys == b.Keys && forall n :: n in a ==> Unfed(b[n]) == Unfed(a[n])
    ensures SameStates(a, b)
  {
    forall n | n in a ensures a[n].provideState == b[n].provideState && a[n].requireState == b[n].requireState {
      assert Unfed(b[n]) == Unfed(a[n]);
    }
  }

  lemma SameStatesChain(a: Nodes, b: Nodes, c: Nodes)
    requires SameStates(a, b) && SameStates(b, c)
    ensures SameStates(a, c)
  {
  }

  lemma RoutedSame(w: World, v: World)
    requires Keeps(w) && v == w.(nodes := v.nodes) && SameStates(w.nodes, v.nodes)
    requires forall p :: Receivers(v.nodes, p) == Receivers(w.nodes, p)
    ensures ReceiversValid(v.t, v.nodes) && ReceiversExact(v) && StatesFit(v) && NotStartedUnused(v) && GatheredFit(v)
  {
    hide Sig, Held, Receivers, IsPort, Shape, WellFormed, UniqueProvider, StatesFit, NotStartedUnused, GatheredFit, ReceiversCoherent;
    StatesFitSame(w, v);
    GatheredSame(w, v);
    StartedSame(w.nodes, v.nodes);
    NotStartedSame(w, v);
    assert forall p, r :: Pending(v, p, r) <==> Pending(w, p, r);
  }

  lemma RoutedCoherent(w: World, nodes: Nodes, n: nat, offset: nat, data: seq<byte>, fed: set<Pair>)
    requires Keeps(w) && n in w.nodes && w.nodes[n].provideState.Connected? && n !in w.gatheredProvide
    requires offset + |data| <= |w.nodes[n].provideData| && WholePorts(Ports(w.t, n, Provide), offset, |data|)
    requires forall p, r :: (p, r) in fed <==> Feeds(w.t, w.nodes, n, offset, offset + |data|, p, r)
    requires Feeding(w.t, WithWritten(w.nodes, n, offset, data), nodes, fed)
    requires forall p :: Receivers(nodes, p) == Receivers(w.nodes, p)
    ensures ReceiversCoherent(w.t, nodes, w.attached)
  {
    hide Sig, Held, Receivers, IsPort, Shape, WellFormed, UniqueProvider, TotalSize, WithWritten, WholePorts, Takers, NotStartedUnused, GatheredFit, ReceiversExact, ReceiversValid, Unfed, Info;
    var written := WithWritten(w.nodes, n, offset, data);
    forall p, r | p in w.attached && p.side.Provide? && r in w.attached && r in Receivers(nodes, p)
      ensures Held(w.t, nodes, r) == Held(w.t, nodes, p)
    {
      ReceiverSide(w, p, r);
      UnfedHeld(w.t, written, nodes, p);
      if !Feeds(w.t, w.nodes, n, offset, offset + |data|, p, r) {
        NotWritten(w.t, w.nodes, n, offset, data, p);
        if r in Takers(fed) {
          FedTwice(w, n, offset, data, fed, p, r);
        }
        RequireUnwritten(w.t, w.nodes, n, offset, data, r);
      }
    }
  }

  lemma RequireUnwritten(t: Topology, nodes: Nodes, n: nat, offset: nat, data: seq<byte>, r: Port)
    requires n in nodes && offset + |data| <= |nodes[n].provideData| && r.side.Require?
    ensures Held(t, WithWritten(nodes, n, offset, data), r) == Held(t, nodes, r)
  {
    hide Info, WriteAt;
  }

  /** A receiver is fed by its own provider only. */
  lemma FedTwice(w: World, n: nat, offset: nat, data: seq<byte>, fed: set<Pair>, p: Port, r: Port)
    requires Keeps(w) && n in w.nodes && w.nodes[n].provideState.Connected? && n !in w.gatheredProvide
    requires forall p, r :: (p, r) in fed <==> Feeds(w.t, w.nodes, n, offset, offset + |data|, p, r)
    requires p in w.attached && p.side.Provide? && r in Receivers(w.nodes, p) && r in Takers(fed)
    ensures Feeds(w.t, w.nodes, n, offset, offset + |data|, p, r)
  {
    hide Sig, Held, Receivers, Shape, WellFormed, UniqueProvider, NotStartedUnused, GatheredFit, ReceiversExact, ReceiversValid, ReceiversCoherent, Info, IsPort;
    var pair :| pair in fed && pair.1 == r;
    var q := pair.0;
    assert (q, r) in fed;
    assert q in w.attached;
    ReceiverSide(w, p, r);
    OneProvider(w.t, w.nodes, w.attached, p, q, r);
  }

  // ---------- the steps of routing ----------

  /** The receivers of `p` can be fed, and none of them has been fed by another port. */
  ghost predicate Feedable(t: Topology, start: Nodes, fed: set<Pair>, p: Port) {
    && WellFormed(t) && Shape(t, start) && IsPort(t, p) && p.side.Provide?
    && (forall r :: r in Receivers(start, p) ==> IsPort(t, r) && r.side.Require? && Sig(t, p) == Sig(t, r))
    && (forall q, r :: (q, r) in fed ==> IsPort(t, r) && r !in Receivers(start, p))
  }

  lemma FeedableReceivers(t: Topology, start: Nodes, nodes: Nodes, fed: set<Pair>, p: Port)
    requires Feedable(t, start, fed, p) && Feeding(t, start, nodes, fed)
    ensures p.node in nodes && p.id < |nodes[p.node].connectors| && nodes[p.node].connectors[p.id] == Receivers(start, p)
  {
    hide Held, Sig, TotalSize, WellFormed, OthersHold;
    UnfedReceivers(start, nodes);
    assert Receivers(nodes, p) == Receivers(start, p);
  }

  /** What feeding the next receiver needs, and what it does. */
  lemma FeedableMore(t: Topology, start: Nodes, nodes: Nodes, fed: set<Pair>, more: set<Pair>, connectors: seq<Port>, i: nat, p: Port)
    requires Feedable(t, start, fed, p) && Feeding(t, start, nodes, more) && connectors == Receivers(start, p) && i < |connectors|
    requires forall q, r :: (q, r) in more <==> (q, r) in fed || (q == p && r in connectors[..i])
    ensures var r := connectors[i];
            && Info(t, p).size == Info(t, r).size == |Held(t, start, p)| && r.node in nodes && r.side.Require?
            && Info(t, r).offset + |Held(t, start, p)| <= |nodes[r.node].requireData|
            && Feeding(t, start, nodes[r.node := WithData(nodes[r.node], Require, WriteAt(nodes[r.node].requireData, Info(t, r).offset, Held(t, start, p)))], more + {(p, r)})
  {
    hide Held, Sig, TotalSize, WellFormed, Feeding, Receivers, IsPort, Shape, WriteAt, Info;
    var r := connectors[i];
    assert r in connectors;
    forall q | (q, r) in more ensures q == p {
      assert (q, r) !in fed;
    }
    forall q, x | (q, x) in more ensures IsPort(t, x) {
      assert (q, x) in fed || x in connectors[..i];
    }
    FeedingShape(t, start, nodes, more);
    FedFits(t, start, nodes, p, r);
    SizesEqual(t, p, r);
    FedMore(t, start, nodes, more, p, r);
  }

  lemma FeedingShape(t: Topology, start: Nodes, nodes: Nodes, fed: set<Pair>)
    requires Feeding(t, start, nodes, fed)
    ensures Shape(t, nodes)
  {
  }

  /** A connected provider, not being detached, and a write of whole ports inside its data. */
  ghost predicate Writable(w: World, n: nat, offset: nat, data: seq<byte>) {
    && Keeps(w) && n in w.nodes && w.nodes[n].provideState.Connected? && n !in w.gatheredProvide
    && offset + |data| <= |w.nodes[n].provideData| && WholePorts(Ports(w.t, n, Provide), offset, |data|)
  }

  lemma RouteStarts(w: World, n: nat, offset: nat, data: seq<byte>)
    requires Writable(w, n, offset, data)
    ensures Boundary(Ports(w.t, n, Provide), offset) && Boundary(Ports(w.t, n, Provide), offset + |data|)
    ensures var start := WithWritten(w.nodes, n, offset, data); Feeding(w.t, start, start, {})
    ensures forall p, r :: !Feeds(w.t, w.nodes, n, offset, offset, p, r)
  {
    hide Keeps, TotalSize, Feeding, Receivers, IsPort, Info;
    KeptShape(w);
    ProvideDataFacts(w.t, w.nodes, n, WriteAt(w.nodes[n].provideData, offset, data));
    FeedingStarts(w.t, WithWritten(w.nodes, n, offset, data));
  }

  lemma KeptShape(w: World)
    requires Keeps(w)
    ensures WellFormed(w.t) && Shape(w.t, w.nodes) && w.nodes.Keys == w.t.Keys
  {
    hide Sig, Held, Receivers, IsPort, UniqueProvider, StatesFit, NotStartedUnused, GatheredFit, ReceiversCoherent, ReceiversValid, ReceiversExact, TotalSize, WellFormed;
  }

  lemma PortsPlaced(t: Topology, n: nat)
    requires WellFormed(t) && n in t
    ensures Placed(Ports(t, n, Provide))
  {
    hide Placed, IsPort, Sig, Info;
  }

  /** One step of the routing loop: port `p` lies at `at`, with its bytes in the write, and its receivers can be fed. */
  ghost predicate RoutesAt(w: World, n: nat, offset: nat, data: seq<byte>, fed: set<Pair>, at: nat, p: Port)
    requires n in w.nodes && offset + |data| <= |w.nodes[n].provideData| && offset <= at
  {
    var start, size, end := WithWritten(w.nodes, n, offset, data), Info(w.t, p).size, at + Info(w.t, p).size;
    && size > 0 && end <= offset + |data| && Boundary(Ports(w.t, n, Provide), end)
    && data[at - offset..at - offset + size] == Held(w.t, start, p)
    && Feedable(w.t, start, fed, p)
    && (forall q, r :: Feeds(w.t, w.nodes, n, offset, end, q, r) <==> Feeds(w.t, w.nodes, n, offset, at, q, r) || (q == p && r in Receivers(w.nodes, p)))
    && Receivers(start, p) == Receivers(w.nodes, p)
  }

  lemma RouteStep(w: World, n: nat, offset: nat, data: seq<byte>, fed: set<Pair>, at: nat)
    requires Writable(w, n, offset, data) && offset <= at < offset + |data| && Boundary(Ports(w.t, n, Provide), at)
    requires forall p, r :: (p, r) in fed <==> Feeds(w.t, w.nodes, n, offset, at, p, r)
    ensures PortAt(Ports(w.t, n, Provide), at).Some?
    ensures RoutesAt(w, n, offset, data, fed, at, Port(n, Provide, PortAt(Ports(w.t, n, Provide), at).value))
  {
    hide Keeps, WholePorts, TotalSize, PortAt, Boundary, WellFormed, Feeds, RoutesAt, Placed;
    KeptShape(w);
    PortsPlaced(w.t, n);
    RouteStarts(w, n, offset, data);
    PortAtBoundary(Ports(w.t, n, Provide), at, offset + |data|);
    var p := Port(n, Provide, PortAt(Ports(w.t, n, Provide), at).value);
    PlacedAt(Ports(w.t, n, Provide), p.id);
    assert Info(w.t, p) == Ports(w.t, n, Provide)[p.id];
    RouteStepAt(w, n, offset, data, fed, at, p);
  }

  lemma RouteStepAt(w: World, n: nat, offset: nat, data: seq<byte>, fed: set<Pair>, at: nat, p: Port)
    requires Writable(w, n, offset, data) && offset <= at == Info(w.t, p).offset
    requires IsPort(w.t, p) && p.node == n && p.side.Provide?
    requires Info(w.t, p).size > 0 && at + Info(w.t, p).size <= offset + |data| && Boundary(Ports(w.t, n, Provide), at + Info(w.t, p).size)
    requires forall p, r :: (p, r) in fed <==> Feeds(w.t, w.nodes, n, offset, at, p, r)
    ensures RoutesAt(w, n, offset, data, fed, at, p)
  {
    hide Keeps, WholePorts, TotalSize, Receivers, Boundary, WellFormed, Held, Feeds, WithWritten, Feedable, Info, Ports, IsPort;
    KeptShape(w);
    var end := at + Info(w.t, p).size;
    FeedsNext(w.t, w.nodes, n, offset, at, end, p);
    WrittenHeld(w.t, w.nodes, n, offset, data, p);
    WrittenReceivers(w.t, w.nodes, n, offset, data);
    assert Receivers(WithWritten(w.nodes, n, offset, data), p) == Receivers(w.nodes, p);
    StepFeedable(w, n, offset, data, fed, p);
  }

  lemma WrittenReceivers(t: Topology, nodes: Nodes, n: nat, offset: nat, data: seq<byte>)
    requires n in nodes && Shape(t, nodes) && offset + |data| <= |nodes[n].provideData|
    ensures forall p :: Receivers(WithWritten(nodes, n, offset, data), p) == Receivers(nodes, p)
    ensures Shape(t, WithWritten(nodes, n, offset, data))
  {
    hide TotalSize, Receivers, Held;
    ProvideDataFacts(t, nodes, n, WriteAt(nodes[n].provideData, offset, data));
  }

  /** A written port holds its part of the write. */
  lemma WrittenHeld(t: Topology, nodes: Nodes, n: nat, offset: nat, data: seq<byte>, p: Port)
    requires WellFormed(t) && Shape(t, nodes) && n in nodes && offset + |data| <= |nodes[n].provideData|
    requires IsPort(t, p) && p.node == n && p.side.Provide?
    requires offset <= Info(t, p).offset && Info(t, p).offset + Info(t, p).size <= offset + |data|
    ensures Held(t, WithWritten(nodes, n, offset, data), p) == data[Info(t, p).offset - offset..Info(t, p).offset - offset + Info(t, p).size]
  {
    hide Info, TotalSize, WellFormed, IsPort, Held, WriteAt, Part, WithWritten, DataOf, Shape;
    WrittenData(nodes, n, offset, data);
    HeldIsPart(t, WithWritten(nodes, n, offset, data), p);
    PartInside(nodes[n].provideData, offset, data, Info(t, p).offset, Info(t, p).size);
  }

  lemma WrittenData(nodes: Nodes, n: nat, offset: nat, data: seq<byte>)
    requires n in nodes && offset + |data| <= |nodes[n].provideData|
    ensures var d := WithWritten(nodes, n, offset, data); n in d && DataOf(d[n], Provide) == WriteAt(nodes[n].provideData, offset, data)
  {
    hide WriteAt;
  }

  lemma PartInside(data: seq<byte>, offset: nat, bs: seq<byte>, begin: nat, size: nat)
    requires offset + |bs| <= |data| && offset <= begin && begin + size <= offset + |bs|
    ensures Part(WriteAt(data, offset, bs), begin, size) == bs[begin - offset..begin - offset + size]
  {
  }

  lemma StepFeedable(w: World, n: nat, offset: nat, data: seq<byte>, fed: set<Pair>, p: Port)
    requires Writable(w, n, offset, data) && IsPort(w.t, p) && p.node == n && p.side.Provide? && offset <= Info(w.t, p).offset
    requires forall q, r :: (q, r) in fed <==> Feeds(w.t, w.nodes, n, offset, Info(w.t, p).offset, q, r)
    ensures Feedable(w.t, WithWritten(w.nodes, n, offset, data), fed, p)
  {
    hide Keeps, WholePorts, TotalSize, Receivers, Boundary, WellFormed, Held, WithWritten, Sig, IsPort, Info;
    KeptShape(w);
    WrittenReceivers(w.t, w.nodes, n, offset, data);
    NodeAttached(w, n, p);
    forall r | r in Receivers(w.nodes, p) ensures IsPort(w.t, r) && r.side.Require? && Sig(w.t, p) == Sig(w.t, r) {
      ReceiverSide(w, p, r);
    }
    forall q, r | (q, r) in fed ensures IsPort(w.t, r) && r !in Receivers(w.nodes, p) {
      NodeAttached(w, n, q);
      ReceiverSide(w, q, r);
      if r in Receivers(w.nodes, p) {
        ReceiverSide(w, p, r);
        KeptUnique(w);
        OneProvider(w.t, w.nodes, w.attached, p, q, r);
      }
    }
  }

  lemma NodeAttached(w: World, n: nat, p: Port)
    requires Keeps(w) && n in w.nodes && w.nodes[n].provideState.Connected? && n !in w.gatheredProvide
    requires IsPort(w.t, p) && p.node == n && p.side.Provide?
    ensures p in w.attached
  {
    hide Sig, Held, Receivers, IsPort, UniqueProvider, NotStartedUnused, GatheredFit, ReceiversCoherent, ReceiversValid, ReceiversExact, TotalSize, WellFormed, Shape;
  }

  lemma KeptUnique(w: World)
    requires Keeps(w)
    ensures ReceiversValid(w.t, w.nodes) && PortsOf(w.t, w.attached) && UniqueProvider(w.t, w.attached)
  {
    hide Sig, Held, Receivers, IsPort, UniqueProvider, StatesFit, NotStartedUnused, GatheredFit, ReceiversCoherent, ReceiversValid, ReceiversExact, TotalSize, WellFormed, Shape;
  }

  /** The loop done, everything is as a routed write leaves it, and all is kept. */
  lemma RouteEnds(w: World, now: World, n: nat, offset: nat, data: seq<byte>, fed: set<Pair>)
    requires Writable(w, n, offset, data) && now == w.(nodes := now.nodes)
    requires forall p, r :: (p, r) in fed <==> Feeds(w.t, w.nodes, n, offset, offset + |data|, p, r)
    requires Feeding(w.t, WithWritten(w.nodes, n, offset, data), now.nodes, fed)
    ensures DataRouted(w, now, n, offset, data) && Keeps(now)
  {
    hide Keeps, WholePorts, Feeding, Feeds;
    RoutedKeeps(w, now.nodes, n, offset, data, fed);
  }
}
