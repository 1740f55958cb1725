/** Connector lists and port data: what holds between a provider and its receivers. */
module RoutingData {
  import opened Bytes
  import opened Routing

  /** Connector tables and data areas have the sizes the definitions call for. */
  ghost predicate Shape(t: Topology, nodes: Nodes) {
    && nodes.Keys == t.Keys
    && forall n :: n in nodes ==>
      && |nodes[n].connectors| == |t[n].provide|
      && |nodes[n].provideData| == TotalSize(t[n].provide)
      && |nodes[n].requireData| == TotalSize(t[n].require)
  }

  /** The receivers of a provide port. */
  function Receivers(nodes: Nodes, p: Port): seq<Port> {
    if p.node in nodes && p.id < |nodes[p.node].connectors| then nodes[p.node].connectors[p.id] else []
  }

  function DataOf(node: Node, side: Side): seq<byte> {
    if side.Provide? then node.provideData else node.requireData
  }

  /** The bytes of a port. */
  function Held(t: Topology, nodes: Nodes, x: Port): seq<byte> {
    var begin, end := Info(t, x).offset, Info(t, x).offset + Info(t, x).size;
    if x.node in nodes && end <= |DataOf(nodes[x.node], x.side)| then DataOf(nodes[x.node], x.side)[begin..end] else []
  }

  /** Receivers are require ports of the same signature, each listed once. */
  ghost predicate ReceiversValid(t: Topology, nodes: Nodes) {
    forall p :: IsPort(t, p) && p.side.Provide? ==>
      && NoDup(Receivers(nodes, p))
      && forall r :: r in Receivers(nodes, p) ==> IsPort(t, r) && r.side.Require? && Sig(t, r) == Sig(t, p)
  }

  /** Attached receivers hold the bytes of their attached provider. */
  ghost predicate ReceiversCoherent(t: Topology, nodes: Nodes, attached: set<Port>) {
    forall p, r :: p in attached && p.side.Provide? && r in attached && r in Receivers(nodes, p)
      ==> Held(t, nodes, r) == Held(t, nodes, p)
  }

  ghost predicate PortsOf(t: Topology, attached: set<Port>) {
    forall x :: x in attached ==> IsPort(t, x)
  }

  /** A port's place in its node's data. */
  lemma HeldInside(t: Topology, nodes: Nodes, x: Port)
    requires WellFormed(t) && Shape(t, nodes) && IsPort(t, x)
    ensures x.node in nodes && Info(t, x).offset + Info(t, x).size <= |DataOf(nodes[x.node], x.side)|
    ensures |Held(t, nodes, x)| == Info(t, x).size
  {
    hide TotalSize, Placed, WellFormed;
    PortsApart(t, x, x);
  }

  function WithData(node: Node, side: Side, data: seq<byte>): Node {
    if side.Provide? then node.(provideData := data) else node.(requireData := data)
  }

  /** Storing the bytes of one port. */
  function WithHeld(t: Topology, nodes: Nodes, x: Port, bs: seq<byte>): Nodes
    requires x.node in nodes && Info(t, x).offset + |bs| <= |DataOf(nodes[x.node], x.side)|
  {
    nodes[x.node := WithData(nodes[x.node], x.side, WriteAt(DataOf(nodes[x.node], x.side), Info(t, x).offset, bs))]
  }

  lemma SliceWritten(data: seq<byte>, p: nat, bs: seq<byte>, begin: nat, end: nat)
    requires p + |bs| <= |data| && begin <= end <= |data|
    ensures begin == p && end == p + |bs| ==> WriteAt(data, p, bs)[begin..end] == bs
    ensures end <= p || p + |bs| <= begin ==> WriteAt(data, p, bs)[begin..end] == data[begin..end]
  {
  }

  /** What `Held` reads, with the data and the place given. */
  function Part(data: seq<byte>, begin: nat, size: nat): seq<byte> {
    if begin + size <= |data| then data[begin..begin + size] else []
  }

  lemma HeldIsPart(t: Topology, nodes: Nodes, x: Port)
    requires x.node in nodes
    ensures Held(t, nodes, x) == Part(DataOf(nodes[x.node], x.side), Info(t, x).offset, Info(t, x).size)
  {
    hide Info;
  }

  lemma PartWritten(data: seq<byte>, p: nat, bs: seq<byte>, begin: nat, size: nat)
    requires p + |bs| <= |data|
    ensures begin == p && size == |bs| ==> Part(WriteAt(data, p, bs), begin, size) == bs
    ensures begin + size <= p || p + |bs| <= begin ==> Part(WriteAt(data, p, bs), begin, size) == Part(data, begin, size)
  {
    if begin + size <= |data| {
      SliceWritten(data, p, bs, begin, begin + size);
    }
  }

  lemma DataAfter(t: Topology, nodes: Nodes, x: Port, bs: seq<byte>, n: nat, side: Side)
    requires x.node in nodes && Info(t, x).offset + |bs| <= |DataOf(nodes[x.node], x.side)| && n in nodes
    ensures var d := WithHeld(t, nodes, x, bs);
            n in d && DataOf(d[n], side) == if n == x.node && side == x.side then WriteAt(DataOf(nodes[n], side), Info(t, x).offset, bs)
                                            else DataOf(nodes[n], side)
  {
    hide Info, WriteAt;
  }

  /** It changes that port and no other. */
  lemma HeldAfter(t: Topology, nodes: Nodes, x: Port, bs: seq<byte>, y: Port)
    requires WellFormed(t) && Shape(t, nodes) && IsPort(t, x) && IsPort(t, y) && |bs| == Info(t, x).size
    requires x.node in nodes && Info(t, x).offset + |bs| <= |DataOf(nodes[x.node], x.side)|
    ensures Held(t, WithHeld(t, nodes, x, bs), y) == if y == x then bs else Held(t, nodes, y)
  {
    HeldInside(t, nodes, y);
    hide Info, WellFormed, Shape, TotalSize, Held, DataOf, WithHeld, Part, WriteAt, IsPort;
    var d := WithHeld(t, nodes, x, bs);
    DataAfter(t, nodes, x, bs, y.node, y.side);
    HeldIsPart(t, nodes, y);
    HeldIsPart(t, d, y);
    if x.node == y.node && x.side == y.side {
      PortsApart(t, x, y);
      PartWritten(DataOf(nodes[x.node], x.side), Info(t, x).offset, bs, Info(t, y).offset, Info(t, y).size);
      assert x == y || x.id != y.id;
    }
  }

  lemma ShapeAfter(t: Topology, nodes: Nodes, x: Port, bs: seq<byte>)
    requires Shape(t, nodes) && x.node in nodes && Info(t, x).offset + |bs| <= |DataOf(nodes[x.node], x.side)|
    ensures Shape(t, WithHeld(t, nodes, x, bs))
    ensures forall p :: Receivers(WithHeld(t, nodes, x, bs), p) == Receivers(nodes, p)
  {
    hide TotalSize, Info;
  }

  // ---------- delivering to receivers ----------

  /** A new receiver at the end of a provider's list. */
  function WithReceiver(nodes: Nodes, p: Port, r: Port): Nodes
    requires p.node in nodes && p.id < |nodes[p.node].connectors|
  {
    var node := nodes[p.node];
    nodes[p.node := node.(connectors := node.connectors[p.id := node.connectors[p.id] + [r]])]
  }

  lemma ReceiversAfter(nodes: Nodes, p: Port, r: Port, q: Port)
    requires p.node in nodes && p.id < |nodes[p.node].connectors| && p.side.Provide? && q.side.Provide?
    ensures Receivers(WithReceiver(nodes, p, r), q) == if q == p then Receivers(nodes, p) + [r] else Receivers(nodes, q)
  {
  }

  lemma HeldWithReceiver(t: Topology, nodes: Nodes, p: Port, r: Port, x: Port)
    requires p.node in nodes && p.id < |nodes[p.node].connectors|
    ensures Held(t, WithReceiver(nodes, p, r), x) == Held(t, nodes, x)
  {
    hide Info;
  }

  /** A receiver of an attached provider has no other attached provider. */
  lemma OneProvider(t: Topology, nodes: Nodes, attached: set<Port>, p: Port, q: Port, r: Port)
    requires ReceiversValid(t, nodes) && PortsOf(t, attached) && UniqueProvider(t, attached)
    requires p in attached && p.side.Provide? && q in attached && q.side.Provide?
    requires r in Receivers(nodes, q) && Sig(t, r) == Sig(t, p)
    ensures q == p
  {
    hide Sig, Receivers;
  }

  /** Inserting a receiver and giving it the provider's bytes. */
  function Joined(t: Topology, nodes: Nodes, p: Port, r: Port): Nodes
    requires p.node in nodes && p.id < |nodes[p.node].connectors|
    requires r.node in nodes && Info(t, r).offset + |Held(t, nodes, p)| <= |DataOf(nodes[r.node], r.side)|
  {
    WithHeld(t, WithReceiver(nodes, p, r), r, Held(t, nodes, p))
  }

  lemma JoinedFacts(t: Topology, nodes: Nodes, p: Port, r: Port)
    requires WellFormed(t) && Shape(t, nodes)
    requires IsPort(t, p) && IsPort(t, r) && p.side.Provide? && r.side.Require? && Sig(t, p) == Sig(t, r)
    ensures p.node in nodes && p.id < |nodes[p.node].connectors| && |Held(t, nodes, p)| == Info(t, p).size == Info(t, r).size
    ensures r.node in nodes && Info(t, r).offset + |Held(t, nodes, p)| <= |DataOf(nodes[r.node], r.side)|
    ensures var d := Joined(t, nodes, p, r);
            && Shape(t, d)
            && (forall q: Port :: q.side.Provide? ==> Receivers(d, q) == if q == p then Receivers(nodes, p) + [r] else Receivers(nodes, q))
            && (forall x :: IsPort(t, x) ==> Held(t, d, x) == if x == r then Held(t, nodes, p) else Held(t, nodes, x))
  {
    JoinedFits(t, nodes, p, r);
    hide Held, Placed, WellFormed, Shape, WithHeld, WithReceiver, Receivers, Info, IsPort;
    var w := WithReceiver(nodes, p, r);
    ShapeAfter(t, w, r, Held(t, nodes, p));
    forall q: Port | q.side.Provide?
      ensures Receivers(Joined(t, nodes, p, r), q) == if q == p then Receivers(nodes, p) + [r] else Receivers(nodes, q)
    {
      ReceiversAfter(nodes, p, r, q);
    }
    forall x | IsPort(t, x)
      ensures Held(t, Joined(t, nodes, p, r), x) == if x == r then Held(t, nodes, p) else Held(t, nodes, x)
    {
      HeldAfter(t, w, r, Held(t, nodes, p), x);
      HeldWithReceiver(t, nodes, p, r, x);
    }
  }

  lemma JoinedFits(t: Topology, nodes: Nodes, p: Port, r: Port)
    requires WellFormed(t) && Shape(t, nodes)
    requires IsPort(t, p) && IsPort(t, r) && p.side.Provide? && r.side.Require? && Sig(t, p) == Sig(t, r)
    ensures p.node in nodes && p.id < |nodes[p.node].connectors| && |Held(t, nodes, p)| == Info(t, p).size == Info(t, r).size
    ensures r.node in nodes && Info(t, r).offset + |Held(t, nodes, p)| <= |DataOf(nodes[r.node], r.side)|
    ensures var w := WithReceiver(nodes, p, r);
            Shape(t, w) && r.node in w && Info(t, r).offset + |Held(t, nodes, p)| <= |DataOf(w[r.node], r.side)|
  {
    HeldInside(t, nodes, p);
    HeldInside(t, nodes, r);
    hide Held, TotalSize, Placed, WellFormed, Info;
    SizesEqual(t, p, r);
  }

  lemma SizesEqual(t: Topology, p: Port, r: Port)
    requires WellFormed(t) && IsPort(t, p) && IsPort(t, r) && Sig(t, p) == Sig(t, r)
    ensures Info(t, p).size == Info(t, r).size
  {
  }

  /** One more receiver keeps receivers valid. */
  lemma ValidExtended(t: Topology, nodes: Nodes, d: Nodes, p: Port, r: Port)
    requires ReceiversValid(t, nodes) && r !in Receivers(nodes, p)
    requires IsPort(t, r) && r.side.Require? && Sig(t, r) == Sig(t, p) && IsPort(t, p) && p.side.Provide?
    requires forall q: Port :: q.side.Provide? ==> Receivers(d, q) == if q == p then Receivers(nodes, p) + [r] else Receivers(nodes, q)
    ensures ReceiversValid(t, d)
  {
    hide Receivers, Sig, IsPort;
    NoDupMore(Receivers(nodes, p), r);
  }

  /** One more receiver, with the provider's bytes, keeps receivers coherent. */
  lemma CoherentExtended(t: Topology, nodes: Nodes, d: Nodes, attached: set<Port>, p: Port, r: Port)
    requires ReceiversValid(t, nodes) && ReceiversCoherent(t, nodes, attached)
    requires PortsOf(t, attached) && UniqueProvider(t, attached) && Couple(t, attached, p, r)
    requires forall q: Port :: q.side.Provide? ==> Receivers(d, q) == if q == p then Receivers(nodes, p) + [r] else Receivers(nodes, q)
    requires forall x :: IsPort(t, x) ==> Held(t, d, x) == if x == r then Held(t, nodes, p) else Held(t, nodes, x)
    ensures ReceiversCoherent(t, d, attached)
  {
    hide Held, Receivers, Sig, IsPort, ReceiversValid, UniqueProvider;
    forall q, x | q in attached && q.side.Provide? && x in attached && x in Receivers(d, q)
      ensures Held(t, d, x) == Held(t, d, q)
    {
      if x == r && q != p {
        OneProvider(t, nodes, attached, p, q, r);
      }
    }
  }

  // ---------- a batch of deliveries ----------

  /** The receivers of every port: those of `start`, and those of the pairs in `done`. */
  ghost predicate Delivered(t: Topology, start: Nodes, nodes: Nodes, done: set<Pair>) {
    forall p: Port, r: Port :: p.side.Provide? ==>
      (r in Receivers(nodes, p) <==> r in Receivers(start, p) || (p, r) in done)
  }

  /** A node with what deliveries change out of sight. */
  function Undelivered(node: Node): Node {
    node.(connectors := [], requireData := [])
  }

  ghost predicate SameUndelivered(a: Nodes, b: Nodes) {
    a.Keys == b.Keys && forall n :: n in a ==> Undelivered(a[n]) == Undelivered(b[n])
  }

  /** The require ports of the couples in `done`. */
  ghost function Takers(done: set<Pair>): set<Port> {
    set pair | pair in done :: pair.1
  }

  /** Require ports outside `taken` hold what they held. */
  ghost predicate OthersHold(t: Topology, a: Nodes, b: Nodes, taken: set<Port>) {
    forall x :: IsPort(t, x) && x.side.Require? && x !in taken ==> Held(t, b, x) == Held(t, a, x)
  }

  /** What a batch of deliveries that began at `start` has kept. */
  ghost predicate Delivering(t: Topology, attached: set<Port>, start: Nodes, nodes: Nodes, done: set<Pair>) {
    && Shape(t, nodes) && ReceiversValid(t, nodes) && ReceiversCoherent(t, nodes, attached)
    && Delivered(t, start, nodes, done) && SameUndelivered(start, nodes) && OthersHold(t, start, nodes, Takers(done))
  }

  lemma MoreTakers(done: set<Pair>, p: Port, r: Port)
    ensures Takers(done + {(p, r)}) == Takers(done) + {r}
  {
    assert forall x :: x in Takers(done) ==> exists q :: (q, x) in done;
    assert (p, r) in done + {(p, r)};
    forall pair | pair in done ensures pair.1 in Takers(done + {(p, r)}) {
      assert pair in done + {(p, r)};
    }
  }

  lemma DeliveringStarts(t: Topology, attached: set<Port>, nodes: Nodes)
    requires Shape(t, nodes) && ReceiversValid(t, nodes) && ReceiversCoherent(t, nodes, attached)
    ensures Delivering(t, attached, nodes, nodes, {})
  {
  }

  lemma JoinedUndelivered(t: Topology, nodes: Nodes, p: Port, r: Port)
    requires r.side.Require?
    requires p.node in nodes && p.id < |nodes[p.node].connectors|
    requires r.node in nodes && Info(t, r).offset + |Held(t, nodes, p)| <= |DataOf(nodes[r.node], r.side)|
    ensures SameUndelivered(nodes, Joined(t, nodes, p, r))
  {
    hide Held, Info;
  }

  /** One more couple delivered. */
  lemma JoinedDelivering(t: Topology, attached: set<Port>, start: Nodes, nodes: Nodes, done: set<Pair>, p: Port, r: Port)
    requires WellFormed(t) && PortsOf(t, attached) && UniqueProvider(t, attached)
    requires Delivering(t, attached, start, nodes, done) && Couple(t, attached, p, r)
    requires r !in Receivers(start, p) && (p, r) !in done
    ensures p.node in nodes && p.id < |nodes[p.node].connectors|
    ensures r.node in nodes && Info(t, r).offset + |Held(t, nodes, p)| <= |DataOf(nodes[r.node], r.side)|
    ensures Delivering(t, attached, start, Joined(t, nodes, p, r), done + {(p, r)})
  {
    hide WellFormed, UniqueProvider, ReceiversValid, ReceiversCoherent, SameUndelivered, Receivers, Held, Joined, Shape, Sig, Info, IsPort, Takers;
    JoinedFacts(t, nodes, p, r);
    MoreTakers(done, p, r);
    var d := Joined(t, nodes, p, r);
    ValidExtended(t, nodes, d, p, r);
    CoherentExtended(t, nodes, d, attached, p, r);
    JoinedUndelivered(t, nodes, p, r);
    SameUndeliveredChain(start, nodes, d);
  }

  lemma SameUndeliveredChain(a: Nodes, b: Nodes, c: Nodes)
    requires SameUndelivered(a, b) && SameUndelivered(b, c)
    ensures SameUndelivered(a, c)
  {
  }

  /** The partners of a port, as a set and without duplicates. */
  lemma PartnersExact(pairs: seq<Pair>, x: Port)
    requires NoDup(pairs) && Sided(pairs)
    ensures NoDup(Partners(pairs, x))
    ensures x.side.Provide? ==> forall y :: y in Partners(pairs, x) <==> (x, y) in pairs
    ensures x.side.Require? ==> forall y :: y in Partners(pairs, x) <==> (y, x) in pairs
  {
    hide Partners, NoDup;
    PartnersNoDup(pairs, x);
    forall y
      ensures x.side.Provide? ==> (y in Partners(pairs, x) <==> (x, y) in pairs)
      ensures x.side.Require? ==> (y in Partners(pairs, x) <==> (y, x) in pairs)
    {
      if y in Partners(pairs, x) {
        PartnersSound(pairs, x, y);
      }
      if x.side.Provide? && (x, y) in pairs {
        PartnersPairs(pairs, x, y);
      }
      if x.side.Require? && (y, x) in pairs {
        PartnersPairs(pairs, y, x);
      }
    }
  }

  /** With unique providers a require port has one partner at most. */
  lemma OnePartner(t: Topology, attached: set<Port>, pairs: seq<Pair>, r: Port)
    requires NoDup(pairs) && Sided(pairs) && r.side.Require? && UniqueProvider(t, attached)
    requires forall p, q :: (p, q) in pairs ==> Couple(t, attached, p, q)
    ensures |Partners(pairs, r)| <= 1
  {
    hide Partners, Sig;
    PartnersExact(pairs, r);
    AtMostOne(Partners(pairs, r));
  }

  lemma TwoDiffer(xs: seq<Port>)
    requires |xs| > 1 && NoDup(xs)
    ensures exists x, y :: x in xs && y in xs && x != y
  {
    assert xs[0] in xs && xs[1] in xs;
  }

  lemma AtMostOne(xs: seq<Port>)
    requires NoDup(xs) && forall x, y :: x in xs && y in xs ==> x == y
    ensures |xs| <= 1
  {
    hide NoDup;
    if |xs| > 1 {
      TwoDiffer(xs);
    }
  }

  lemma PairsExactSided(t: Topology, small: set<Port>, large: set<Port>, pairs: seq<Pair>)
    requires PairsExact(t, small, large, pairs)
    ensures Sided(pairs)
  {
    hide Sig;
    forall i | 0 <= i < |pairs| ensures pairs[i].0.side.Provide? && pairs[i].1.side.Require? {
      var (p, r) := pairs[i];
      assert (p, r) in pairs;
    }
  }

  /** The first `k` ports of one side of a node. */
  ghost function FirstPorts(n: nat, side: Side, k: nat): set<Port> {
    set i | 0 <= i < k :: Port(n, side, i)
  }

  /** Recorded couples, none of which has been delivered at `start`. */
  ghost predicate NewCouples(t: Topology, attached: set<Port>, start: Nodes, pairs: seq<Pair>) {
    && NoDup(pairs) && Sided(pairs) && PortsOf(t, attached)
    && forall p, r :: (p, r) in pairs ==> Couple(t, attached, p, r) && r !in Receivers(start, p)
  }
}
