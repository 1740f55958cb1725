/**
 * The server's routing tables as values, and what ties them together: which ports are
 * attached, which pairs a batch of changes records, which receivers a provide port has, and
 * which bytes they hold.
 */
module Routing {
  import opened Common
  import opened Bytes

  type Signature = seq<byte>

  datatype Side = Provide | Require

  /** The port instance number `id` on one side of a node. */
  datatype Port = Port(node: nat, side: Side, id: nat)

  type Pair = (Port, Port)

  datatype PortInfo = PortInfo(signature: Signature, size: nat, offset: nat)

  datatype NodeInfo = NodeInfo(provide: seq<PortInfo>, require: seq<PortInfo>)

  /** The nodes of a run, with the ports their definitions declare. */
  type Topology = map<nat, NodeInfo>

  /** Signed entries of a change table: connected partners, or disconnected ones. */
  datatype Change = Change(count: int, ports: seq<Port>)

  const NO_CHANGE := Change(0, [])

  datatype DataState =
    | Init | WaitingFileInfo | WaitingForFileData | WaitingForFileOpenRequest | Connected | Disconnected

  /** The part of apx_nodeInstance_t and apx_nodeData_t that routing uses. */
  datatype Node = Node(
    provideState: DataState,
    requireState: DataState,
    connectors: seq<seq<Port>>,
    provideChanges: Option<seq<Change>>,
    requireChanges: Option<seq<Change>>,
    provideData: seq<byte>,
    requireData: seq<byte>)

  type Nodes = map<nat, Node>

  /** apx_portSignatureMapEntry_t */
  datatype MapEntry = MapEntry(requirePorts: seq<Port>, providePorts: seq<Port>) {
    function Of(side: Side): seq<Port> {
      if side.Provide? then providePorts else requirePorts
    }
  }

  type SignatureMap = map<Signature, MapEntry>

  // ---------- ports ----------

  function Ports(t: Topology, n: nat, side: Side): seq<PortInfo> {
    if n !in t then [] else if side.Provide? then t[n].provide else t[n].require
  }

  predicate IsPort(t: Topology, x: Port) {
    x.id < |Ports(t, x.node, x.side)|
  }

  function Info(t: Topology, x: Port): PortInfo {
    if IsPort(t, x) then Ports(t, x.node, x.side)[x.id] else PortInfo([], 0, 0)
  }

  function Sig(t: Topology, x: Port): Signature {
    Info(t, x).signature
  }

  function TotalSize(ports: seq<PortInfo>): nat {
    if |ports| == 0 then 0 else TotalSize(ports[..|ports| - 1]) + ports[|ports| - 1].size
  }

  /** Offsets are running sums of the sizes before them (apx/src/node_manager.c). */
  ghost predicate Placed(ports: seq<PortInfo>) {
    forall i :: 0 <= i < |ports| ==> ports[i].size > 0 && ports[i].offset == TotalSize(ports[..i])
  }

  /** Ports of equal signature have equal sizes, as `Signatures.EqualSignatureEqualSize` shows for reference-free ports without dynamic data. */
  ghost predicate WellFormed(t: Topology) {
    && (forall n :: n in t ==> Placed(t[n].provide) && Placed(t[n].require))
    && (forall x, y :: IsPort(t, x) && IsPort(t, y) && Sig(t, x) == Sig(t, y) ==> Info(t, x).size == Info(t, y).size)
  }

  lemma {:induction false} TotalSizeGrows(ports: seq<PortInfo>, i: nat, j: nat)
    requires i < j <= |ports|
    ensures TotalSize(ports[..i]) + ports[i].size <= TotalSize(ports[..j])
    decreases j
  {
    assert ports[..j][..j - 1] == ports[..j - 1];
    if i < j - 1 {
      TotalSizeGrows(ports, i, j - 1);
    }
  }

  /** Every port lies inside its node's data, and apart from the other ports of its side. */
  lemma PortsApart(t: Topology, x: Port, y: Port)
    requires WellFormed(t) && IsPort(t, x) && IsPort(t, y) && x.node == y.node && x.side == y.side
    ensures Info(t, x).offset + Info(t, x).size <= TotalSize(Ports(t, x.node, x.side))
    ensures x.id < y.id ==> Info(t, x).offset + Info(t, x).size <= Info(t, y).offset
    ensures y.id < x.id ==> Info(t, y).offset + Info(t, y).size <= Info(t, x).offset
  {
    var ports := Ports(t, x.node, x.side);
    assert Placed(ports);
    assert ports[..|ports|] == ports;
    TotalSizeGrows(ports, x.id, |ports|);
    if x.id < y.id {
      TotalSizeGrows(ports, x.id, y.id);
    } else if y.id < x.id {
      TotalSizeGrows(ports, y.id, x.id);
    }
  }

  // ---------- attached ports ----------

  ghost predicate NoDup<T>(xs: seq<T>) {
    forall i, j :: 0 <= i < j < |xs| ==> xs[i] != xs[j]
  }

  /** A provide port and a require port of one signature, both attached. */
  ghost predicate Couple(t: Topology, attached: set<Port>, p: Port, r: Port) {
    p in attached && r in attached && p.side.Provide? && r.side.Require? && Sig(t, p) == Sig(t, r)
  }

  /** One list of a map entry holds exactly the attached ports of its signature and side, each once. */
  ghost predicate ListExact(t: Topology, xs: seq<Port>, s: Signature, side: Side, attached: set<Port>) {
    && NoDup(xs)
    && forall x :: x in xs <==> x in attached && x.side == side && Sig(t, x) == s
  }

  /**
   * Signature map exactness: every entry's two lists hold exactly the attached ports of its
   * signature, and there is an entry for a signature if and only if one of them is not empty.
   */
  ghost predicate MapExact(t: Topology, m: SignatureMap, attached: set<Port>) {
    && (forall x :: x in attached ==> IsPort(t, x) && Sig(t, x) in m)
    && (forall s :: s in m ==>
      && ListExact(t, m[s].providePorts, s, Provide, attached)
      && ListExact(t, m[s].requirePorts, s, Require, attached)
      && !(m[s].providePorts == [] && m[s].requirePorts == []))
  }

  /** No two attached providers share a signature. */
  ghost predicate UniqueProvider(t: Topology, attached: set<Port>) {
    forall p, q :: p in attached && q in attached && p.side.Provide? && q.side.Provide? && Sig(t, p) == Sig(t, q) ==> p == q
  }

  // ---------- recorded pairs ----------

  /** The ports paired with `x`, in the order in which they were recorded. */
  function Partners(pairs: seq<Pair>, x: Port): seq<Port> {
    if |pairs| == 0 then [] else
      var (p, r) := pairs[|pairs| - 1];
      Partners(pairs[..|pairs| - 1], x) + if p == x then [r] else if r == x then [p] else []
  }

  /** The pairs recorded when `x` meets `others`, provide port first. */
  function PairsOf(x: Port, others: seq<Port>): (r: seq<Pair>)
    ensures |r| == |others|
  {
    seq(|others|, i requires 0 <= i < |others| => if x.side.Provide? then (x, others[i]) else (others[i], x))
  }

  /** A change entry that records `pairs` for `x`. */
  ghost predicate EntryRecords(c: Change, pairs: seq<Pair>, sign: int, x: Port) {
    c.ports == Partners(pairs, x) && c.count == sign * |c.ports|
  }

  ghost predicate TableRecords(table: Option<seq<Change>>, count: nat, n: nat, side: Side, pairs: seq<Pair>, sign: int) {
    match table
    case None => forall i :: 0 <= i < count ==> Partners(pairs, Port(n, side, i)) == []
    case Some(es) => |es| == count && forall i :: 0 <= i < count ==> EntryRecords(es[i], pairs, sign, Port(n, side, i))
  }

  function Table(node: Node, side: Side): Option<seq<Change>> {
    if side.Provide? then node.provideChanges else node.requireChanges
  }

  /**
   * The change tables of all nodes record `pairs`, on both sides, and nothing else; every node
   * with a table is on the list of modified nodes.
   */
  ghost predicate Records(t: Topology, nodes: Nodes, modified: seq<nat>, pairs: seq<Pair>, sign: int) {
    && (forall n, side :: n in nodes ==>
      && TableRecords(Table(nodes[n], side), |Ports(t, n, side)|, n, side, pairs, sign)
      && (Table(nodes[n], side).Some? ==> n in modified))
  }

  /** Exactly the couples of `large` that are not couples of `small`, each once. */
  ghost predicate PairsExact(t: Topology, small: set<Port>, large: set<Port>, pairs: seq<Pair>) {
    && NoDup(pairs)
    && forall p, r :: (p, r) in pairs <==> Couple(t, large, p, r) && !Couple(t, small, p, r)
  }

  lemma PartnersMore(pairs: seq<Pair>, p: Port, r: Port, x: Port)
    ensures Partners(pairs + [(p, r)], x) == Partners(pairs, x) + if p == x then [r] else if r == x then [p] else []
  {
    assert (pairs + [(p, r)])[..|pairs|] == pairs;
  }

  lemma {:induction false} PartnersPairs(pairs: seq<Pair>, p: Port, r: Port)
    requires p != r
    ensures (p, r) in pairs ==> r in Partners(pairs, p) && p in Partners(pairs, r)
    decreases |pairs|
  {
    if |pairs| > 0 {
      PartnersPairs(pairs[..|pairs| - 1], p, r);
      assert pairs == pairs[..|pairs| - 1] + [pairs[|pairs| - 1]];
    }
  }

  /** The partners of a port are those it is paired with. */
  lemma {:induction false} PartnersSound(pairs: seq<Pair>, x: Port, y: Port)
    requires y in Partners(pairs, x)
    ensures (x, y) in pairs || (y, x) in pairs
    decreases |pairs|
  {
    if |pairs| > 0 {
      var rest := pairs[..|pairs| - 1];
      assert pairs == rest + [pairs[|pairs| - 1]];
      if y in Partners(rest, x) {
        PartnersSound(rest, x, y);
      } else {
        var (p, r) := pairs[|pairs| - 1];
        assert (p, r) in pairs && y == if p == x then r else p;
      }
    }
  }

  /** Pairs with a provide port in front. */
  ghost predicate Sided(pairs: seq<Pair>) {
    forall i :: 0 <= i < |pairs| ==> pairs[i].0.side.Provide? && pairs[i].1.side.Require?
  }

  lemma {:induction false} PartnersNoDup(pairs: seq<Pair>, x: Port)
    requires NoDup(pairs) && Sided(pairs)
    ensures NoDup(Partners(pairs, x))
    decreases |pairs|
  {
    if |pairs| > 0 {
      var rest := pairs[..|pairs| - 1];
      var (p, r) := pairs[|pairs| - 1];
      PartnersNoDup(rest, x);
      if p == x {
        NewPartner(rest, p, r, x, r);
        NoDupMore(Partners(rest, x), r);
      } else if r == x {
        NewPartner(rest, p, r, x, p);
        NoDupMore(Partners(rest, x), p);
      }
    }
  }

  lemma NewPartner(rest: seq<Pair>, p: Port, r: Port, x: Port, y: Port)
    requires Sided(rest) && p.side.Provide? && r.side.Require? && (p, r) !in rest
    requires (x == p && y == r) || (x == r && y == p)
    ensures y !in Partners(rest, x)
  {
    if y in Partners(rest, x) {
      PartnersSound(rest, x, y);
    }
  }

  lemma NoDupMore<T>(xs: seq<T>, x: T)
    requires NoDup(xs) && x !in xs
    ensures NoDup(xs + [x])
  {
  }

  function Opposite(side: Side): Side {
    if side.Provide? then Require else Provide
  }

  lemma PairsOfMembers(x: Port, others: seq<Port>, p: Port, r: Port)
    requires forall y :: y in others ==> y.side == Opposite(x.side)
    ensures (p, r) in PairsOf(x, others) <==> (p == x && x.side.Provide? && r in others) || (r == x && x.side.Require? && p in others)
  {
    var pairs := PairsOf(x, others);
    if (p == x && x.side.Provide? && r in others) {
      var i :| 0 <= i < |others| && others[i] == r;
      assert pairs[i] == (p, r);
    }
    if (r == x && x.side.Require? && p in others) {
      var i :| 0 <= i < |others| && others[i] == p;
      assert pairs[i] == (p, r);
    }
  }

  lemma PairsOfNoDup(x: Port, others: seq<Port>)
    requires NoDup(others)
    ensures NoDup(PairsOf(x, others))
  {
  }

  lemma NoDupJoin<T>(xs: seq<T>, ys: seq<T>)
    requires NoDup(xs) && NoDup(ys) && forall x :: x in xs ==> x !in ys
    ensures NoDup(xs + ys)
  {
    forall i, j | 0 <= i < j < |xs + ys| ensures (xs + ys)[i] != (xs + ys)[j] {
      if i < |xs| <= j {
        assert xs[i] in xs && ys[j - |xs|] in ys;
      }
    }
  }

  /** Recording the couples of a port that is attached to the ports of `large`. */
  lemma AttachPairs(t: Topology, small: set<Port>, large: set<Port>, pairs: seq<Pair>, x: Port, others: seq<Port>)
    requires PairsExact(t, small, large, pairs) && small <= large && x !in large
    requires ListExact(t, others, Sig(t, x), Opposite(x.side), large)
    ensures PairsExact(t, small, large + {x}, pairs + PairsOf(x, others))
  {
    hide Sig;
    var more := PairsOf(x, others);
    PairsOfNoDup(x, others);
    forall p, r
      ensures (p, r) in more <==> Couple(t, large + {x}, p, r) && !Couple(t, large, p, r)
    {
      PairsOfMembers(x, others, p, r);
    }
    NoDupJoin(pairs, more);
  }

  /** Recording the couples of a port that is detached from the ports of `small`. */
  lemma DetachPairs(t: Topology, small: set<Port>, large: set<Port>, pairs: seq<Pair>, x: Port, others: seq<Port>)
    requires PairsExact(t, small, large, pairs) && small <= large && x in small
    requires ListExact(t, others, Sig(t, x), Opposite(x.side), small)
    ensures PairsExact(t, small - {x}, large, pairs + PairsOf(x, others))
  {
    hide Sig;
    var more := PairsOf(x, others);
    PairsOfNoDup(x, others);
    forall p, r
      ensures (p, r) in more <==> Couple(t, small, p, r) && !Couple(t, small - {x}, p, r)
    {
      PairsOfMembers(x, others, p, r);
    }
    NoDupJoin(pairs, more);
  }

  // ---------- attaching and detaching in the signature map ----------

  const NO_ENTRY := MapEntry([], [])

  function EntryOf(m: SignatureMap, s: Signature): MapEntry {
    if s in m then m[s] else NO_ENTRY
  }

  function WithPort(e: MapEntry, x: Port): MapEntry {
    if x.side.Provide? then e.(providePorts := e.providePorts + [x]) else e.(requirePorts := e.requirePorts + [x])
  }

  /** adt_list_remove */
  function Without(xs: seq<Port>, x: Port): seq<Port> {
    if |xs| == 0 then [] else if xs[0] == x then xs[1..] else [xs[0]] + Without(xs[1..], x)
  }

  function WithoutPort(e: MapEntry, x: Port): MapEntry {
    if x.side.Provide? then e.(providePorts := Without(e.providePorts, x)) else e.(requirePorts := Without(e.requirePorts, x))
  }

  lemma {:induction false} WithoutMembers(xs: seq<Port>, x: Port)
    requires NoDup(xs)
    ensures NoDup(Without(xs, x))
    ensures forall y :: y in Without(xs, x) <==> y in xs && y != x
  {
    if |xs| > 0 {
      var tail := xs[1..];
      assert xs == [xs[0]] + tail && xs[0] !in tail;
      WithoutMembers(tail, x);
      if xs[0] != x {
        NoDupFront(xs[0], Without(tail, x));
      }
    }
  }

  lemma NoDupFront<T>(x: T, xs: seq<T>)
    requires NoDup(xs) && x !in xs
    ensures NoDup([x] + xs)
  {
  }

  /** The entry of any signature, present or not. */
  lemma EntryExact(t: Topology, m: SignatureMap, attached: set<Port>, s: Signature)
    requires MapExact(t, m, attached)
    ensures ListExact(t, EntryOf(m, s).providePorts, s, Provide, attached)
    ensures ListExact(t, EntryOf(m, s).requirePorts, s, Require, attached)
  {
    hide Sig;
  }

  lemma ListAttached(t: Topology, xs: seq<Port>, s: Signature, side: Side, attached: set<Port>, x: Port)
    requires ListExact(t, xs, s, side, attached) && x !in attached
    ensures x.side == side && Sig(t, x) == s ==> ListExact(t, xs + [x], s, side, attached + {x})
    ensures !(x.side == side && Sig(t, x) == s) ==> ListExact(t, xs, s, side, attached + {x})
  {
    hide Sig;
    NoDupMore(xs, x);
  }

  lemma ListDetached(t: Topology, xs: seq<Port>, s: Signature, side: Side, attached: set<Port>, x: Port)
    requires ListExact(t, xs, s, side, attached)
    ensures x.side == side && Sig(t, x) == s ==> ListExact(t, Without(xs, x), s, side, attached - {x})
    ensures !(x.side == side && Sig(t, x) == s) ==> ListExact(t, xs, s, side, attached - {x})
  {
    hide Sig;
    WithoutMembers(xs, x);
  }

  lemma MapAttached(t: Topology, m: SignatureMap, attached: set<Port>, x: Port)
    requires MapExact(t, m, attached) && IsPort(t, x) && x !in attached
    ensures MapExact(t, m[Sig(t, x) := WithPort(EntryOf(m, Sig(t, x)), x)], attached + {x})
  {
    hide Sig, ListExact;
    var m1 := m[Sig(t, x) := WithPort(EntryOf(m, Sig(t, x)), x)];
    EntryExact(t, m, attached, Sig(t, x));
    forall s | s in m1
      ensures ListExact(t, m1[s].providePorts, s, Provide, attached + {x})
      ensures ListExact(t, m1[s].requirePorts, s, Require, attached + {x})
    {
      ListAttached(t, EntryOf(m, s).providePorts, s, Provide, attached, x);
      ListAttached(t, EntryOf(m, s).requirePorts, s, Require, attached, x);
    }
  }

  /** The map after a port was removed from its entry, and the entry too if it became empty. */
  function MapWithout(t: Topology, m: SignatureMap, x: Port): SignatureMap {
    var e := WithoutPort(EntryOf(m, Sig(t, x)), x);
    if e == NO_ENTRY then m - {Sig(t, x)} else m[Sig(t, x) := e]
  }

  lemma MapDetached(t: Topology, m: SignatureMap, attached: set<Port>, x: Port)
    requires MapExact(t, m, attached) && x in attached
    ensures MapExact(t, MapWithout(t, m, x), attached - {x})
  {
    hide Sig, ListExact;
    var m1, s0 := MapWithout(t, m, x), Sig(t, x);
    forall s | s in m
      ensures ListExact(t, (if s == s0 then WithoutPort(m[s], x) else m[s]).providePorts, s, Provide, attached - {x})
      ensures ListExact(t, (if s == s0 then WithoutPort(m[s], x) else m[s]).requirePorts, s, Require, attached - {x})
    {
      ListDetached(t, m[s].providePorts, s, Provide, attached, x);
      ListDetached(t, m[s].requirePorts, s, Require, attached, x);
    }
    forall y | y in attached - {x} ensures Sig(t, y) in m1 {
      if Sig(t, y) == s0 {
        InOwnList(t, WithoutPort(m[s0], x), s0, attached - {x}, y);
      }
    }
  }

  lemma InOwnList(t: Topology, e: MapEntry, s: Signature, attached: set<Port>, y: Port)
    requires ListExact(t, e.providePorts, s, Provide, attached) && ListExact(t, e.requirePorts, s, Require, attached)
    requires y in attached && Sig(t, y) == s
    ensures e != NO_ENTRY
  {
    assert if y.side.Provide? then y in e.providePorts else y in e.requirePorts;
  }

  // ---------- change tables ----------

  function WithTable(node: Node, side: Side, table: Option<seq<Change>>): Node {
    if side.Provide? then node.(provideChanges := table) else node.(requireChanges := table)
  }

  /** A node with its change tables out of sight. */
  function Bare(node: Node): Node {
    node.(provideChanges := None, requireChanges := None)
  }

  /** Nothing but change tables differs. */
  ghost predicate SameBare(a: Nodes, b: Nodes) {
    a.Keys == b.Keys && forall n :: n in a ==> Bare(a[n]) == Bare(b[n])
  }

  function EmptyTable(count: nat): (r: seq<Change>)
    ensures |r| == count && forall i :: 0 <= i < count ==> r[i] == NO_CHANGE
  {
    seq(count, _ => NO_CHANGE)
  }

  /** adt_ary_push_unique */
  function PushUnique(xs: seq<nat>, x: nat): seq<nat> {
    if x in xs then xs else xs + [x]
  }

  /** A node's table, created if it is not there. */
  function WithCreated(t: Topology, nodes: Nodes, n: nat, side: Side): Nodes
    requires n in nodes
  {
    if Table(nodes[n], side).Some? then nodes
    else nodes[n := WithTable(nodes[n], side, Some(EmptyTable(|Ports(t, n, side)|)))]
  }

  lemma TableCreated(t: Topology, nodes: Nodes, modified: seq<nat>, pairs: seq<Pair>, sign: int, n: nat, side: Side)
    requires n in nodes && Records(t, nodes, modified, pairs, sign)
    ensures var nodes1 := WithCreated(t, nodes, n, side);
            && Records(t, nodes1, if Table(nodes[n], side).Some? then modified else PushUnique(modified, n), pairs, sign)
            && SameBare(nodes, nodes1) && Table(nodes1[n], side).Some?
            && (forall m, s :: m in nodes && Table(nodes[m], s).Some? ==> Table(nodes1[m], s).Some?)
  {
    hide Partners, Ports;
    var nodes1 := WithCreated(t, nodes, n, side);
    forall m, s | m in nodes1
      ensures TableRecords(Table(nodes1[m], s), |Ports(t, m, s)|, m, s, pairs, sign)
    {
      assert TableRecords(Table(nodes[m], s), |Ports(t, m, s)|, m, s, pairs, sign);
    }
  }

  function Extended(c: Change, sign: int, y: Port): Change {
    Change(c.count + sign, c.ports + [y])
  }

  /** A partner added to the entry of `x`. */
  function WithEntry(nodes: Nodes, x: Port, sign: int, y: Port): Nodes
    requires x.node in nodes && Table(nodes[x.node], x.side).Some? && x.id < |Table(nodes[x.node], x.side).value|
  {
    var es := Table(nodes[x.node], x.side).value;
    nodes[x.node := WithTable(nodes[x.node], x.side, Some(es[x.id := Extended(es[x.id], sign, y)]))]
  }

  /** The table of one side of a node after the couple (`p`, `r`) was recorded. */
  function TableAfter(table: Option<seq<Change>>, n: nat, side: Side, sign: int, p: Port, r: Port): Option<seq<Change>>
    requires var x := if side.Provide? then p else r; x.node == n ==> table.Some? && x.id < |table.value|
  {
    var (x, y) := if side.Provide? then (p, r) else (r, p);
    if x.node == n then Some(table.value[x.id := Extended(table.value[x.id], sign, y)]) else table
  }

  lemma TableMore(table: Option<seq<Change>>, count: nat, n: nat, side: Side, pairs: seq<Pair>, sign: int, p: Port, r: Port)
    requires TableRecords(table, count, n, side, pairs, sign) && (sign == 1 || sign == -1)
    requires p.side.Provide? && r.side.Require?
    requires var x := if side.Provide? then p else r; x.node == n ==> table.Some? && x.id < count
    ensures TableRecords(TableAfter(table, n, side, sign, p, r), count, n, side, pairs + [(p, r)], sign)
  {
    hide Partners;
    forall i | 0 <= i < count
      ensures Partners(pairs + [(p, r)], Port(n, side, i))
           == Partners(pairs, Port(n, side, i)) + if Port(n, side, i) == p then [r] else if Port(n, side, i) == r then [p] else []
    {
      PartnersMore(pairs, p, r, Port(n, side, i));
    }
  }

  /** Adding the two entries of a couple, require port first, records it. */
  lemma PairRecorded(t: Topology, nodes: Nodes, modified: seq<nat>, pairs: seq<Pair>, sign: int, p: Port, r: Port)
    requires Records(t, nodes, modified, pairs, sign) && (sign == 1 || sign == -1)
    requires p.node in nodes && r.node in nodes && IsPort(t, p) && IsPort(t, r) && p.side.Provide? && r.side.Require?
    requires Table(nodes[p.node], Provide).Some? && Table(nodes[r.node], Require).Some?
    requires |Table(nodes[p.node], Provide).value| == |Ports(t, p.node, Provide)|
    requires |Table(nodes[r.node], Require).value| == |Ports(t, r.node, Require)|
    ensures var nodes1 := WithEntry(nodes, r, sign, p);
            var nodes2 := WithEntry(nodes1, p, sign, r);
            Records(t, nodes2, modified, pairs + [(p, r)], sign) && SameBare(nodes, nodes2)
  {
    hide Partners, Ports, TableRecords;
    var nodes2 := WithEntry(WithEntry(nodes, r, sign, p), p, sign, r);
    forall n, side | n in nodes2
      ensures TableRecords(Table(nodes2[n], side), |Ports(t, n, side)|, n, side, pairs + [(p, r)], sign)
      ensures Table(nodes2[n], side).Some? ==> n in modified
    {
      assert TableRecords(Table(nodes[n], side), |Ports(t, n, side)|, n, side, pairs, sign);
      TableMore(Table(nodes[n], side), |Ports(t, n, side)|, n, side, pairs, sign, p, r);
      assert Table(nodes2[n], side) == TableAfter(Table(nodes[n], side), n, side, sign, p, r);
    }
  }

  /** The size of a table that records pairs. */
  lemma RecordedSize(t: Topology, nodes: Nodes, modified: seq<nat>, pairs: seq<Pair>, sign: int, n: nat, side: Side)
    requires Records(t, nodes, modified, pairs, sign) && n in nodes && Table(nodes[n], side).Some?
    ensures |Table(nodes[n], side).value| == |Ports(t, n, side)|
    ensures forall i :: 0 <= i < |Ports(t, n, side)| ==> EntryRecords(Table(nodes[n], side).value[i], pairs, sign, Port(n, side, i))
  {
    assert TableRecords(Table(nodes[n], side), |Ports(t, n, side)|, n, side, pairs, sign);
  }
}
