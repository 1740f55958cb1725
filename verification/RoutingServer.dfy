/**
 * The routing side of the server: apx/src/server.c, apx/src/node_instance.c,
 * apx/src/port_signature_map.c, apx/src/port_signature_map_entry.c and the detaching part of
 * apx/src/server_connection.c. Sections that run under the global lock are single methods.
 */
module RoutingServers {
  import opened Common
  import opened Bytes
  import opened Routing
  import opened RoutingData
  import opened RoutingInvariant
  import opened RoutingSteps
  import opened RoutingWrites
  import opened RoutingDetach
  import opened BytePortMaps

  class Server {
    const t: Topology
    var signatureMap: SignatureMap
    var modifiedNodes: seq<nat>
    var nodes: Nodes

    /** Change tables taken along by detaching connections, node by node (server_connection.c). */
    var gatheredProvide: map<nat, seq<Change>>
    var gatheredRequire: map<nat, seq<Change>>

    /** The ports that are in the signature map. */
    ghost var attached: set<Port>

    ghost function Now(): World
      reads this
    {
      World(t, nodes, attached, gatheredProvide, gatheredRequire)
    }

    /**
     * What holds between steps: the signature map is exact, no change is left to process, and
     * receivers, data and states fit together.
     */
    ghost predicate Inv()
      reads this
    {
      Keeps(Now()) && MapExact(t, signatureMap, attached) && NoTables(nodes) && modifiedNodes == []
    }

    /** A server before the first connection. */
    constructor (t: Topology, initial: Nodes)
      requires WellFormed(t) && Shape(t, initial) && NoTables(initial)
      requires forall n :: n in initial ==> !Started(initial[n].provideState) && !Started(initial[n].requireState)
      requires forall p :: Receivers(initial, p) == []
      ensures Inv() && this.t == t && nodes == initial && attached == {}
    {
      this.t := t;
      signatureMap, modifiedNodes, nodes, gatheredProvide, gatheredRequire, attached := map[], [], initial, map[], map[], {};
      new;
      InitialKeeps(Now());
    }

    // ---------- change tables (node_instance.c, port_connector_change_table.c) ----------

    /** apx_nodeInstance_get_*_port_connector_changes with auto_create */
    method CreateChanges(n: nat, side: Side)
      requires n in nodes
      modifies `nodes, `modifiedNodes
      ensures nodes == WithCreated(t, old(nodes), n, side)
      ensures modifiedNodes == if Table(old(nodes)[n], side).Some? then old(modifiedNodes) else PushUnique(old(modifiedNodes), n)
    {
      if Table(nodes[n], side).None? {
        nodes := nodes[n := WithTable(nodes[n], side, Some(EmptyTable(|Ports(t, n, side)|)))];
        if n !in modifiedNodes {
          modifiedNodes := modifiedNodes + [n];
        }
      }
    }

    /** apx_portConnectorChangeEntry_add_connection and _remove_connection */
    method Act(x: Port, sign: int, y: Port) returns (error: Error)
      requires sign == 1 || sign == -1
      requires x.node in nodes && Table(nodes[x.node], x.side).Some? && x.id < |Table(nodes[x.node], x.side).value|
      modifies `nodes
      ensures var c := Table(old(nodes)[x.node], x.side).value[x.id];
              if sign * c.count < 0 then error == UnsupportedError && nodes == old(nodes)
              else error == NoError && nodes == WithEntry(old(nodes), x, sign, y)
    {
      var es := Table(nodes[x.node], x.side).value;
      if (sign > 0 && es[x.id].count < 0) || (sign < 0 && es[x.id].count > 0) {
        return UnsupportedError;
      }
      nodes := nodes[x.node := WithTable(nodes[x.node], x.side, Some(es[x.id := Extended(es[x.id], sign, y)]))];
      return NoError;
    }

    /** The body of the two notify loops: both entries of one couple, the require port's first. */
    method RecordCouple(x: Port, y: Port, sign: int, ghost pairs: seq<Pair>) returns (error: Error)
      requires sign == 1 || sign == -1
      requires nodes.Keys == t.Keys && IsPort(t, x) && IsPort(t, y) && y.side == Opposite(x.side)
      requires Records(t, nodes, modifiedNodes, pairs, sign) && Table(nodes[x.node], x.side).Some?
      modifies `nodes, `modifiedNodes
      ensures error == NoError && nodes.Keys == t.Keys && SameBare(old(nodes), nodes)
      ensures Records(t, nodes, modifiedNodes, pairs + PairsOf(x, [y]), sign) && Table(nodes[x.node], x.side).Some?
    {
      hide Partners, Ports, TableRecords, SameBare, Records, EntryRecords;
      PortNode(t, x);
      PortNode(t, y);
      TableCreated(t, nodes, modifiedNodes, pairs, sign, y.node, y.side);
      CreateChanges(y.node, y.side);
      ghost var created := nodes;
      var (p, r) := if x.side.Provide? then (x, y) else (y, x);
      RecordedSize(t, nodes, modifiedNodes, pairs, sign, p.node, Provide);
      RecordedSize(t, nodes, modifiedNodes, pairs, sign, r.node, Require);
      PairRecorded(t, nodes, modifiedNodes, pairs, sign, p, r);
      EntrySign(t, nodes, pairs, sign, r);
      EntrySign(t, nodes, pairs, sign, p);
      error := Act(r, sign, p);
      if error == NoError {
        error := Act(p, sign, r);
      }
      SameBareChain(old(nodes), created, nodes);
      assert pairs + [(p, r)] == pairs + PairsOf(x, [y]);
    }

    /**
     * apx_portSignatureMapEntry_notify_require_ports_about_provide_port_change and its mirror
     * image: both sides' entries of every couple that `x` forms or leaves.
     */
    method Notify(x: Port, others: seq<Port>, sign: int, ghost pairs: seq<Pair>) returns (error: Error)
      requires sign == 1 || sign == -1
      requires nodes.Keys == t.Keys && IsPort(t, x) && Records(t, nodes, modifiedNodes, pairs, sign)
      requires forall y :: y in others ==> IsPort(t, y) && y.side == Opposite(x.side)
      modifies `nodes, `modifiedNodes
      ensures error == NoError && SameBare(old(nodes), nodes) && nodes.Keys == t.Keys
      ensures Records(t, nodes, modifiedNodes, pairs + PairsOf(x, others), sign)
    {
      hide Ports, SameBare, Records;
      error := NoError;
      SameBareAsSelf(nodes);
      PortNode(t, x);
      assert pairs + PairsOf(x, []) == pairs;
      if |others| == 0 {
        assert others == [];
        return;
      }
      TableCreated(t, nodes, modifiedNodes, pairs, sign, x.node, x.side);
      CreateChanges(x.node, x.side);
      for i := 0 to |others|
        invariant error == NoError && nodes.Keys == t.Keys && Table(nodes[x.node], x.side).Some?
        invariant SameBare(old(nodes), nodes)
        invariant Records(t, nodes, modifiedNodes, pairs + PairsOf(x, others[..i]), sign)
      {
        ghost var so, before := pairs + PairsOf(x, others[..i]), nodes;
        error := RecordCouple(x, others[i], sign, so);
        if error != NoError {
          break;
        }
        SameBareChain(old(nodes), before, nodes);
        assert so + PairsOf(x, [others[i]]) == pairs + PairsOf(x, others[..i + 1]);
      }
      assert others[..|others|] == others;
    }

    // ---------- the signature map (port_signature_map.c) ----------

    /** What a batch of connects or disconnects has kept so far. */
    ghost predicate Batch(small: set<Port>, large: set<Port>, pairs: seq<Pair>, sign: int)
      reads this
    {
      && nodes.Keys == t.Keys && MapExact(t, signatureMap, attached)
      && Records(t, nodes, modifiedNodes, pairs, sign)
      && PairsExact(t, small, large, pairs) && small <= large
    }

    /** apx_portSignatureMap_insert */
    method Insert(x: Port, ghost before: set<Port>, ghost pairs: seq<Pair>) returns (error: Error, ghost more: seq<Pair>)
      requires Batch(before, attached, pairs, 1) && IsPort(t, x) && x !in attached
      modifies `signatureMap, `nodes, `modifiedNodes, `attached
      ensures error == NoError && attached == old(attached) + {x} && SameBare(old(nodes), nodes)
      ensures Batch(before, attached, more, 1)
    {
      hide Records, PairsExact, SameBare, ListExact, MapExact, Sig, Ports;
      var s := Sig(t, x);
      MapAttached(t, signatureMap, attached, x);
      EntryExact(t, signatureMap, attached, s);
      AttachedPorts(t, signatureMap, attached);
      OppositePorts(t, EntryOf(signatureMap, s), s, attached, x);
      AttachPairs(t, before, attached, pairs, x, EntryOf(signatureMap, s).Of(Opposite(x.side)));
      if s !in signatureMap {
        signatureMap := signatureMap[s := NO_ENTRY];
      }
      signatureMap := signatureMap[s := WithPort(signatureMap[s], x)];
      assert signatureMap == old(signatureMap)[s := WithPort(EntryOf(old(signatureMap), s), x)];
      var others := signatureMap[s].Of(Opposite(x.side));
      var ignored := Notify(x, others, 1, pairs);
      attached, more := attached + {x}, pairs + PairsOf(x, others);
      error := NoError;
    }

    /** apx_portSignatureMap_remove */
    method Remove(x: Port, ghost before: set<Port>, ghost pairs: seq<Pair>) returns (error: Error, ghost more: seq<Pair>)
      requires Batch(attached, before, pairs, -1) && x in attached
      modifies `signatureMap, `nodes, `modifiedNodes, `attached
      ensures error == NoError && attached == old(attached) - {x} && SameBare(old(nodes), nodes)
      ensures Batch(attached, before, more, -1)
    {
      hide Records, PairsExact, SameBare, ListExact, MapExact, Sig, Ports;
      var s := Sig(t, x);
      MapDetached(t, signatureMap, attached, x);
      EntryExact(t, signatureMap, attached, s);
      AttachedPorts(t, signatureMap, attached);
      OppositePorts(t, EntryOf(signatureMap, s), s, attached, x);
      DetachPairs(t, attached, before, pairs, x, EntryOf(signatureMap, s).Of(Opposite(x.side)));
      more := pairs;
      if s !in signatureMap {
        return NotFoundError, more;
      }
      signatureMap := signatureMap[s := WithoutPort(signatureMap[s], x)];
      var others := signatureMap[s].Of(Opposite(x.side));
      error := Notify(x, others, -1, pairs);
      if signatureMap[s].providePorts == [] && signatureMap[s].requirePorts == [] {
        signatureMap := signatureMap - {s};
      }
      assert signatureMap == MapWithout(t, old(signatureMap), x);
      attached, more := attached - {x}, pairs + PairsOf(x, others);
    }

    /** apx_portSignatureMap_connect_provide_ports and _connect_require_ports */
    method ConnectPorts(n: nat, side: Side) returns (error: Error, ghost pairs: seq<Pair>)
      requires nodes.Keys == t.Keys && MapExact(t, signatureMap, attached) && Records(t, nodes, modifiedNodes, [], 1)
      requires forall x :: x in attached ==> !(x.node == n && x.side == side)
      modifies `signatureMap, `nodes, `modifiedNodes, `attached
      ensures error == NoError && SameBare(old(nodes), nodes)
      ensures attached == old(attached) + FirstPorts(n, side, |Ports(t, n, side)|)
      ensures Batch(old(attached), attached, pairs, 1)
    {
      hide MapExact, Records, SameBare, Ports;
      error, pairs := NoError, [];
      SameBareAsSelf(nodes);
      NothingRecorded(t, attached);
      for id := 0 to |Ports(t, n, side)|
        invariant error == NoError && Batch(old(attached), attached, pairs, 1) && SameBare(old(nodes), nodes)
        invariant attached == old(attached) + FirstPorts(n, side, id)
      {
        ghost var before := nodes;
        error, pairs := Insert(Port(n, side, id), old(attached), pairs);
        SameBareChain(old(nodes), before, nodes);
        if error != NoError {
          return;
        }
        assert FirstPorts(n, side, id + 1) == FirstPorts(n, side, id) + {Port(n, side, id)};
      }
    }

    /** apx_portSignatureMap_disconnect_provide_ports and _disconnect_require_ports */
    method DisconnectPorts(n: nat, side: Side, ghost before: set<Port>, ghost pairs: seq<Pair>) returns (error: Error, ghost more: seq<Pair>)
      requires Batch(attached, before, pairs, -1)
      requires forall i :: 0 <= i < |Ports(t, n, side)| ==> Port(n, side, i) in attached
      modifies `signatureMap, `nodes, `modifiedNodes, `attached
      ensures error == NoError && SameBare(old(nodes), nodes)
      ensures attached == old(attached) - FirstPorts(n, side, |Ports(t, n, side)|)
      ensures Batch(attached, before, more, -1)
    {
      hide MapExact, Records, SameBare, Ports;
      error, more := NoError, pairs;
      SameBareAsSelf(nodes);
      for id := 0 to |Ports(t, n, side)|
        invariant error == NoError && Batch(attached, before, more, -1) && SameBare(old(nodes), nodes)
        invariant attached == old(attached) - FirstPorts(n, side, id)
      {
        ghost var middle := nodes;
        error, more := Remove(Port(n, side, id), before, more);
        SameBareChain(old(nodes), middle, nodes);
        if error != NoError {
          return;
        }
        assert FirstPorts(n, side, id + 1) == FirstPorts(n, side, id) + {Port(n, side, id)};
      }
    }

    /** apx_server_clear_port_connector_changes */
    method ClearChanges()
      requires nodes.Keys == t.Keys && TablesListed(nodes, modifiedNodes)
      modifies `nodes, `modifiedNodes
      ensures modifiedNodes == [] && SameBare(old(nodes), nodes) && NoTables(nodes)
    {
      for i := 0 to |modifiedNodes|
        invariant modifiedNodes == old(modifiedNodes) && SameBare(old(nodes), nodes)
        invariant forall n, side :: n in nodes && Table(nodes[n], side).Some? ==> n in modifiedNodes[i..]
      {
        var n := modifiedNodes[i];
        assert modifiedNodes[i..] == [n] + modifiedNodes[i + 1..];
        if n in nodes {
          nodes := nodes[n := nodes[n].(provideChanges := None, requireChanges := None)];
        }
      }
      modifiedNodes := [];
    }

    // ---------- delivering data (node_instance.c, server.c) ----------

    /** route_provide_port_data_to_require_port */
    method RoutePortData(p: Port, r: Port) returns (error: Error)
      requires p.side.Provide? && r.side.Require? && p.node in nodes && r.node in nodes
      modifies `nodes
      ensures Info(t, p).size != Info(t, r).size ==> error == ValueLengthError && nodes == old(nodes)
      ensures (
          && Info(t, p).size == Info(t, r).size
          && Info(t, p).offset + Info(t, p).size <= |old(nodes)[p.node].provideData|
          && Info(t, r).offset + Info(t, r).size <= |old(nodes)[r.node].requireData|
        ) ==> error == NoError && nodes == WithHeld(t, old(nodes), r, Held(t, old(nodes), p))
    {
      hide Info;
      var size := Info(t, p).size;
      if size != Info(t, r).size {
        return ValueLengthError;
      }
      if Info(t, p).offset + size > |nodes[p.node].provideData| {
        return InvalidArgumentError;
      }
      var bs := nodes[p.node].provideData[Info(t, p).offset..Info(t, p).offset + size];
      error := WriteRequireData(r.node, Info(t, r).offset, bs);
    }

    /**
     * apx_nodeInstance_handle_provide_port_connected_to_require_port and its counterpart, with
     * apx_portConnectorList_insert.
     */
    method Join(p: Port, r: Port, ghost start: Nodes, ghost done: set<Pair>) returns (error: Error)
      requires WellFormed(t) && PortsOf(t, attached) && UniqueProvider(t, attached)
      requires Delivering(t, attached, start, nodes, done) && Couple(t, attached, p, r)
      requires r !in Receivers(start, p) && (p, r) !in done
      modifies `nodes
      ensures error == NoError && Delivering(t, attached, start, nodes, done + {(p, r)})
    {
      hide WellFormed, PortsOf, UniqueProvider, Delivering, Couple, Receivers, Info, Held, WithHeld;
      JoinedDelivering(t, attached, start, nodes, done, p, r);
      DeliveringShape(t, attached, start, nodes, done);
      CoupleFits(t, attached, nodes, p, r);
      HeldWithReceiver(t, nodes, p, r, p);
      ReceiverFits(t, nodes, p, r);
      var node := nodes[p.node];
      nodes := nodes[p.node := node.(connectors := node.connectors[p.id := node.connectors[p.id] + [r]])];
      error := RoutePortData(p, r);
    }

    /**
     * apx_server_process_provide_port_connector_changes: every new receiver of the node's
     * provide ports is connected and given their bytes.
     */
    method ProcessProvideChanges(n: nat, changes: seq<Change>, ghost pairs: seq<Pair>) returns (error: Error, ghost done: set<Pair>)
      requires WellFormed(t) && PortsOf(t, attached) && UniqueProvider(t, attached)
      requires Shape(t, nodes) && ReceiversValid(t, nodes) && ReceiversCoherent(t, nodes, attached)
      requires TableRecords(Some(changes), |Ports(t, n, Provide)|, n, Provide, pairs, 1)
      requires NewCouples(t, attached, nodes, pairs) && forall p, r :: (p, r) in pairs ==> p == Port(n, Provide, p.id)
      modifies `nodes
      ensures error == NoError && Delivering(t, attached, old(nodes), nodes, done)
      ensures forall p, r :: (p, r) in done <==> (p, r) in pairs
    {
      hide WellFormed, PortsOf, UniqueProvider, Delivering, Couple, Receivers, Info, Partners, Ports, Sided, NoDup;
      error, done := NoError, {};
      DeliveringStarts(t, attached, nodes);
      for id := 0 to |changes|
        invariant error == NoError && Delivering(t, attached, old(nodes), nodes, done)
        invariant forall p, r :: (p, r) in done <==> (p, r) in pairs && p.id < id
      {
        var p := Port(n, Provide, id);
        PartnersExact(pairs, p);
        var entry := changes[id];
        assert entry.ports == Partners(pairs, p);
        if entry.count > 0 {
          for i := 0 to entry.count
            invariant error == NoError && Delivering(t, attached, old(nodes), nodes, done)
            invariant forall q, r :: (q, r) in done <==> (q, r) in pairs && (q.id < id || (q == p && r in entry.ports[..i]))
          {
            var r := entry.ports[i];
            assert entry.ports[..i + 1] == entry.ports[..i] + [r];
            NotBefore(entry.ports, i);
            assert r in entry.ports;
            error := Join(p, r, old(nodes), done);
            if error != NoError {
              return;
            }
            done := done + {(p, r)};
          }
        }
        assert entry.count == |entry.ports| && entry.ports[..|entry.ports|] == entry.ports;
      }
      forall p, r | (p, r) in pairs ensures p.id < |changes| {
        CoupleIds(t, attached, p, r);
      }
    }

    /**
     * apx_server_process_require_port_connector_changes: every require port of the node is
     * connected to its provider, of which there is one at most, and given its bytes.
     */
    method ProcessRequireChanges(n: nat, changes: seq<Change>, ghost pairs: seq<Pair>) returns (error: Error, ghost done: set<Pair>)
      requires WellFormed(t) && PortsOf(t, attached) && UniqueProvider(t, attached)
      requires Shape(t, nodes) && ReceiversValid(t, nodes) && ReceiversCoherent(t, nodes, attached)
      requires TableRecords(Some(changes), |Ports(t, n, Require)|, n, Require, pairs, 1)
      requires NewCouples(t, attached, nodes, pairs) && forall p, r :: (p, r) in pairs ==> r == Port(n, Require, r.id)
      modifies `nodes
      ensures error == NoError && Delivering(t, attached, old(nodes), nodes, done)
      ensures forall p, r :: (p, r) in done <==> (p, r) in pairs
    {
      hide WellFormed, PortsOf, UniqueProvider, Delivering, Couple, Receivers, Info, Partners, Ports, Sided, NoDup;
      error, done := NoError, {};
      DeliveringStarts(t, attached, nodes);
      for id := 0 to |changes|
        invariant error == NoError && Delivering(t, attached, old(nodes), nodes, done)
        invariant forall p, r :: (p, r) in done <==> (p, r) in pairs && r.id < id
      {
        var r := Port(n, Require, id);
        PartnersExact(pairs, r);
        OnePartner(t, attached, pairs, r);
        var entry := changes[id];
        assert entry.ports == Partners(pairs, r) && entry.count == |entry.ports|;
        if entry.count > 0 {
          if entry.count != 1 {
            return NotImplementedError, done;
          }
          var p := entry.ports[0];
          assert entry.ports == [p] && p in entry.ports;
          error := Join(p, r, old(nodes), done);
          if error != NoError {
            return;
          }
          done := done + {(p, r)};
        }
      }
      forall p, r | (p, r) in pairs ensures r.id < |changes| {
        CoupleIds(t, attached, p, r);
      }
    }

    /** apx_nodeInstance_set_*_port_data_state while files are announced and requested */
    method SetDataState(n: nat, side: Side, state: DataState)
      requires Inv() && n in nodes && !Started(StateOf(nodes[n], side)) && !Started(state)
      modifies `nodes
      ensures Inv() && nodes == InState(old(nodes), n, side, state)
    {
      hide Keeps, MapExact, NoTables;
      StateSetKeeps(Now(), n, side, state);
      StateNoTables(nodes, n, side, state);
      nodes := nodes[n := WithState(nodes[n], side, state)];
    }

    // ---------- a require port file is opened (node_instance.c) ----------

    /** The couples of a side's ports recorded, and what delivering them needs to know. */
    method AttachSide(n: nat, side: Side) returns (error: Error, ghost pairs: seq<Pair>)
      requires Inv() && n in nodes && Free(Now(), n, side)
      modifies `signatureMap, `nodes, `modifiedNodes, `attached
      ensures error == NoError && Attaching(old(Now()), Now(), n, side, pairs, modifiedNodes)
      ensures MapExact(t, signatureMap, attached)
    {
      hide Keeps, MapExact, Records, SameBare, Ports, FirstPorts, PairsExact, UniqueProvider, NoTables, Free, Attaching;
      ghost var w := Now();
      FreeFacts(w, n, side);
      NoTablesRecorded(t, nodes);
      error, pairs := ConnectPorts(n, side);
      AttachingReady(w, Now(), n, side, pairs, modifiedNodes);
    }

    /** connect_require_ports_to_server */
    method ConnectRequirePorts(n: nat) returns (error: Error)
      requires Inv() && n in nodes && Free(Now(), n, Require)
      modifies `signatureMap, `nodes, `modifiedNodes, `attached
      ensures error == NoError && ConnectedFrom(old(Now()), Now(), n, Require, StateOf(old(nodes)[n], Require))
      ensures MapExact(t, signatureMap, attached) && NoTables(nodes) && modifiedNodes == []
    {
      hide Keeps, MapExact, Records, NoTables, Free, Attaching, ConnectedFrom, Delivering, Receivers, NewCouples, TableRecords, SameBare, TablesListed, Ports, WellFormed, UniqueProvider, PortsOf, Shape, ReceiversValid, ReceiversCoherent;
      ghost var w, pairs, done := Now(), [], {};
      ghost var state := StateOf(nodes[n], Require);
      error, pairs := AttachSide(n, Require);
      ghost var middle, listed := Now(), modifiedNodes;
      AttachingFacts(w, middle, n, Require, pairs, listed, state);
      if error == NoError {
        var changes := nodes[n].requireChanges;
        if changes.Some? {
          error, done := ProcessRequireChanges(n, changes.value, pairs);
        }
      }
      DeliveredFrom(w, middle, n, Require, pairs, listed, state, nodes, done);
      ghost var delivered := Now();
      ClearChanges();
      ClearedFrom(w, delivered, Now(), n, Require, state);
    }

    /**
     * file_open_notify for a require port file: the node's require ports are attached, and
     * each takes the bytes of its provider if there is one.
     */
    method OpenRequireFile(n: nat) returns (error: Error)
      requires Inv() && n in nodes && nodes[n].requireState == WaitingForFileOpenRequest
      modifies `signatureMap, `nodes, `modifiedNodes, `attached
      ensures error == NoError && Inv() && SideConnected(old(Now()), Now(), n, Require)
    {
      hide Keeps, MapExact, NoTables, ConnectedFrom, SideConnected, Free, Receivers, Held;
      ghost var w := Now();
      FreeRequire(w, n);
      error := ConnectRequirePorts(n);
      ConnectedFacts(w, Now(), n, Require, StateOf(w.nodes[n], Require));
      if error == NoError {
        StateNoTables(nodes, n, Require, Connected);
        nodes := nodes[n := nodes[n].(requireState := Connected)];
      }
    }

    // ---------- a provider writes (node_instance.c) ----------

    /** apx_nodeData_write_require_port_data, as called by remote_route_require_port_data */
    method WriteRequireData(n: nat, offset: nat, data: seq<byte>) returns (error: Error)
      requires n in nodes
      modifies `nodes
      ensures offset + |data| > |old(nodes)[n].requireData| ==> error == InvalidArgumentError && nodes == old(nodes)
      ensures offset + |data| <= |old(nodes)[n].requireData| ==>
        error == NoError && nodes == old(nodes)[n := WithData(old(nodes)[n], Require, WriteAt(old(nodes)[n].requireData, offset, data))]
    {
      if offset + |data| > |nodes[n].requireData| {
        return InvalidArgumentError;
      }
      nodes := nodes[n := nodes[n].(requireData := WriteAt(nodes[n].requireData, offset, data))];
      return NoError;
    }

    /** The loop over the receivers of one port in route_provide_port_data_change_to_receivers. */
    method FeedReceivers(p: Port, data: seq<byte>, ghost start: Nodes, ghost fed: set<Pair>) returns (error: Error, ghost more: set<Pair>)
      requires Feedable(t, start, fed, p) && Feeding(t, start, nodes, fed) && data == Held(t, start, p)
      modifies `nodes
      ensures error == NoError && Feeding(t, start, nodes, more)
      ensures forall q, r :: (q, r) in more <==> (q, r) in fed || (q == p && r in Receivers(start, p))
    {
      hide Feedable, Feeding, Held, Info, Receivers, WithData, WriteAt, DataOf, Feeds;
      error, more := NoError, fed;
      FeedableReceivers(t, start, nodes, fed, p);
      var connectors := nodes[p.node].connectors[p.id];
      for i := 0 to |connectors|
        invariant error == NoError && Feeding(t, start, nodes, more)
        invariant forall q, r :: (q, r) in more <==> (q, r) in fed || (q == p && r in connectors[..i])
      {
        var r := connectors[i];
        FeedableMore(t, start, nodes, fed, more, connectors, i, p);
        if Info(t, p).size != Info(t, r).size {
          error := ValueLengthError;
        } else {
          error := WriteRequireData(r.node, Info(t, r).offset, data);
        }
        more := more + {(p, r)};
        assert connectors[..i + 1] == connectors[..i] + [r];
      }
      assert connectors[..|connectors|] == connectors;
    }

    /** route_provide_port_data_change_to_receivers */
    method RouteProvideData(n: nat, offset: nat, data: seq<byte>, ghost w: World) returns (error: Error)
      requires Writable(w, n, offset, data) && Now() == w.(nodes := WithWritten(w.nodes, n, offset, data))
      modifies `nodes
      ensures error == NoError && DataRouted(w, Now(), n, offset, data) && Keeps(Now())
    {
      hide Writable, Feeding, Feedable, Receivers, Feeds, Held, Info, PortAt, Boundary, Ports, WithWritten, DataRouted, Keeps;
      ghost var start, fed := nodes, {};
      error := NoError;
      var at := offset;
      RouteStarts(w, n, offset, data);
      while at < offset + |data|
        invariant error == NoError && offset <= at <= offset + |data| && Boundary(Ports(t, n, Provide), at)
        invariant Feeding(t, start, nodes, fed)
        invariant forall p, r :: (p, r) in fed <==> Feeds(t, w.nodes, n, offset, at, p, r)
      {
        RouteStep(w, n, offset, data, fed, at);
        var id := PortAt(Ports(t, n, Provide), at);
        if id.None? {
          error := InvalidWriteError;
          break;
        }
        var p := Port(n, Provide, id.value);
        var size := Info(t, p).size;
        error, fed := FeedReceivers(p, data[at - offset..at - offset + size], start, fed);
        at := at + size;
      }
      RouteEnds(w, Now(), n, offset, data, fed);
    }

    /** The node's provide ports are connected: its recorded couples are delivered. */
    method DeliverProvide(n: nat, ghost w: World, ghost pairs: seq<Pair>) returns (error: Error)
      requires Attaching(w, Now(), n, Provide, pairs, modifiedNodes)
      modifies `nodes
      ensures error == NoError && ConnectedFrom(w, Now(), n, Provide, Connected)
      ensures TablesListed(nodes, modifiedNodes) && nodes.Keys == t.Keys
    {
      hide Keeps, Records, Attaching, ConnectedFrom, Delivering, Receivers, NewCouples, TableRecords, SameBare, TablesListed, Ports, WellFormed, UniqueProvider, PortsOf, Shape, ReceiversValid, ReceiversCoherent;
      ghost var middle, done := Now(), {};
      AttachingFacts(w, middle, n, Provide, pairs, modifiedNodes, Connected);
      nodes := nodes[n := nodes[n].(provideState := Connected)];
      error := NoError;
      var changes := nodes[n].provideChanges;
      if changes.Some? {
        error, done := ProcessProvideChanges(n, changes.value, pairs);
      }
      DeliveredFrom(w, middle, n, Provide, pairs, modifiedNodes, Connected, nodes, done);
    }

    /** The part of process_remote_write_provide_port_data that runs under the global lock. */
    method ConnectProvidePorts(n: nat) returns (error: Error)
      requires Inv() && n in nodes && Free(Now(), n, Provide)
      modifies `signatureMap, `nodes, `modifiedNodes, `attached
      ensures error == NoError && Inv() && SideConnected(old(Now()), Now(), n, Provide)
    {
      hide Keeps, MapExact, NoTables, Free, Attaching, ConnectedFrom, SameBare, TablesListed, SideConnected;
      ghost var w, pairs := Now(), [];
      error, pairs := AttachSide(n, Provide);
      if error == NoError {
        error := DeliverProvide(n, w, pairs);
      }
      ghost var delivered := Now();
      ClearChanges();
      ClearedFrom(w, delivered, Now(), n, Provide, Connected);
      ConnectedKeeps(w, Now(), n, Provide);
    }

    /**
     * process_remote_write_provide_port_data. The first write connects the node's provide
     * ports; later writes, of whole ports, go to the receivers.
     */
    method WriteProvidePortData(n: nat, offset: nat, data: seq<byte>) returns (error: Error)
      requires Inv() && n in nodes && n !in gatheredProvide
      requires nodes[n].provideState.WaitingForFileData? ==> Free(Now(), n, Provide)
      requires nodes[n].provideState.Connected? && offset + |data| <= |nodes[n].provideData| ==> WholePorts(Ports(t, n, Provide), offset, |data|)
      modifies `signatureMap, `nodes, `modifiedNodes, `attached
      ensures Inv() && WriteOutcome(old(Now()), Now(), n, offset, data, error)
    {
      hide Keeps, MapExact, NoTables, SideConnected, Ports, WholePorts, UniqueProvider, DataRouted, Receivers, Free;
      ghost var w := Now();
      match nodes[n].provideState
      case Init => return InternalError;
      case WaitingFileInfo => return InternalError;
      case WaitingForFileOpenRequest => return NoError;
      case Disconnected => return NoError;
      case WaitingForFileData =>
        if offset + |data| > |nodes[n].provideData| {
          return InvalidArgumentError;
        }
        WrittenFree(w, n, offset, data);
        WrittenNoTables(nodes, n, offset, data);
        nodes := nodes[n := nodes[n].(provideData := WriteAt(nodes[n].provideData, offset, data))];
        error := ConnectProvidePorts(n);
      case Connected =>
        if offset + |data| > |nodes[n].provideData| {
          return InvalidArgumentError;
        }
        WrittenNoTables(nodes, n, offset, data);
        nodes := nodes[n := nodes[n].(provideData := WriteAt(nodes[n].provideData, offset, data))];
        error := RouteProvideData(n, offset, data, w);
        RoutedNoTables(w, Now(), n, offset, data);
    }

    // ---------- a connection is closed (server_connection.c) ----------

    /** The body of the loop of remove_nodes_from_signature_map. */
    method RemoveNode(n: nat, ghost before: set<Port>, ghost pairs: seq<Pair>) returns (ghost more: seq<Pair>)
      requires n in nodes && Batch(attached, before, pairs, -1) && SidesAttached(t, nodes, attached, n)
      modifies `signatureMap, `nodes, `modifiedNodes, `attached
      ensures Batch(attached, before, more, -1) && SameBare(old(nodes), nodes)
      ensures forall x :: x in attached <==> x in old(attached) && x.node != n
    {
      hide MapExact, Records, SameBare, Ports, PairsExact, FirstPorts;
      more := pairs;
      SameBareAsSelf(nodes);
      SidesPorts(t, nodes, attached, n);
      var requireState, provideState := nodes[n].requireState, nodes[n].provideState;
      var ignored := NoError;
      if requireState.Connected? {
        ignored, more := DisconnectPorts(n, Require, before, more);
      }
      ghost var middle := nodes;
      if provideState.Connected? {
        ignored, more := DisconnectPorts(n, Provide, before, more);
      }
      SameBareChain(old(nodes), middle, nodes);
    }

    /** remove_nodes_from_signature_map */
    method RemoveNodes(ns: seq<nat>) returns (ghost pairs: seq<Pair>)
      requires Inv() && ConnectionNodes(Now(), ns)
      modifies `signatureMap, `nodes, `modifiedNodes, `attached
      ensures Detaching(old(Now()), Now(), ns, pairs, modifiedNodes) && MapExact(t, signatureMap, attached)
    {
      hide Keeps, MapExact, Records, SameBare, Ports, PairsExact, NoTables, SidesAttached, WellFormed, Shape, UniqueProvider, ReceiversValid, ReceiversCoherent, PortsOf;
      pairs := [];
      ghost var w := Now();
      KeepsFacts(w);
      NoTablesRecorded(t, nodes);
      NothingRecorded(t, attached);
      SameBareAsSelf(nodes);
      for i := 0 to |ns|
        invariant Batch(attached, w.attached, pairs, -1) && SameBare(w.nodes, nodes)
        invariant forall x :: x in attached <==> x in w.attached && x.node !in ns[..i]
      {
        var n := ns[i];
        ghost var before := nodes;
        SameBareKeys(w.nodes, nodes);
        StillAttached(w, nodes, attached, ns, i);
        pairs := RemoveNode(n, w.attached, pairs);
        SameBareChain(w.nodes, before, nodes);
        assert ns[..i + 1] == ns[..i] + [n];
      }
      assert ns[..|ns|] == ns;
    }

    /** gather_provide_port_connector_changes and gather_require_port_connector_changes */
    method Gather(ns: seq<nat>, side: Side)
      requires NoDup(ns) && forall n :: n in ns ==> n in nodes
      modifies `nodes, `gatheredProvide, `gatheredRequire
      ensures nodes == GatheredNodes(old(nodes), ns, side)
      ensures gatheredProvide == old(gatheredProvide) + if side.Provide? then HandedTables(old(nodes), ns, side) else map[]
      ensures gatheredRequire == old(gatheredRequire) + if side.Require? then HandedTables(old(nodes), ns, side) else map[]
    {
      hide GatheredNodes, HandedTables;
      GatheredNone(nodes, side);
      NothingAdded(gatheredProvide);
      NothingAdded(gatheredRequire);
      for i := 0 to |ns|
        invariant nodes == GatheredNodes(old(nodes), ns[..i], side)
        invariant gatheredProvide == old(gatheredProvide) + if side.Provide? then HandedTables(old(nodes), ns[..i], side) else map[]
        invariant gatheredRequire == old(gatheredRequire) + if side.Require? then HandedTables(old(nodes), ns[..i], side) else map[]
      {
        var n := ns[i];
        GatheredNext(old(nodes), ns[..i], side, n);
        assert ns[..i + 1] == ns[..i] + [n];
        if StateOf(nodes[n], side).Connected? {
          var table := Table(nodes[n], side);
          if table.Some? {
            if side.Provide? {
              gatheredProvide := gatheredProvide[n := table.value];
            } else {
              gatheredRequire := gatheredRequire[n := table.value];
            }
            nodes := nodes[n := WithTable(nodes[n], side, None)];
          } else {
            nodes := nodes[n := WithState(nodes[n], side, Disconnected)];
          }
        } else {
          assert nodes[n := nodes[n]] == nodes;
        }
      }
      assert ns[..|ns|] == ns;
    }

    /**
     * detach_all_nodes up to the release of the global lock: the connection's ports leave the
     * signature map, and their change tables are taken along.
     */
    method DetachNodes(ns: seq<nat>) returns (ghost pairs: seq<Pair>)
      requires Inv() && ConnectionNodes(Now(), ns)
      modifies this
      ensures Inv() && NodesDetached(old(Now()), Now(), ns, pairs)
    {
      hide Keeps, MapExact, NoTables, NodesDetached, Detaching, TablesListed, GatheredNodes, HandedTables, SameBare;
      ghost var w := Now();
      pairs := RemoveNodes(ns);
      ghost var middle, listed := Now(), modifiedNodes;
      DetachingKeys(w, middle, ns, pairs, listed);
      Gather(ns, Provide);
      GatheredHanded(middle.nodes, ns);
      Gather(ns, Require);
      ghost var gathered := Now();
      NothingAdded(middle.gatheredRequire);
      NothingAdded(gatheredProvide);
      DetachedReady(w, middle, gathered, ns, pairs, listed);
      ClearChanges();
      DetachedDone(w, middle, gathered, Now(), ns, pairs, listed);
    }

    /** process_disconnected_provider_nodes, for one node */
    method FinishProvider(n: nat)
      requires Inv() && n in gatheredProvide
      modifies `nodes, `gatheredProvide
      ensures Inv() && n in old(nodes) && Now() == ProviderFinished(old(Now()), n)
    {
      hide Keeps, MapExact, NoTables;
      ProviderFinishedKeeps(Now(), n);
      FinishedNoTables(Now(), n);
      var node := nodes[n];
      var connectors := if |node.connectors| > 0 then node.connectors[0 := []] else node.connectors;
      nodes := nodes[n := node.(connectors := connectors)];
      nodes := nodes[n := nodes[n].(provideState := Disconnected)];
      gatheredProvide := gatheredProvide - {n};
      assert nodes == ProviderFinished(old(Now()), n).nodes;
    }

    /** remove_provide_port_connector */
    method RemoveReceiver(p: Port, r: Port) returns (error: Error)
      requires p.node in nodes && |nodes[p.node].connectors| == |Ports(t, p.node, Provide)|
      modifies `nodes
      ensures p.id < |Ports(t, p.node, Provide)| ==> error == NoError && nodes == WithoutReceiver(old(nodes), p, r)
      ensures p.id >= |Ports(t, p.node, Provide)| ==> error == InvalidArgumentError && nodes == old(nodes)
    {
      if p.id < |Ports(t, p.node, Provide)| {
        var node := nodes[p.node];
        nodes := nodes[p.node := node.(connectors := node.connectors[p.id := Without(node.connectors[p.id], r)])];
        return NoError;
      }
      return InvalidArgumentError;
    }

    /** apx_nodeInstance_handle_require_ports_disconnected */
    method HandleRequirePortsDisconnected(n: nat, changes: seq<Change>) returns (error: Error)
      requires Keeps(Now()) && n in gatheredRequire && changes == gatheredRequire[n]
      modifies `nodes
      ensures error == NoError && ListsProcessed(old(Now()), nodes, n, |changes|) && Keeps(Processed(Now(), n, |changes|))
    {
      hide Keeps, Processed, ListsProcessed, Receivers, Shape, WithoutReceiver, Ports;
      ghost var w := Now();
      error := NoError;
      NothingProcessed(w, n);
      ListsStart(w, n);
      for id := 0 to |changes|
        invariant error == NoError && Keeps(Processed(Now(), n, id)) && ListsProcessed(w, nodes, n, id)
      {
        var entry := changes[id];
        if entry.count == 0 {
          NothingPending(Now(), n, id);
          ListsSkipped(w, nodes, n, id);
        } else {
          EntryProcessed(w, nodes, n, id);
          if entry.count < -1 {
            return NotImplementedError;
          }
          var p := entry.ports[0];
          error := RemoveReceiver(p, Port(n, Require, id));
          if error != NoError {
            return;
          }
        }
      }
    }

    /** process_disconnected_requester_nodes, for one node */
    method FinishRequester(n: nat)
      requires Inv() && n in gatheredRequire
      modifies `nodes, `gatheredRequire
      ensures Inv() && RequesterGone(old(Now()), Now(), n)
    {
      hide Keeps, MapExact, NoTables, ListsProcessed, Processed, RequesterGone;
      ghost var w := Now();
      var ignored := HandleRequirePortsDisconnected(n, gatheredRequire[n]);
      RequesterFinishedKeeps(Now(), n);
      RequesterNoTables(w, nodes, n, |gatheredRequire[n]|);
      ListsFinished(w, nodes, n);
      nodes := nodes[n := nodes[n].(requireState := Disconnected)];
      gatheredRequire := gatheredRequire - {n};
    }
  }
}
