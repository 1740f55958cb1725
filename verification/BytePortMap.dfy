/**
 * Which port owns a byte of a node's port data: the running offsets that the node manager
 * assigns (apx/src/node_manager.c) and the byte to port map (apx/src/byte_port_map.c).
 */
module BytePortMaps {
  import opened Common
  import opened Routing

  /** The port whose data holds the byte at `offset`. */
  function PortAt(ports: seq<PortInfo>, offset: nat): Option<nat> {
    if |ports| == 0 || offset >= TotalSize(ports) then None
    else if offset >= TotalSize(ports[..|ports| - 1]) then Some(|ports| - 1)
    else PortAt(ports[..|ports| - 1], offset)
  }

  lemma PlacedFront(ports: seq<PortInfo>)
    requires Placed(ports) && |ports| > 0
    ensures Placed(ports[..|ports| - 1])
  {
    var front := ports[..|ports| - 1];
    forall i | 0 <= i < |front| ensures front[i].size > 0 && front[i].offset == TotalSize(front[..i]) {
      assert front[..i] == ports[..i];
    }
  }

  /** It is the one port whose range holds the byte; bytes past the data have none. */
  lemma {:induction false} PortAtExact(ports: seq<PortInfo>, offset: nat, i: nat)
    requires Placed(ports) && i < |ports|
    ensures PortAt(ports, offset) == Some(i) <==> ports[i].offset <= offset < ports[i].offset + ports[i].size
    ensures PortAt(ports, offset) == None <==> offset >= TotalSize(ports)
    decreases |ports|
  {
    var last := |ports| - 1;
    PlacedFront(ports);
    PortAtBound(ports[..last], offset);
    if i < last {
      PortAtExact(ports[..last], offset, i);
      assert ports[..i] == ports[..last][..i];
      TotalSizeGrows(ports, i, last);
    } else if last > 0 {
      PortAtExact(ports[..last], offset, 0);
    }
  }

  lemma {:induction false} PortAtBound(ports: seq<PortInfo>, offset: nat)
    ensures PortAt(ports, offset).Some? ==> PortAt(ports, offset).value < |ports|
    decreases |ports|
  {
    if |ports| > 0 {
      PortAtBound(ports[..|ports| - 1], offset);
    }
  }

  /** The bytes of the first ports do not depend on the ports after them. */
  lemma {:induction false} PortAtPrefix(ports: seq<PortInfo>, k: nat, offset: nat)
    requires k <= |ports| && offset < TotalSize(ports[..k])
    ensures PortAt(ports, offset) == PortAt(ports[..k], offset)
    decreases |ports|
  {
    if k < |ports| {
      var front := ports[..|ports| - 1];
      assert front[..k] == ports[..k];
      PortAtPrefix(front, k, offset);
      TotalSizePrefix(front, k);
      TotalSizePrefix(ports, |ports| - 1);
    } else {
      assert ports[..k] == ports;
    }
  }

  lemma {:induction false} TotalSizePrefix(ports: seq<PortInfo>, k: nat)
    requires k <= |ports|
    ensures TotalSize(ports[..k]) <= TotalSize(ports)
  {
    if k < |ports| {
      TotalSizePrefix(ports[..|ports| - 1], k);
      assert ports[..|ports| - 1][..k] == ports[..k];
    } else {
      assert ports[..k] == ports;
    }
  }

  lemma NothingPlaced()
    ensures Placed([]) && TotalSize([]) == 0
  {
  }

  lemma PlacedNext(ports: seq<PortInfo>, port: PortInfo)
    requires Placed(ports) && port.size > 0 && port.offset == TotalSize(ports)
    ensures Placed(ports + [port]) && TotalSize(ports + [port]) == TotalSize(ports) + port.size
  {
    hide TotalSize;
    var more := ports + [port];
    forall i | 0 <= i < |more| ensures more[i].size > 0 && more[i].offset == TotalSize(more[..i]) {
      if i < |ports| {
        assert more[..i] == ports[..i];
      } else {
        assert more[..i] == ports;
      }
    }
    TotalSizeLast(ports, port);
  }

  lemma TotalSizeLast(ports: seq<PortInfo>, port: PortInfo)
    ensures TotalSize(ports + [port]) == TotalSize(ports) + port.size
  {
    assert (ports + [port])[..|ports|] == ports;
  }

  /**
   * The port loops of create_ports_on_node_instance: each port begins where the previous one
   * ended. `declared` gives each port's signature and data size.
   */
  method PlacePorts(declared: seq<(Signature, nat)>) returns (ports: seq<PortInfo>, total: nat)
    requires forall i :: 0 <= i < |declared| ==> declared[i].1 > 0
    ensures |ports| == |declared| && Placed(ports) && total == TotalSize(ports)
    ensures forall i :: 0 <= i < |ports| ==> ports[i].signature == declared[i].0 && ports[i].size == declared[i].1
  {
    hide TotalSize, Placed;
    NothingPlaced();
    ports, total := [], 0;
    for id := 0 to |declared|
      invariant |ports| == id && Placed(ports) && total == TotalSize(ports)
      invariant forall i :: 0 <= i < id ==> ports[i].signature == declared[i].0 && ports[i].size == declared[i].1
    {
      PlacedNext(ports, PortInfo(declared[id].0, declared[id].1, total));
      ports := ports + [PortInfo(declared[id].0, declared[id].1, total)];
      total := total + declared[id].1;
    }
  }

  /** apx_bytePortMap_t */
  class BytePortMap {
    const mapData: array<nat>

    ghost predicate Valid(ports: seq<PortInfo>)
      reads this, mapData
    {
      mapData.Length == TotalSize(ports) && forall offset :: 0 <= offset < mapData.Length ==> PortAt(ports, offset) == Some(mapData[offset])
    }

    /** apx_bytePortMap_build, whose assertion that the ports fill the map is the precondition */
    constructor (ports: seq<PortInfo>, mapLength: nat)
      requires mapLength == TotalSize(ports)
      ensures Valid(ports) && fresh(mapData)
    {
      mapData := new nat[mapLength];
      new;
      var next := 0;
      assert ports[..|ports|] == ports;
      for id := 0 to |ports|
        invariant next == TotalSize(ports[..id])
        invariant next <= mapLength
        invariant forall offset :: 0 <= offset < next ==> PortAt(ports, offset) == Some(mapData[offset])
      {
        TotalSizePrefix(ports, id + 1);
        assert ports[..id + 1][..id] == ports[..id];
        for i := 0 to ports[id].size
          invariant forall offset :: 0 <= offset < next + i ==> PortAt(ports, offset) == Some(mapData[offset])
        {
          PortAtPrefix(ports, id + 1, next + i);
          mapData[next + i] := id;
        }
        next := next + ports[id].size;
      }
    }

    /** apx_bytePortMap_lookup, with `None` for APX_INVALID_PORT_ID */
    method Lookup(ghost ports: seq<PortInfo>, offset: nat) returns (id: Option<nat>)
      requires Valid(ports)
      ensures id == PortAt(ports, offset)
    {
      if offset < mapData.Length {
        return Some(mapData[offset]);
      }
      return None;
    }

    /** apx_bytePortMap_length */
    function Length(ghost ports: seq<PortInfo>): (r: nat)
      requires Valid(ports)
      reads this, mapData
      ensures r == TotalSize(ports)
    {
      mapData.Length
    }
  }
}
