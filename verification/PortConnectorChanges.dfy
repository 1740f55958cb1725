/**
 * Change entries and change tables as the server stores them
 * (apx/src/port_connector_change_entry.c, apx/src/port_connector_change_table.c): a signed
 * count, with the one partner in place and several in an array. They hold the `Change` values
 * that routing works with.
 */
module PortConnectorChanges {
  import opened Common
  import opened Routing

  /** The union inside an entry. */
  datatype EntryData =
    | Single(port: Option<Port>)
    | Many(ports: seq<Port>)

  class ChangeEntry {
    var count: int
    var data: EntryData

    /** One partner is stored in place, several are stored in an array. */
    ghost predicate Valid()
      reads this
    {
      if -1 <= count <= 1 then data.Single? && (count != 0 ==> data.port.Some?)
      else data.Many? && |data.ports| == if count < 0 then -count else count
    }

    ghost function Value(): Change
      requires Valid()
      reads this
    {
      Change(count, if count == 0 then [] else if data.Single? then [data.port.value] else data.ports)
    }

    constructor ()
      ensures Valid() && Value() == NO_CHANGE
    {
      count, data := 0, Single(None);
    }

    /** apx_portConnectorChangeEntry_add_connection */
    method AddConnection(port: Port) returns (error: Error)
      requires Valid()
      modifies this
      ensures Valid()
      ensures old(Value()).count < 0 ==> error == UnsupportedError && Value() == old(Value())
      ensures old(Value()).count >= 0 ==> error == NoError && Value() == Extended(old(Value()), 1, port)
    {
      if count < 0 {
        return UnsupportedError;
      }
      if count == 0 {
        data := Single(Some(port));
      } else if count == 1 {
        data := Many([data.port.value, port]);
      } else {
        data := Many(data.ports + [port]);
      }
      count := count + 1;
      return NoError;
    }

    /** apx_portConnectorChangeEntry_remove_connection */
    method RemoveConnection(port: Port) returns (error: Error)
      requires Valid()
      modifies this
      ensures Valid()
      ensures old(Value()).count > 0 ==> error == UnsupportedError && Value() == old(Value())
      ensures old(Value()).count <= 0 ==> error == NoError && Value() == Extended(old(Value()), -1, port)
    {
      if count > 0 {
        return UnsupportedError;
      }
      if count == 0 {
        data := Single(Some(port));
      } else if count == -1 {
        data := Many([data.port.value, port]);
      } else {
        data := Many(data.ports + [port]);
      }
      count := count - 1;
      return NoError;
    }

    /** apx_portConnectorChangeEntry_get: the partners by index, whatever the sign. */
    method Get(index: int) returns (port: Option<Port>)
      requires Valid()
      ensures port == if 0 <= index < |Value().ports| then Some(Value().ports[index]) else None
    {
      if count == 0 || index < 0 {
        return None;
      }
      if count == 1 || count == -1 {
        return if index == 0 then data.port else None;
      }
      if (count < 0 && index < -count) || (count > 0 && index < count) {
        return Some(data.ports[index]);
      }
      return None;
    }
  }

  class ChangeTable {
    const entries: array<ChangeEntry>

    /** Entries are objects of their own. */
    ghost predicate Valid()
      reads this, entries, entries[..]
    {
      && (forall i :: 0 <= i < entries.Length ==> entries[i].Valid())
      && (forall i, j :: 0 <= i < j < entries.Length ==> entries[i] != entries[j])
    }

    ghost function Value(): seq<Change>
      requires Valid()
      reads this, entries, entries[..]
    {
      seq(entries.Length, i requires 0 <= i < entries.Length && entries[i].Valid() reads this, entries, entries[..] => entries[i].Value())
    }

    constructor (count: nat)
      requires count > 0
      ensures Valid() && fresh(entries) && fresh(entries[..]) && Value() == EmptyTable(count)
    {
      var first := new ChangeEntry();
      var table := new ChangeEntry[count](_ => first);
      entries := table;
      new;
      for i := 1 to count
        invariant forall k :: 0 <= k < i ==> entries[k].Valid() && entries[k].Value() == NO_CHANGE
        invariant forall k :: 0 <= k < count ==> fresh(entries[k])
        invariant forall j, k :: 0 <= j < k < i ==> entries[j] != entries[k]
        invariant entries[0] == first
      {
        var entry := new ChangeEntry();
        entries[i] := entry;
      }
    }

    /** apx_portConnectorChangeTable_connect */
    method Connect(id: nat, remote: Port) returns (error: Error)
      requires Valid()
      modifies entries[..]
      ensures Valid()
      ensures id >= |old(Value())| ==> error == InvalidArgumentError && Value() == old(Value())
      ensures id < |old(Value())| && old(Value())[id].count < 0 ==> error == UnsupportedError && Value() == old(Value())
      ensures id < |old(Value())| && old(Value())[id].count >= 0 ==>
        error == NoError && Value() == old(Value())[id := Extended(old(Value())[id], 1, remote)]
    {
      if id < entries.Length {
        error := entries[id].AddConnection(remote);
        assert forall i :: 0 <= i < entries.Length && i != id ==> unchanged(entries[i]);
      } else {
        error := InvalidArgumentError;
      }
    }

    /** apx_portConnectorChangeTable_disconnect */
    method Disconnect(id: nat, remote: Port) returns (error: Error)
      requires Valid()
      modifies entries[..]
      ensures Valid()
      ensures id >= |old(Value())| ==> error == InvalidArgumentError && Value() == old(Value())
      ensures id < |old(Value())| && old(Value())[id].count > 0 ==> error == UnsupportedError && Value() == old(Value())
      ensures id < |old(Value())| && old(Value())[id].count <= 0 ==>
        error == NoError && Value() == old(Value())[id := Extended(old(Value())[id], -1, remote)]
    {
      if id < entries.Length {
        error := entries[id].RemoveConnection(remote);
        assert forall i :: 0 <= i < entries.Length && i != id ==> unchanged(entries[i]);
      } else {
        error := InvalidArgumentError;
      }
    }

    /** apx_portConnectorChangeTable_get_port */
    method GetPort(id: nat, index: int) returns (port: Option<Port>)
      requires Valid()
      ensures port == if id < |Value()| && 0 <= index < |Value()[id].ports| then Some(Value()[id].ports[index]) else None
    {
      if id < entries.Length {
        port := entries[id].Get(index);
      } else {
        port := None;
      }
    }
  }
}
