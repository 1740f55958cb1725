/** Reassembly of fragmented messages (apx/src/file_manager_receiver.c). */
module Receivers {
  import opened Common
  import opened Bytes
  import opened Headers

  const MAX_FILE_SIZE := 0x100_0000

  datatype Message = Message(address: nat, data: seq<byte>)

  /** What has been received of a message; `start` is INVALID_ADDRESS between messages. */
  datatype Reception = Reception(capacity: nat, start: nat, received: seq<byte>) {
    predicate Valid() {
      |received| <= capacity && (start == INVALID_ADDRESS ==> received == [])
    }
  }

  /** apx_fileManagerReceiver_write: the new state, and the message if it is complete. */
  function Receive(r: Reception, address: nat, data: seq<byte>, more: bool): Result<(Reception, Option<Message>)> {
    if address >= INVALID_ADDRESS then Err(InvalidArgumentError)
    else if |data| > MAX_FILE_SIZE then Err(FileTooLargeError)
    else if r.start != INVALID_ADDRESS && (r.start + |r.received|) % U32_MOD != address then Err(InvalidAddressError)
    else if r.capacity == 0 then Err(MissingBufferError)
    else if |r.received| + |data| > r.capacity then Err(BufferFullError)
    else
      var start := if r.start == INVALID_ADDRESS then address else r.start;
      if more then Ok((r.(start := start, received := r.received + data), None))
      else Ok((r.(start := INVALID_ADDRESS, received := []), Some(Message(start, r.received + data))))
  }

  /**
   * Which fragments are taken: those that begin a message while none is being received, and those
   * that continue the current one where it ends, as far as the buffer has room. What was taken is
   * kept behind what was there, and handed over as one message with its last fragment.
   */
  lemma ReceiveExact(r: Reception, address: nat, data: seq<byte>, more: bool)
    ensures Receive(r, address, data, more).Ok? <==>
      && address < 0x7FFF_FFFF && |data| <= 0x100_0000 && 0 < r.capacity && |r.received| + |data| <= r.capacity
      && (r.start == 0x7FFF_FFFF || (r.start + |r.received|) % 0x1_0000_0000 == address)
    ensures Receive(r, address, data, more).Ok? ==>
      var (now, done) := Receive(r, address, data, more).value;
      var start := if r.start == 0x7FFF_FFFF then address else r.start;
      && now.capacity == r.capacity
      && (more ==> done == None && now.start == start && now.received == r.received + data)
      && (!more ==> done == Some(Message(start, r.received + data)) && now.start == 0x7FFF_FFFF && now.received == [])
    ensures Receive(r, address, data, more).Err? ==>
      Receive(r, address, data, more).error
      == if address >= 0x7FFF_FFFF then InvalidArgumentError
         else if |data| > 0x100_0000 then FileTooLargeError
         else if r.start != 0x7FFF_FFFF && (r.start + |r.received|) % 0x1_0000_0000 != address then InvalidAddressError
         else if r.capacity == 0 then MissingBufferError
         else BufferFullError
  {
  }

  /** apx_fileManagerReceiver_t, with its buffer and write position. */
  class Receiver {
    var bufData: array<byte>
    var bufPos: nat
    var startAddress: nat

    ghost predicate Valid()
      reads this
    {
      bufPos <= bufData.Length && (startAddress == INVALID_ADDRESS ==> bufPos == 0)
    }

    ghost function Model(): Reception
      reads this, bufData
      requires Valid()
    {
      Reception(bufData.Length, startAddress, bufData[..bufPos])
    }

    constructor ()
      ensures Valid() && fresh(bufData) && Model() == Reception(CMD_AREA_SIZE, INVALID_ADDRESS, [])
    {
      bufData := new byte[CMD_AREA_SIZE];
      bufPos, startAddress := 0, INVALID_ADDRESS;
    }

    method Reset()
      requires Valid()
      modifies this`bufPos, this`startAddress
      ensures Valid() && Model() == Reception(bufData.Length, INVALID_ADDRESS, [])
    {
      bufPos, startAddress := 0, INVALID_ADDRESS;
    }

    /** Growing the buffer keeps the position but not the bytes: only safe between messages. */
    method Reserve(size: nat) returns (error: Error)
      requires Valid()
      modifies this`bufData
      ensures Valid() && bufPos == old(bufPos) && startAddress == old(startAddress)
      ensures error == if size == 0 then InvalidArgumentError else if size > MAX_FILE_SIZE then FileTooLargeError else NoError
      ensures error == NoError && size > old(bufData.Length) ==> fresh(bufData) && bufData.Length == size
      ensures error != NoError || size <= old(bufData.Length) ==> bufData == old(bufData)
    {
      if size == 0 {
        return InvalidArgumentError;
      }
      if size > MAX_FILE_SIZE {
        return FileTooLargeError;
      }
      if size > bufData.Length {
        bufData := new byte[size];
      }
      return NoError;
    }

    /** What a step of the specification left behind. */
    ghost predicate Became(step: Result<(Reception, Option<Message>)>, error: Error, done: Option<Message>)
      reads this, bufData
    {
      match step
      case Ok((r, m)) => error == NoError && done == m && Valid() && Model() == r
      case Err(x) => error == x && x != NoError && done == None
    }

    method Write(address: nat, data: seq<byte>, more: bool) returns (error: Error, done: Option<Message>)
      requires Valid()
      modifies this`bufPos, this`startAddress, bufData
      ensures Became(Receive(old(Model()), address, data, more), error, done)
      ensures Valid() && (error != NoError ==> Model() == old(Model()))
    {
      done := None;
      if address >= INVALID_ADDRESS {
        return InvalidArgumentError, done;
      }
      if |data| > MAX_FILE_SIZE {
        return FileTooLargeError, done;
      }
      if startAddress == INVALID_ADDRESS {
        error, done := StartNewReception(address, data, more);
      } else {
        error, done := ContinueReception(address, data, more);
      }
    }

    method StartNewReception(address: nat, data: seq<byte>, more: bool) returns (error: Error, done: Option<Message>)
      requires Valid() && startAddress == INVALID_ADDRESS && address < INVALID_ADDRESS && |data| <= MAX_FILE_SIZE
      modifies this`bufPos, this`startAddress, bufData
      ensures Became(Receive(old(Model()), address, data, more), error, done)
      ensures Valid() && (error != NoError ==> Model() == old(Model()))
    {
      if bufData.Length == 0 {
        return MissingBufferError, None;
      }
      if |data| > bufData.Length {
        return BufferFullError, None;
      }
      if |data| > 0 {
        Store(bufData, 0, data);
        assert bufData[..|data|] == data;
        bufPos := |data|;
      }
      startAddress := address;
      assert [] + data == data;
      done := ProcessMoreBit(more);
      return NoError, done;
    }

    method ContinueReception(address: nat, data: seq<byte>, more: bool) returns (error: Error, done: Option<Message>)
      requires Valid() && startAddress != INVALID_ADDRESS && address < INVALID_ADDRESS && |data| <= MAX_FILE_SIZE
      modifies this`bufPos, this`startAddress, bufData
      ensures Became(Receive(old(Model()), address, data, more), error, done)
      ensures Valid() && (error != NoError ==> Model() == old(Model()))
    {
      var expectedAddress := (startAddress + bufPos) % U32_MOD;
      if expectedAddress != address {
        return InvalidAddressError, None;
      }
      if bufData.Length == 0 {
        return MissingBufferError, None;
      }
      if bufPos + |data| > bufData.Length {
        return BufferFullError, None;
      }
      ghost var before := bufData[..bufPos];
      if |data| > 0 {
        Store(bufData, bufPos, data);
        assert bufData[..bufPos + |data|] == before + data;
        bufPos := bufPos + |data|;
      }
      assert bufData[..bufPos] == before + data;
      done := ProcessMoreBit(more);
      return NoError, done;
    }

    method ProcessMoreBit(more: bool) returns (done: Option<Message>)
      requires Valid()
      modifies this`bufPos, this`startAddress
      ensures Valid()
      ensures more ==> done == None && Model() == old(Model())
      ensures !more ==>
        done == Some(Message(old(startAddress), old(bufData[..bufPos])))
        && Model() == Reception(bufData.Length, INVALID_ADDRESS, [])
    {
      done := None;
      if !more {
        done := Some(Message(startAddress, bufData[..bufPos]));
        Reset();
      }
    }
  }
}
