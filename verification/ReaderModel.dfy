/**
 * The deserializer of apx/src/deserializer.c as functions on its whole state. Class
 * `Deserialization.Deserializer` is proved against these.
 */
module ReaderModel {
  import opened Common
  import opened Bytes
  import opened DataElements
  import opened Layouts
  import opened Decoding
  import opened WriterModel

  /** apx_vm_readState_t: the value being built and what is known about it. */
  datatype ReadState = ReadState(
    value: Value,
    code: Option<TypeCode>,
    elementSize: nat,
    arrayLen: nat,
    maxArrayLen: nat,
    index: nat,
    dynamicSize: SizeType,
    isLastField: bool,
    fieldName: Name)

  datatype ReadQueue = ReadQueue(isActive: bool, elementSize: nat, maxLength: nat, currentLength: nat, index: nat, sizeType: SizeType)

  const NO_READ_QUEUE := ReadQueue(false, 0, 0, 0, 0, SizeNone)

  datatype Reader = Reader(
    buf: seq<byte>,
    next: nat,
    padded: Option<nat>,
    state: ReadState,
    stack: seq<ReadState>,
    queue: ReadQueue)

  const BLANK := ReadState(VNull, None, 0, 0, 0, 0, SizeNone, false, [])

  /** deserializer_prepare_for_buffer_read: the current state starts afresh. */
  function PrepareRead(r: Reader, code: TypeCode, elementSize: nat): Result<Reader> {
    if r.next > |r.buf| then Err(MissingBufferError)
    else if r.padded.Some? && r.padded.value > |r.buf| then Err(BufferBoundaryError)
    else
      var next := if r.padded.Some? then r.padded.value else r.next;
      Ok(r.(next := next, padded := None, state := BLANK.(code := Some(code), elementSize := elementSize)))
  }

  /** deserializer_prepare_for_array */
  function PrepareReadArray(r: Reader, arrayLength: uint32, t: SizeType): Result<Reader> {
    if arrayLength == 0 then Ok(r)
    else if t == SizeNone then Ok(r.(state := r.state.(arrayLen := arrayLength)))
    else
      match ParseNumber(r.buf, r.next, SizeTypeToSize(t))
      case None => Err(BufferBoundaryError)
      case Some(n) =>
        var next := r.next + SizeTypeToSize(t);
        if n > arrayLength then Err(ValueLengthError)
        else if r.state.elementSize == 0 then Err(AssertionFailed)
        else Ok(r.(next := next, padded := Some(next + Times(arrayLength, r.state.elementSize)),
                   state := r.state.(arrayLen := n, maxArrayLen := arrayLength, dynamicSize := t)))
  }

  /** state_read_scalar_value followed by state_set_scalar_value_from_storage */
  function LoadScalar(r: Reader, c: TypeCode): Result<(Value, Reader)> {
    if r.next + TypeSize(c) > |r.buf| then Err(BufferBoundaryError)
    else Ok((ReadScalar(c, r.buf[r.next..r.next + TypeSize(c)]), r.(next := r.next + TypeSize(c))))
  }

  /** The loading loop of deserializer_unpack_array_of_scalar. */
  function LoadItems(r: Reader, c: TypeCode, n: nat): Result<(seq<Value>, Reader)>
    decreases n
  {
    if n == 0 then Ok(([], r)) else
      var (v, r1) :- LoadScalar(r, c);
      var (rest, r2) :- LoadItems(r1, c, n - 1);
      Ok(([v] + rest, r2))
  }

  /** deserializer_unpack_string */
  function LoadString(r: Reader, n: nat, isDynamic: bool): Result<(Value, Reader)> {
    if isDynamic then
      if r.next + n > |r.buf| then Err(BufferBoundaryError)
      else Ok((VStr(r.buf[r.next..r.next + n]), r.(next := r.next + n)))
    else
      match ReadFixedString(r.buf, r.next, n)
      case None => Err(BufferBoundaryError)
      case Some(v) => Ok((v, r.(next := r.next + n)))
  }

  /** deserializer_unpack_byte_array_internal */
  function LoadBytes(r: Reader, n: nat): Result<(Value, Reader)> {
    if r.next + n > |r.buf| then Err(BufferBoundaryError)
    else Ok((VBytes(r.buf[r.next..r.next + n]), r.(next := r.next + n)))
  }

  /** The state of a record of which no field has been read. */
  const BLANK_RECORD := BLANK.(value := VRecord(map[]), code := Some(Record))

  function EnterRead(r: Reader, state: ReadState): Reader {
    r.(stack := r.stack + [r.state], state := state)
  }

  /** deserializer_unpack_record_value */
  function StartRecord(r: Reader): Reader {
    if r.state.arrayLen > 0
    then EnterRead(r.(state := r.state.(value := VArray([]))), BLANK_RECORD)
    else r.(state := r.state.(value := VRecord(map[])))
  }

  /** Moving a finished child value into the parent state above it. */
  function Fold(parent: ReadState, child: Value): Result<ReadState> {
    if parent.code != Some(Record) then Err(NotImplementedError)
    else match parent.value
         case VRecord(m) =>
           if parent.fieldName == [] then Err(NameMissingError)
           else if child.VNull? then Err(ValueTypeError)
           else Ok(parent.(value := VRecord(m[parent.fieldName := child])))
         case VArray(items) =>
           if child.VNull? then Err(ValueTypeError) else Ok(parent.(value := VArray(items + [child])))
         case _ => Err(NotImplementedError)
  }

  /** deserializer_pop_state: fold into the parent, and on while the parent's last field is done. */
  function FoldPop(state: ReadState, stack: seq<ReadState>): Result<(ReadState, seq<ReadState>)>
    decreases |stack|
  {
    if |stack| == 0 then Ok((state, stack)) else
      var parent :- Fold(stack[|stack| - 1], state.value);
      var rest := stack[..|stack| - 1];
      if parent.isLastField then FoldPop(parent, rest) else Ok((parent, rest))
  }

  function PopRead(r: Reader): Result<Reader> {
    var (state, stack) :- FoldPop(r.state, r.stack);
    Ok(r.(state := state, stack := stack))
  }

  /** The choice of reader inside deserializer_unpack_value, for values that are not records. */
  function LoadByType(r: Reader, c: TypeCode): Result<(Value, Reader)> {
    var n := r.state.arrayLen;
    if n == 0 then
      if IsNumberOrBool(c) || c.Char? || c.Byte? then LoadScalar(r, c) else Err(NotImplementedError)
    else if IsNumberOrBool(c) then
      var (items, r1) :- LoadItems(r, c, n);
      Ok((VArray(items), r1))
    else if IsCharType(c) then LoadString(r, n, r.state.dynamicSize != SizeNone)
    else if c.Byte? then LoadBytes(r, n)
    else Err(NotImplementedError)
  }

  /** deserializer_unpack_value */
  function UnpackValue(r: Reader, c: TypeCode, arrayLength: uint32, t: SizeType): Result<Reader> {
    var r1 :- PrepareReadArray(r, arrayLength, t);
    if r1.queue.isActive && r1.queue.index >= r1.queue.currentLength then Err(IndexError)
    else if r1.state.arrayLen == 0 && r1.state.dynamicSize != SizeNone then Err(InvalidArgumentError)
    else if c.Record? then Ok(StartRecord(r1))
    else
      var (v, r2) :- LoadByType(r1, c);
      PopRead(r2.(state := r2.state.(value := v)))
  }

  /** The apx_vm_deserializer_unpack_* entry points; char8 is read as char. */
  function Unpack(r: Reader, c: TypeCode, arrayLength: uint32, t: SizeType): Result<Reader> {
    var code := if c.Char8? then Char else c;
    var r1 :- PrepareRead(r, code, TypeSize(code));
    UnpackValue(r1, code, arrayLength, t)
  }

  /** apx_vm_deserializer_record_select */
  function SelectRead(r: Reader, key: Name, isLast: bool): Result<Reader> {
    if !r.state.value.VRecord? then Err(ValueTypeError)
    else Ok(EnterRead(r.(state := r.state.(fieldName := key, isLastField := isLast)), BLANK))
  }

  /** apx_vm_deserializer_array_next */
  function NextRead(r: Reader): Result<(Reader, bool)> {
    if !r.state.value.VArray? then Err(ValueTypeError)
    else if r.state.arrayLen == 0 then Err(InternalError)
    else
      var r1 := r.(state := r.state.(index := r.state.index + 1));
      if r1.state.index == r.state.arrayLen then Ok((r1, true))
      else if r.state.code != Some(Record) then Err(NotImplementedError)
      else Ok((EnterRead(r1, BLANK_RECORD), false))
  }

  /**
   * One scalar of apx_vm_deserializer_check_value_range_*: 32-bit unsigned values and limits
   * are handed to the signed comparison, 64-bit ones are first converted to a signed value.
   */
  function CheckReadScalar(kind: CheckKind, v: Value, lower: int, upper: int): Error {
    match kind
    case CheckInt32 =>
      if ReadAs(Int32, v).Err? then ReadAs(Int32, v).error else InRange(CheckInt32, v, lower, upper)
    case CheckUInt32 =>
      if ReadAs(UInt32, v).Err? then ReadAs(UInt32, v).error
      else if v.VInt? && InRangeI32(Wrap32(v.n), Wrap32(lower), Wrap32(upper)) then NoError else ValueRangeError
    case CheckInt64 =>
      if ReadAs(Int64, v).Err? then ReadAs(Int64, v).error else InRange(CheckInt64, v, lower, upper)
    case CheckUInt64 =>
      if ReadAs(Int64, v).Err? then ReadAs(Int64, v).error
      else InRange(CheckUInt64, if v.VInt? then VInt(v.n % U64_MOD) else v, lower, upper)
  }

  /** One array item: 64-bit items are stored as 32-bit ones, which the next assert refuses. */
  function CheckReadItem(kind: CheckKind, v: Value, lower: int, upper: int): Error {
    if !v.IsScalar() then ValueTypeError
    else if kind.CheckInt64? || kind.CheckUInt64? then
      if ReadAs(Int32, v).Err? then ReadAs(Int32, v).error else AssertionFailed
    else CheckReadScalar(kind, v, lower, upper)
  }

  function CheckReadItems(kind: CheckKind, items: seq<Value>, lower: int, upper: int): Error {
    if |items| == 0 then NoError
    else if CheckReadItem(kind, items[0], lower, upper) != NoError then CheckReadItem(kind, items[0], lower, upper)
    else CheckReadItems(kind, items[1..], lower, upper)
  }

  function CheckReadValue(kind: CheckKind, v: Value, lower: int, upper: int): Error {
    match v
    case VArray(items) => CheckReadItems(kind, items, lower, upper)
    case VRecord(_) | VNull => UnsupportedError
    case _ => CheckReadScalar(kind, v, lower, upper)
  }

  /** apx_vm_deserializer_queued_read_begin */
  function QueueReadBegin(r: Reader, elementSize: uint32, maxLength: uint32): Result<Reader> {
    if elementSize == 0 || maxLength == 0 then Err(InvalidArgumentError) else
      var t := SizeToSizeType(maxLength);
      match ParseNumber(r.buf, r.next, SizeTypeToSize(t))
      case None => Err(BufferBoundaryError)
      case Some(n) => Ok(r.(next := r.next + SizeTypeToSize(t), queue := ReadQueue(true, elementSize, maxLength, n, 0, t)))
  }

  /** apx_vm_deserializer_queued_read_next; the flag tells whether that was the last element. */
  function QueueReadNext(r: Reader): Result<(Reader, bool)> {
    if !r.queue.isActive then Err(InternalError) else
      var i := r.queue.index + 1;
      var isLast := i >= r.queue.currentLength;
      Ok((r.(queue := r.queue.(index := i, isActive := !isLast)), isLast))
  }
}
