/**
 * The serializer of apx/src/serializer.c as functions on its whole state: what each entry
 * point does, branch by branch. Class `Serialization.Serializer` is proved against these.
 */
module WriterModel {
  import opened Common
  import opened Bytes
  import opened DataElements
  import opened Layouts
  import opened Decoding

  datatype RangeState = NotChecked | RangeOk

  /** apx_vm_writeState_t: the value being packed and what is known about it. */
  datatype WriteState = WriteState(
    value: Value,
    code: Option<TypeCode>,
    elementSize: nat,
    arrayLen: nat,
    maxArrayLen: nat,
    index: nat,
    dynamicSize: SizeType,
    rangeCheck: RangeState,
    isLastField: bool,
    fieldName: Name)

  datatype WriteQueue = WriteQueue(isActive: bool, elementSize: nat, lengthAt: nat, maxLength: nat, currentLength: nat, sizeType: SizeType)

  const NO_WRITE_QUEUE := WriteQueue(false, 0, 0, 0, 0, SizeNone)

  /** `next` and `padded` are offsets into the buffer; `padded` is a pending jump over padding. */
  datatype Writer = Writer(
    buf: seq<byte>,
    next: nat,
    padded: Option<nat>,
    state: WriteState,
    stack: seq<WriteState>,
    queue: WriteQueue)

  /** state_set_value: a state that knows only its value. */
  function Fresh(v: Value): WriteState {
    WriteState(v, None, 0, 0, 0, 0, SizeNone, NotChecked, false, [])
  }

  /** serializer_prepare_for_buffer_write */
  function PrepareWrite(w: Writer, code: TypeCode, elementSize: nat): Result<Writer> {
    if w.next > |w.buf| then Err(MissingBufferError)
    else if w.padded.Some? && w.padded.value > |w.buf| then Err(BufferBoundaryError)
    else
      var next := if w.padded.Some? then w.padded.value else w.next;
      Ok(w.(next := next, padded := None, state := w.state.(code := Some(code), elementSize := elementSize)))
  }

  /** state_determine_array_length_from_value: a plain scalar leaves the length as it was. */
  function LengthFromValue(s: WriteState): Result<nat> {
    match s.value
    case VStr(str) => Ok(|str|)
    case VBytes(bs) => Ok(|bs|)
    case VArray(items) => Ok(|items|)
    case VInt(_) | VBool(_) | VChar(_) => Ok(s.arrayLen)
    case VRecord(_) | VNull => Err(ValueTypeError)
  }

  /** serializer_prepare_for_array */
  function PrepareArray(w: Writer, arrayLength: uint32, t: SizeType): Result<Writer> {
    if arrayLength == 0 then Ok(w)
    else if t == SizeNone then Ok(w.(state := w.state.(arrayLen := arrayLength)))
    else
      var n :- LengthFromValue(w.state);
      if n > arrayLength then Err(ValueLengthError)
      else if w.state.elementSize == 0 then Err(AssertionFailed)
      else
        var padded := w.next + SizeTypeToSize(t) + Times(arrayLength, w.state.elementSize) % U32_MOD;
        if padded > |w.buf| then Err(BufferBoundaryError)
        else Ok(w.(padded := Some(padded),
                   state := w.state.(arrayLen := n, maxArrayLen := arrayLength, dynamicSize := t)))
  }

  /** state_read_scalar_value_internal: the conversion the scalar storage needs. */
  function ReadAs(c: TypeCode, v: Value): Result<Value> {
    match c
    case UInt8 | UInt16 | UInt32 => ReadInt(v, 0, U32_MAX)
    case UInt64 => ReadInt(v, 0, 0xFFFF_FFFF_FFFF_FFFF)
    case Int8 | Int16 | Int32 => ReadInt(v, I32_MIN, I32_MAX)
    case Int64 => ReadInt(v, -0x8000_0000_0000_0000, 0x7FFF_FFFF_FFFF_FFFF)
    case Bool => if v.VBool? then Ok(v) else Err(ValueConversionError)
    case _ => Err(UnsupportedError)
  }

  function ReadInt(v: Value, lower: int, upper: int): Result<Value> {
    if v.VInt? && lower <= v.n <= upper then Ok(v) else Err(ValueConversionError)
  }

  /** state_read_scalar_array_value */
  function ReadItemAs(c: TypeCode, v: Value): Result<Value> {
    if v.IsScalar() then ReadAs(c, v) else Err(ValueTypeError)
  }

  /** state_default_range_check_scalar */
  function DefaultRange(c: TypeCode, v: Value): Error {
    if c.Bool? || (v.VInt? && TypeMin(c) <= v.n <= TypeMax(c)) then NoError else ValueRangeError
  }

  /** The array loop of state_default_range_check_value: only range errors stop it. */
  function DefaultRangeItems(c: TypeCode, items: seq<Value>, last: Error): Error {
    if |items| == 0 then last else
      match ReadItemAs(c, items[0])
      case Err(error) => DefaultRangeItems(c, items[1..], error)
      case Ok(v) =>
        if DefaultRange(c, v) != NoError then DefaultRange(c, v)
        else DefaultRangeItems(c, items[1..], NoError)
  }

  /** state_default_range_check_value */
  function DefaultRangeValue(c: TypeCode, v: Value): Error {
    match v
    case VArray(items) => DefaultRangeItems(c, items, NoError)
    case VRecord(_) | VNull => UnsupportedError
    case _ =>
      match ReadAs(c, v)
      case Err(error) => error
      case Ok(x) => DefaultRange(c, x)
  }

  /** write_dynamic_value_to_buffer */
  function WriteLength(w: Writer, value: nat, size: nat): Result<Writer> {
    if size != 1 && size != 2 && size != 4 then Err(InternalError)
    else if value >= Pow256(size) then Err(LengthError)
    else if w.next + size > |w.buf| then Err(BufferFullError)
    else Ok(w.(buf := WriteAt(w.buf, w.next, PackLE(value, size)), next := w.next + size))
  }

  /** serializer_pack_scalar_value_internal */
  function StoreScalar(w: Writer, c: TypeCode, v: Value): Result<Writer> {
    if w.next + TypeSize(c) > |w.buf| then Err(BufferBoundaryError)
    else Ok(w.(buf := WriteAt(w.buf, w.next, ScalarBytes(c, v)), next := w.next + TypeSize(c)))
  }

  /** serializer_pack_scalar_value */
  function PackScalar(w: Writer, c: TypeCode): Result<Writer> {
    if !w.state.value.IsScalar() then Err(ValueTypeError)
    else
      var error := if w.state.rangeCheck.NotChecked? then DefaultRangeValue(c, w.state.value) else NoError;
      if error != NoError then Err(error) else StoreScalar(w, c, w.state.value)
  }

  /** The storing loop of serializer_pack_array_of_scalar. */
  function StoreItems(w: Writer, c: TypeCode, items: seq<Value>): Result<Writer>
    decreases |items|
  {
    if |items| == 0 then Ok(w) else
      var v :- ReadItemAs(c, items[0]);
      var w1 :- StoreScalar(w, c, v);
      StoreItems(w1, c, items[1..])
  }

  /** serializer_pack_array_of_scalar */
  function PackScalars(w: Writer, c: TypeCode): Result<Writer> {
    match w.state.value
    case VArray(items) =>
      if w.state.dynamicSize == SizeNone && |items| != w.state.arrayLen then Err(ValueLengthError) else
        var error := if w.state.rangeCheck.NotChecked? then DefaultRangeItems(c, items, NoError) else NoError;
        if error != NoError then Err(error) else StoreItems(w, c, items)
    case _ => Err(ValueTypeError)
  }

  /** serializer_pack_string: the target is cleared first, then the text is copied. */
  function PackString(w: Writer, c: TypeCode): Result<Writer> {
    if !w.state.value.IsScalar() then Err(ValueTypeError)
    else if !w.state.value.VStr? then Err(ValueConversionError)
    else
      var s, target := w.state.value.s, Times(w.state.arrayLen, w.state.elementSize);
      if w.next + target > |w.buf| then Err(BufferBoundaryError)
      else if !c.Char? && !c.Char8? then Err(NotImplementedError)
      else if |s| > target then Err(BufferBoundaryError)
      else Ok(w.(buf := WriteAt(WriteAt(w.buf, w.next, Zeros(target)), w.next, s), next := w.next + target))
  }

  /** serializer_pack_byte_array_internal */
  function PackBytes(w: Writer): Result<Writer> {
    match w.state.value
    case VBytes(bs) =>
      var n := w.state.arrayLen;
      if w.state.dynamicSize == SizeNone && n > 0 && n != |bs| then Err(ValueLengthError)
      else if w.next + n > |w.buf| then Err(BufferBoundaryError)
      else if n > |bs| then Err(AssertionFailed)
      else Ok(w.(buf := WriteAt(w.buf, w.next, bs[..n]), next := w.next + n))
    case _ => Err(ValueTypeError)
  }

  /** serializer_enter_new_child_state followed by state_set_value */
  function Enter(w: Writer, v: Value): Writer {
    w.(stack := w.stack + [w.state], state := Fresh(v))
  }

  /** serializer_pack_record_value: an array of records goes straight to its first item. */
  function PackRecord(w: Writer): Result<Writer> {
    var n := w.state.arrayLen;
    if n == 0 then
      if w.state.value.VRecord? then Ok(w) else Err(ValueTypeError)
    else match w.state.value
         case VArray(items) =>
           if w.state.dynamicSize == SizeNone && |items| != n then Err(ValueLengthError)
           else if w.state.index != 0 then Err(AssertionFailed)
           else if |items| == 0 then Err(NullPtrError)
           else if items[0].VRecord? then Ok(Enter(w, items[0]))
           else Err(ValueTypeError)
         case _ => Err(ValueTypeError)
  }

  /** serializer_pop_state: leaving the last field of a record also leaves the record. */
  function Pop(state: WriteState, stack: seq<WriteState>): (WriteState, seq<WriteState>)
    decreases |stack|
  {
    if |stack| == 0 then (state, stack) else
      var parent, rest := stack[|stack| - 1], stack[..|stack| - 1];
      if parent.isLastField then Pop(parent, rest) else (parent, rest)
  }

  function PopState(w: Writer): Writer {
    var (state, stack) := Pop(w.state, w.stack);
    w.(state := state, stack := stack)
  }

  /** The choice of packer inside serializer_pack_value. */
  function PackByType(w: Writer, c: TypeCode): Result<Writer> {
    if w.state.arrayLen == 0 then
      if w.state.dynamicSize != SizeNone then WriteLength(w, 0, SizeTypeToSize(w.state.dynamicSize))
      else if IsNumberOrBool(c) then PackScalar(w, c)
      else if c.Record? then PackRecord(w)
      else Err(NotImplementedError)
    else
      var w1 :- if w.state.dynamicSize != SizeNone
                then WriteLength(w, w.state.arrayLen, SizeTypeToSize(w.state.dynamicSize)) else Ok(w);
      if IsNumberOrBool(c) then PackScalars(w1, c)
      else if IsCharType(c) then PackString(w1, c)
      else if c.Byte? then PackBytes(w1)
      else PackRecord(w1)
  }

  /** Does a packed value leave its state? Records stay until their last field is done. */
  predicate Leaves(w: Writer, c: TypeCode) {
    !c.Record? || (w.state.arrayLen == 0 && w.state.dynamicSize != SizeNone)
  }

  /** serializer_pack_value */
  function PackValue(w: Writer, c: TypeCode): Result<Writer> {
    if w.queue.isActive && w.queue.currentLength >= w.queue.maxLength then Err(QueueFullError) else
      var w1 :- PackByType(w, c);
      var w2 := if w1.queue.isActive then w1.(queue := w1.queue.(currentLength := w1.queue.currentLength + 1)) else w1;
      Ok(if Leaves(w, c) then PopState(w2) else w2)
  }

  /** The apx_vm_serializer_pack_* entry points; a byte array has at least length 1. */
  function Pack(w: Writer, c: TypeCode, arrayLength: uint32, t: SizeType): Result<Writer> {
    var n := if c.Byte? && arrayLength == 0 then 1 else arrayLength;
    var w1 :- PrepareWrite(w, c, TypeSize(c));
    var w2 :- PrepareArray(w1, n, t);
    PackValue(w2, c)
  }

  /** apx_vm_serializer_record_select */
  function SelectField(w: Writer, key: Name, isLast: bool): Result<Writer> {
    match w.state.value
    case VRecord(m) =>
      if key !in m then Err(NotFoundError)
      else Ok(Enter(w.(state := w.state.(fieldName := key, isLastField := isLast)), m[key]))
    case _ => Err(ValueTypeError)
  }

  /** apx_vm_serializer_array_next; the flag tells whether the last item is done. */
  function NextItem(w: Writer): Result<(Writer, bool)> {
    match w.state.value
    case VArray(items) =>
      if w.state.arrayLen == 0 then Err(InternalError) else
        var w1 := w.(state := w.state.(index := w.state.index + 1));
        if w1.state.index == w.state.arrayLen then Ok((w1, true))
        else if w.state.code != Some(Record) then Err(NotImplementedError)
        else if w1.state.index >= |items| then Err(NullPtrError)
        else Ok((Enter(w1, items[w1.state.index]), false))
    case _ => Err(ValueTypeError)
  }

  function CheckType(kind: CheckKind): TypeCode {
    match kind
    case CheckInt32 => Int32
    case CheckUInt32 => UInt32
    case CheckInt64 => Int64
    case CheckUInt64 => UInt64
  }

  /** apx_vm_value_in_range_*: a limit at the end of the type's range is not compared. */
  function InRange(kind: CheckKind, v: Value, lower: int, upper: int): Error {
    var c := CheckType(kind);
    if v.VInt? && !((lower > TypeMin(c) && v.n < lower) || (upper < TypeMax(c) && v.n > upper))
    then NoError else ValueRangeError
  }

  function CheckItems(kind: CheckKind, items: seq<Value>, lower: int, upper: int): Error {
    if |items| == 0 then NoError else
      match ReadItemAs(CheckType(kind), items[0])
      case Err(error) => error
      case Ok(v) =>
        if InRange(kind, v, lower, upper) != NoError then InRange(kind, v, lower, upper)
        else CheckItems(kind, items[1..], lower, upper)
  }

  function CheckValue(kind: CheckKind, v: Value, lower: int, upper: int): Error {
    match v
    case VArray(items) => CheckItems(kind, items, lower, upper)
    case VRecord(_) | VNull => UnsupportedError
    case _ =>
      match ReadAs(CheckType(kind), v)
      case Err(error) => error
      case Ok(x) => InRange(kind, x, lower, upper)
  }

  /** apx_vm_serializer_check_value_range_* */
  function CheckRange(w: Writer, kind: CheckKind, lower: int, upper: int): Result<Writer> {
    var error := CheckValue(kind, w.state.value, lower, upper);
    if error != NoError then Err(error)
    else Ok(w.(state := w.state.(rangeCheck := RangeOk)))
  }

  /** apx_vm_serializer_queued_write_begin, emptying the queue */
  function QueueBegin(w: Writer, elementSize: nat, maxLength: uint32): Writer {
    var t := SizeToSizeType(maxLength);
    w.(queue := WriteQueue(true, elementSize, w.next, maxLength, 0, t), next := w.next + SizeTypeToSize(t))
  }

  /** apx_vm_serializer_queued_write_end */
  function QueueEnd(w: Writer): Result<Writer> {
    var size := SizeTypeToSize(w.queue.sizeType);
    if !w.queue.isActive then Err(InternalError)
    else if size == 0 then Err(InternalError)
    else if w.queue.currentLength >= Pow256(size) then Err(LengthError)
    else if w.queue.lengthAt + size > |w.buf| then Err(AssertionFailed)
    else Ok(w.(buf := WriteAt(w.buf, w.queue.lengthAt, PackLE(w.queue.currentLength, size)),
               queue := w.queue.(isActive := false)))
  }
}
