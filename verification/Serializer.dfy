/**
 * The serializer object of apx/src/serializer.c: it writes in place into a caller's buffer.
 * Every method is proved to do to the object's state what `WriterModel` says.
 */
module Serialization {
  import opened Common
  import opened Bytes
  import opened DataElements
  import opened Layouts
  import opened Decoding
  import opened WriterModel

  /** An error code and a state that say what `spec` says. */
  ghost predicate Agrees(spec: Result<Writer>, error: Error, now: Writer) {
    match spec
    case Ok(w) => error == NoError && now == w
    case Err(x) => error == x && x != NoError
  }

  // ---------- loops that only read ----------

  /** The array loop of state_default_range_check_value. */
  method DefaultRangeCheckItems(c: TypeCode, items: seq<Value>) returns (error: Error)
    ensures error == DefaultRangeItems(c, items, NoError)
  {
    hide ReadItemAs, DefaultRange;
    error := NoError;
    assert items[0..] == items;
    for i := 0 to |items|
      invariant DefaultRangeItems(c, items, NoError) == DefaultRangeItems(c, items[i..], error)
    {
      assert items[i..][0] == items[i] && items[i..][1..] == items[i + 1..];
      var x := ReadItemAs(c, items[i]);
      match x {
        case Err(e) =>
          error := e;
        case Ok(v) =>
          error := DefaultRange(c, v);
          if error != NoError {
            return;
          }
      }
    }
  }

  method DefaultRangeCheck(c: TypeCode, v: Value) returns (error: Error)
    ensures error == DefaultRangeValue(c, v)
  {
    match v {
      case VArray(items) => error := DefaultRangeCheckItems(c, items);
      case VRecord(_) | VNull => error := UnsupportedError;
      case _ =>
        match ReadAs(c, v) {
          case Err(x) => error := x;
          case Ok(x) => error := DefaultRange(c, x);
        }
    }
  }

  /** The array loops of apx_vm_serializer_check_value_range_*. */
  method RangeCheckItems(kind: CheckKind, items: seq<Value>, lower: int, upper: int) returns (error: Error)
    ensures error == CheckItems(kind, items, lower, upper)
  {
    hide ReadItemAs, InRange;
    error := NoError;
    assert items[0..] == items;
    for i := 0 to |items|
      invariant error == NoError
      invariant CheckItems(kind, items, lower, upper) == CheckItems(kind, items[i..], lower, upper)
    {
      assert items[i..][0] == items[i] && items[i..][1..] == items[i + 1..];
      var x := ReadItemAs(CheckType(kind), items[i]);
      if x.Err? {
        return x.error;
      }
      error := InRange(kind, x.value, lower, upper);
      if error != NoError {
        return;
      }
    }
  }

  /** apx_vm_serializer_t */
  class Serializer {
    var buffer: array<byte>
    var next: nat
    var padded: Option<nat>
    var state: WriteState
    var stack: seq<WriteState>
    var queue: WriteQueue

    ghost function Model(): Writer
      reads this, buffer
    {
      Writer(buffer[..], next, padded, state, stack, queue)
    }

    constructor ()
      ensures fresh(buffer) && Model() == Writer([], 0, None, Fresh(VNull), [], NO_WRITE_QUEUE)
    {
      buffer := new byte[0];
      next, padded, state, stack, queue := 0, None, Fresh(VNull), [], NO_WRITE_QUEUE;
    }

    method SetWriteBuffer(data: array<byte>) returns (error: Error)
      modifies this
      ensures error == if data.Length > 0 then NoError else InvalidArgumentError
      ensures error == NoError ==>
        buffer == data && Model() == old(Model()).(buf := data[..], next := 0, padded := None)
      ensures error != NoError ==> buffer == old(buffer) && Model() == old(Model())
    {
      if data.Length == 0 {
        return InvalidArgumentError;
      }
      buffer, next, padded := data, 0, None;
      return NoError;
    }

    method SetValue(v: Value)
      modifies this`state
      ensures Model() == old(Model()).(state := Fresh(v))
    {
      state := Fresh(v);
    }

    /** apx_vm_serializer_reset: back to the outermost state, with no value. */
    method Reset()
      modifies this`state, this`stack
      ensures stack == []
      ensures state == (if old(stack) == [] then old(state) else old(stack[0])).(value := VNull)
    {
      while |stack| > 0
        invariant |stack| <= |old(stack)| && stack == old(stack)[..|stack|]
        invariant state == if |stack| == |old(stack)| then old(state) else old(stack)[|stack|]
      {
        state := stack[|stack| - 1];
        stack := stack[..|stack| - 1];
      }
      state := state.(value := VNull);
    }

    method PrepareForBufferWrite(code: TypeCode, elementSize: nat) returns (error: Error)
      modifies this
      ensures buffer == old(buffer)
      ensures Agrees(PrepareWrite(old(Model()), code, elementSize), error, Model())
    {
      if next > buffer.Length {
        return MissingBufferError;
      }
      if padded.Some? {
        if padded.value > buffer.Length {
          return BufferBoundaryError;
        }
        next, padded := padded.value, None;
      }
      state := state.(code := Some(code), elementSize := elementSize);
      return NoError;
    }

    method PrepareForArray(arrayLength: uint32, t: SizeType) returns (error: Error)
      modifies this
      ensures buffer == old(buffer)
      ensures Agrees(PrepareArray(old(Model()), arrayLength, t), error, Model())
    {
      hide SizeTypeToSize, Times, LengthFromValue;
      ghost var w := Model();
      if arrayLength == 0 {
        return NoError;
      }
      if t == SizeNone {
        state := state.(arrayLen := arrayLength);
        return NoError;
      }
      var n := LengthFromValue(state);
      LengthErrors(state);
      if n.Err? {
        return n.error;
      }
      state := state.(maxArrayLen := arrayLength, arrayLen := n.value);
      if state.arrayLen > state.maxArrayLen {
        return ValueLengthError;
      }
      state := state.(dynamicSize := t);
      if state.elementSize == 0 {
        return AssertionFailed;
      }
      var size := Product(state.maxArrayLen, state.elementSize);
      var end := next + SizeTypeToSize(t) + size % U32_MOD;
      assert end == w.next + SizeTypeToSize(t) + Times(arrayLength, w.state.elementSize) % U32_MOD;
      assert |w.buf| == buffer.Length;
      padded := Some(end);
      if padded.value > buffer.Length {
        return BufferBoundaryError;
      }
      return NoError;
    }

    method WriteDynamicValue(value: nat, size: nat) returns (error: Error)
      modifies this, buffer
      ensures buffer == old(buffer)
      ensures Agrees(WriteLength(old(Model()), value, size), error, Model())
    {
      if size != 1 && size != 2 && size != 4 {
        return InternalError;
      }
      if value >= Pow256(size) {
        return LengthError;
      }
      if next + size > buffer.Length {
        return BufferFullError;
      }
      Store(buffer, next, PackLE(value, size));
      next := next + size;
      return NoError;
    }

    /** serializer_pack_scalar_value_internal */
    method PackScalarInternal(c: TypeCode, v: Value) returns (error: Error)
      modifies this, buffer
      ensures buffer == old(buffer)
      ensures Agrees(StoreScalar(old(Model()), c, v), error, Model())
    {
      if next + TypeSize(c) > buffer.Length {
        return BufferBoundaryError;
      }
      Store(buffer, next, ScalarBytes(c, v));
      next := next + TypeSize(c);
      return NoError;
    }

    method PackScalarValue(c: TypeCode) returns (error: Error)
      modifies this, buffer
      ensures buffer == old(buffer)
      ensures Agrees(PackScalar(old(Model()), c), error, Model())
    {
      if !state.value.IsScalar() {
        return ValueTypeError;
      }
      error := NoError;
      if state.rangeCheck.NotChecked? {
        error := DefaultRangeCheck(c, state.value);
      }
      if error == NoError {
        error := PackScalarInternal(c, state.value);
      }
    }

    method PackArrayOfScalar(c: TypeCode) returns (error: Error)
      modifies this, buffer
      ensures buffer == old(buffer)
      ensures Agrees(PackScalars(old(Model()), c), error, Model())
    {
      hide StoreItems, DefaultRangeItems;
      if !state.value.VArray? {
        return ValueTypeError;
      }
      var items := state.value.items;
      if state.dynamicSize == SizeNone && |items| != state.arrayLen {
        return ValueLengthError;
      }
      if state.rangeCheck.NotChecked? {
        error := DefaultRangeCheckItems(c, items);
        if error != NoError {
          return;
        }
      }
      error := StoreAllItems(c, items);
    }

    /** The storing loop of serializer_pack_array_of_scalar. */
    method StoreAllItems(c: TypeCode, items: seq<Value>) returns (error: Error)
      modifies this, buffer
      ensures buffer == old(buffer)
      ensures Agrees(StoreItems(old(Model()), c, items), error, Model())
    {
      hide ReadItemAs, StoreScalar, StoreItems;
      ghost var start := Model();
      assert items[0..] == items;
      for i := 0 to |items|
        invariant buffer == old(buffer)
        invariant StoreItems(start, c, items) == StoreItems(Model(), c, items[i..])
      {
        StoreItemsNext(Model(), c, items, i);
        var v := ReadItemAs(c, items[i]);
        if v.Err? {
          ReadItemError(c, items[i]);
          return v.error;
        }
        error := PackScalarInternal(c, v.value);
        if error != NoError {
          return;
        }
      }
      StoreNothing(Model(), c, items);
      return NoError;
    }

    method PackStringValue(c: TypeCode) returns (error: Error)
      modifies this, buffer
      ensures buffer == old(buffer)
      ensures Agrees(PackString(old(Model()), c), error, Model())
    {
      if !state.value.IsScalar() {
        return ValueTypeError;
      }
      if !state.value.VStr? {
        return ValueConversionError;
      }
      TimesIs(state.arrayLen, state.elementSize);
      var s, target := state.value.s, state.elementSize * state.arrayLen;
      if next + target > buffer.Length {
        return BufferBoundaryError;
      }
      Store(buffer, next, Zeros(target));
      if !c.Char? && !c.Char8? {
        return NotImplementedError;
      }
      if |s| > target {
        return BufferBoundaryError;
      }
      Store(buffer, next, s);
      next := next + target;
      return NoError;
    }

    method PackByteArrayInternal() returns (error: Error)
      modifies this, buffer
      ensures buffer == old(buffer)
      ensures Agrees(PackBytes(old(Model())), error, Model())
    {
      if !state.value.VBytes? {
        return ValueTypeError;
      }
      var bs, n := state.value.bs, state.arrayLen;
      if state.dynamicSize == SizeNone && n > 0 && n != |bs| {
        return ValueLengthError;
      }
      if next + n > buffer.Length {
        return BufferBoundaryError;
      }
      if n > |bs| {
        return AssertionFailed;
      }
      Store(buffer, next, bs[..n]);
      next := next + n;
      return NoError;
    }

    method EnterNewChildState(v: Value)
      modifies this`stack, this`state
      ensures Model() == Enter(old(Model()), v)
    {
      stack := stack + [state];
      state := Fresh(v);
    }

    method PackRecordValue() returns (error: Error)
      modifies this
      ensures buffer == old(buffer)
      ensures Agrees(PackRecord(old(Model())), error, Model())
    {
      var n := state.arrayLen;
      if n > 0 {
        if !state.value.VArray? {
          return ValueTypeError;
        }
        var items := state.value.items;
        if state.dynamicSize == SizeNone && |items| != n {
          return ValueLengthError;
        }
        if state.index != 0 {
          return AssertionFailed;
        }
        if |items| == 0 {
          return NullPtrError;
        }
        EnterNewChildState(items[0]);
      }
      if !state.value.VRecord? {
        return ValueTypeError;
      }
      return NoError;
    }

    /** serializer_pop_state */
    method PopStates()
      modifies this`state, this`stack
      ensures Model() == PopState(old(Model()))
    {
      while |stack| > 0
        invariant Pop(state, stack) == Pop(old(state), old(stack))
      {
        state := stack[|stack| - 1];
        stack := stack[..|stack| - 1];
        if !state.isLastField {
          break;
        }
      }
    }

    method PackSelected(c: TypeCode) returns (error: Error)
      modifies this, buffer
      ensures buffer == old(buffer)
      ensures Agrees(PackByType(old(Model()), c), error, Model())
    {
      hide WriteLength, PackScalar, PackScalars, PackString, PackBytes, PackRecord;
      if state.arrayLen == 0 {
        if state.dynamicSize != SizeNone {
          error := WriteDynamicValue(0, SizeTypeToSize(state.dynamicSize));
        } else if IsNumberOrBool(c) {
          error := PackScalarValue(c);
        } else if c.Record? {
          error := PackRecordValue();
        } else {
          error := NotImplementedError;
        }
      } else {
        error := NoError;
        if state.dynamicSize != SizeNone {
          error := WriteDynamicValue(state.arrayLen, SizeTypeToSize(state.dynamicSize));
        }
        if error == NoError {
          if IsNumberOrBool(c) {
            error := PackArrayOfScalar(c);
          } else if IsCharType(c) {
            error := PackStringValue(c);
          } else if c.Byte? {
            error := PackByteArrayInternal();
          } else {
            error := PackRecordValue();
          }
        }
      }
    }

    /** serializer_pack_value */
    method PackPrepared(c: TypeCode) returns (error: Error)
      modifies this, buffer
      ensures buffer == old(buffer)
      ensures Agrees(PackValue(old(Model()), c), error, Model())
    {
      hide PackByType, PopState;
      if queue.isActive && queue.currentLength >= queue.maxLength {
        return QueueFullError;
      }
      var doPopState := !c.Record? || (state.arrayLen == 0 && state.dynamicSize != SizeNone);
      error := PackSelected(c);
      if error == NoError {
        if queue.isActive {
          queue := queue.(currentLength := queue.currentLength + 1);
        }
        if doPopState {
          PopStates();
        }
      }
    }

    /** The apx_vm_serializer_pack_* entry points. */
    method PackElement(c: TypeCode, arrayLength: uint32, t: SizeType) returns (error: Error)
      modifies this, buffer
      ensures buffer == old(buffer)
      ensures Agrees(Pack(old(Model()), c, arrayLength, t), error, Model())
    {
      hide PrepareWrite, PrepareArray, PackValue;
      var n := arrayLength;
      if c.Byte? && n == 0 {
        n := 1;
      }
      error := PrepareForBufferWrite(c, TypeSize(c));
      if error != NoError {
        return;
      }
      error := PrepareForArray(n, t);
      if error != NoError {
        return;
      }
      error := PackPrepared(c);
    }

    method RecordSelect(key: Name, isLastField: bool) returns (error: Error)
      modifies this
      ensures buffer == old(buffer)
      ensures Agrees(SelectField(old(Model()), key, isLastField), error, Model())
    {
      if !state.value.VRecord? {
        return ValueTypeError;
      }
      var fields := state.value.fields;
      if key !in fields {
        return NotFoundError;
      }
      state := state.(isLastField := isLastField, fieldName := key);
      EnterNewChildState(fields[key]);
      return NoError;
    }

    method ArrayNext() returns (error: Error, isLast: bool)
      modifies this
      ensures buffer == old(buffer)
      ensures match NextItem(old(Model()))
              case Ok((w, last)) => error == NoError && isLast == last && Model() == w
              case Err(x) => error == x && x != NoError
    {
      isLast := false;
      if !state.value.VArray? {
        return ValueTypeError, false;
      }
      var items := state.value.items;
      if state.arrayLen == 0 {
        return InternalError, false;
      }
      state := state.(index := state.index + 1);
      if state.index == state.arrayLen {
        return NoError, true;
      }
      if state.code != Some(Record) {
        return NotImplementedError, false;
      }
      if state.index >= |items| {
        return NullPtrError, false;
      }
      EnterNewChildState(items[state.index]);
      return NoError, false;
    }

    /** apx_vm_serializer_check_value_range_* */
    method CheckValueRange(kind: CheckKind, lower: int, upper: int) returns (error: Error)
      modifies this`state
      ensures Agrees(CheckRange(old(Model()), kind, lower, upper), error, Model())
    {
      hide InRange, CheckItems;
      match state.value {
        case VArray(items) =>
          error := RangeCheckItems(kind, items, lower, upper);
        case VRecord(_) | VNull =>
          error := UnsupportedError;
        case _ =>
          var x := ReadAs(CheckType(kind), state.value);
          error := if x.Err? then x.error else InRange(kind, x.value, lower, upper);
      }
      if error == NoError {
        state := state.(rangeCheck := RangeOk);
      }
    }

    /** apx_vm_serializer_queued_write_begin, emptying the queue */
    method QueuedWriteBegin(elementSize: nat, maxLength: uint32)
      modifies this
      ensures buffer == old(buffer) && Model() == QueueBegin(old(Model()), elementSize, maxLength)
    {
      queue := WriteQueue(true, elementSize, next, maxLength, 0, SizeToSizeType(maxLength));
      next := next + SizeTypeToSize(queue.sizeType);
    }

    method QueuedWriteEnd() returns (error: Error)
      modifies this, buffer
      ensures buffer == old(buffer)
      ensures Agrees(QueueEnd(old(Model())), error, Model())
    {
      var size := SizeTypeToSize(queue.sizeType);
      if !queue.isActive {
        return InternalError;
      }
      queue := queue.(isActive := false);
      if size == 0 {
        return InternalError;
      }
      if queue.currentLength >= Pow256(size) {
        return LengthError;
      }
      if queue.lengthAt + size > buffer.Length {
        return AssertionFailed;
      }
      Store(buffer, queue.lengthAt, PackLE(queue.currentLength, size));
      return NoError;
    }
  }

  lemma LengthErrors(s: WriteState)
    ensures LengthFromValue(s).Err? ==> LengthFromValue(s).error != NoError
  {
  }

  lemma StoreItemsNext(w: Writer, c: TypeCode, items: seq<Value>, i: nat)
    requires i < |items|
    ensures ReadItemAs(c, items[i]).Err? ==> StoreItems(w, c, items[i..]) == Err(ReadItemAs(c, items[i]).error)
    ensures ReadItemAs(c, items[i]).Ok? ==>
      StoreItems(w, c, items[i..])
      == match StoreScalar(w, c, ReadItemAs(c, items[i]).value)
         case Ok(w1) => StoreItems(w1, c, items[i + 1..])
         case Err(x) => Err(x)
  {
    hide ReadItemAs, StoreScalar;
    assert items[i..][0] == items[i] && items[i..][1..] == items[i + 1..];
  }

  lemma StoreNothing(w: Writer, c: TypeCode, items: seq<Value>)
    ensures StoreItems(w, c, items[|items|..]) == Ok(w)
  {
  }

  lemma ReadItemError(c: TypeCode, v: Value)
    ensures ReadItemAs(c, v).Err? ==> ReadItemAs(c, v).error != NoError
  {
  }
}
