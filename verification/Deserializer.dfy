/**
 * The deserializer object of apx/src/deserializer.c. Every method is proved to do to the
 * object's state what `ReaderModel` says.
 */
module Deserialization {
  import opened Common
  import opened Bytes
  import opened DataElements
  import opened Layouts
  import opened Decoding
  import opened ReaderModel

  /** An error code and a state that say what `spec` says. */
  ghost predicate Agrees(spec: Result<Reader>, error: Error, now: Reader) {
    match spec
    case Ok(r) => error == NoError && now == r
    case Err(x) => error == x && x != NoError
  }

  /** The same for a loaded value, which ends up in the current state. */
  ghost predicate Loaded(spec: Result<(Value, Reader)>, error: Error, now: Reader) {
    match spec
    case Ok((v, r)) => error == NoError && now == r.(state := r.state.(value := v))
    case Err(x) => error == x && x != NoError
  }

  ghost predicate AgreesFlagged(spec: Result<(Reader, bool)>, error: Error, flag: bool, now: Reader) {
    match spec
    case Ok((r, f)) => error == NoError && flag == f && now == r
    case Err(x) => error == x && x != NoError
  }

  /** Items loaded before the rest of a load. */
  ghost function Prepended(items: seq<Value>, rest: Result<(seq<Value>, Reader)>): Result<(seq<Value>, Reader)> {
    match rest
    case Ok((more, r)) => Ok((items + more, r))
    case Err(x) => Err(x)
  }

  lemma LoadItemsStep(r: Reader, c: TypeCode, n: nat)
    requires n > 0
    ensures match LoadScalar(r, c)
            case Err(x) => LoadItems(r, c, n) == Err(x)
            case Ok((v, r1)) => LoadItems(r, c, n) == Prepended([v], LoadItems(r1, c, n - 1))
  {
    hide LoadScalar;
  }

  lemma PrependedTwice(a: seq<Value>, b: seq<Value>, rest: Result<(seq<Value>, Reader)>)
    ensures Prepended(a, Prepended(b, rest)) == Prepended(a + b, rest)
  {
    if rest.Ok? {
      assert a + (b + rest.value.0) == a + b + rest.value.0;
    }
  }

  /** A fixed string that ends at a NUL. */
  lemma StringCut(r: Reader, n: nat, s: seq<byte>)
    requires |s| < n && r.next + |s| < |r.buf| && r.buf[r.next + |s|] == 0
    requires 0 !in s && s == r.buf[r.next..r.next + |s|]
    ensures LoadString(r, n, false) == Ok((VStr(s), r.(next := r.next + n)))
  {
    hide CutAtNul;
    if r.next + n <= |r.buf| {
      CutSlice(r.buf, r.next, r.next + n, s);
    } else {
      CutSlice(r.buf, r.next, |r.buf|, s);
      assert r.buf[r.next..] == r.buf[r.next..|r.buf|];
    }
  }

  lemma CutSlice(buf: seq<byte>, p: nat, end: nat, s: seq<byte>)
    requires p + |s| < end <= |buf| && buf[p + |s|] == 0 && 0 !in s && s == buf[p..p + |s|]
    ensures CutAtNul(buf[p..end]) == s && |s| < |buf[p..end]|
  {
    hide CutAtNul;
    var window := buf[p..end];
    assert window[|s|] == buf[p + |s|];
    assert window[..|s|] == s;
    CutAtNulIs(window, s);
  }

  /** A string that fills its room. */
  lemma StringFull(r: Reader, n: nat, isDynamic: bool, s: seq<byte>)
    requires |s| == n && r.next + n <= |r.buf| && s == r.buf[r.next..r.next + n]
    requires !isDynamic ==> 0 !in s
    ensures LoadString(r, n, isDynamic) == Ok((VStr(s), r.(next := r.next + n)))
  {
    if !isDynamic {
      CutAtNulIs(s, s);
    }
  }

  /** A string that the buffer cuts off. */
  lemma StringShort(r: Reader, n: nat, isDynamic: bool, s: seq<byte>)
    requires |s| < n && r.next + |s| >= |r.buf|
    requires |s| > 0 ==> r.next + |s| == |r.buf| && s == r.buf[r.next..]
    requires !isDynamic ==> 0 !in s
    ensures LoadString(r, n, isDynamic) == Err(BufferBoundaryError)
  {
    if !isDynamic && r.next <= |r.buf| {
      assert r.buf[r.next..] == s;
      CutAtNulIs(s, s);
    }
  }

  /** The array loops of apx_vm_deserializer_check_value_range_*. */
  method RangeCheckItems(kind: CheckKind, items: seq<Value>, lower: int, upper: int) returns (error: Error)
    ensures error == CheckReadItems(kind, items, lower, upper)
  {
    hide CheckReadItem;
    error := NoError;
    assert items[0..] == items;
    for i := 0 to |items|
      invariant error == NoError
      invariant CheckReadItems(kind, items, lower, upper) == CheckReadItems(kind, items[i..], lower, upper)
    {
      assert items[i..][0] == items[i] && items[i..][1..] == items[i + 1..];
      error := CheckReadItem(kind, items[i], lower, upper);
      if error != NoError {
        return;
      }
    }
  }

  /** apx_vm_deserializer_t */
  class Deserializer {
    var buffer: array<byte>
    var next: nat
    var padded: Option<nat>
    var state: ReadState
    var stack: seq<ReadState>
    var queue: ReadQueue

    ghost function Model(): Reader
      reads this, buffer
    {
      Reader(buffer[..], next, padded, state, stack, queue)
    }

    constructor ()
      ensures fresh(buffer) && Model() == Reader([], 0, None, BLANK, [], NO_READ_QUEUE)
    {
      buffer := new byte[0];
      next, padded, state, stack, queue := 0, None, BLANK, [], NO_READ_QUEUE;
    }

    method SetReadBuffer(data: array<byte>) returns (error: Error)
      modifies this
      ensures error == if data.Length > 0 then NoError else InvalidArgumentError
      ensures error == NoError ==>
        buffer == data && Model() == old(Model()).(buf := data[..], next := 0, padded := None)
      ensures error != NoError ==> buffer == old(buffer) && Model() == old(Model())
    {
      if data.Length == 0 {
        return InvalidArgumentError;
      }
      buffer, next, padded := data, 0, None;
      return NoError;
    }

    method PrepareForBufferRead(code: TypeCode, elementSize: nat) returns (error: Error)
      modifies this
      ensures buffer == old(buffer)
      ensures Agrees(PrepareRead(old(Model()), code, elementSize), error, Model())
    {
      if next > buffer.Length {
        return MissingBufferError;
      }
      if padded.Some? {
        if padded.value > buffer.Length {
          return BufferBoundaryError;
        }
        next, padded := padded.value, None;
      }
      state := BLANK;
      state := state.(code := Some(code), elementSize := elementSize);
      return NoError;
    }

    /** The number stored in `size` bytes at the current position. */
    method ParseUint32(size: nat) returns (ok: bool, n: nat)
      ensures match ParseNumber(buffer[..], next, size)
              case None => !ok
              case Some(x) => ok && n == x
    {
      if next + size > buffer.Length {
        return false, 0;
      }
      var i := size;
      n := 0;
      while i > 0
        invariant 0 <= i <= size
        invariant n == UnpackLE(buffer[next + i..next + size])
      {
        i := i - 1;
        assert buffer[next + i..next + size][1..] == buffer[next + i + 1..next + size];
        n := 256 * n + buffer[next + i];
      }
      assert buffer[next..next + size] == buffer[..][next..next + size];
      return true, n;
    }

    /** The length in front of a dynamic array. */
    method ReadDynamicLength(t: SizeType) returns (error: Error)
      modifies this`next, this`state
      ensures match ParseNumber(buffer[..], old(next), SizeTypeToSize(t))
              case None => error == BufferBoundaryError && Model() == old(Model())
              case Some(n) => error == NoError && next == old(next) + SizeTypeToSize(t) && state == old(state).(arrayLen := n)
    {
      hide ParseNumber, SizeTypeToSize;
      var ok, n := ParseUint32(SizeTypeToSize(t));
      if !ok {
        return BufferBoundaryError;
      }
      next := next + SizeTypeToSize(t);
      state := state.(arrayLen := n);
      return NoError;
    }

    method PrepareForArray(arrayLength: uint32, t: SizeType) returns (error: Error)
      modifies this
      ensures buffer == old(buffer)
      ensures Agrees(PrepareReadArray(old(Model()), arrayLength, t), error, Model())
    {
      hide ParseNumber, SizeTypeToSize, Times;
      if arrayLength == 0 {
        return NoError;
      }
      if t == SizeNone {
        state := state.(arrayLen := arrayLength);
        return NoError;
      }
      state := state.(dynamicSize := t, maxArrayLen := arrayLength);
      error := ReadDynamicLength(t);
      if error != NoError {
        return;
      }
      if state.arrayLen > state.maxArrayLen {
        return ValueLengthError;
      }
      if state.elementSize == 0 {
        return AssertionFailed;
      }
      var size := Product(state.maxArrayLen, state.elementSize);
      padded := Some(next + size);
      return NoError;
    }

    /** state_read_scalar_value and state_set_scalar_value_from_storage */
    method ReadScalarValue(c: TypeCode) returns (error: Error, v: Value)
      modifies this`next
      ensures match LoadScalar(old(Model()), c)
              case Ok((x, r)) => error == NoError && v == x && Model() == r
              case Err(x) => error == x && x != NoError
    {
      v := VNull;
      if next + TypeSize(c) > buffer.Length {
        return BufferBoundaryError, v;
      }
      v := ReadScalar(c, buffer[next..next + TypeSize(c)]);
      assert buffer[next..next + TypeSize(c)] == buffer[..][next..next + TypeSize(c)];
      next := next + TypeSize(c);
      return NoError, v;
    }

    method UnpackArrayOfScalar(c: TypeCode, n: nat) returns (error: Error)
      modifies this
      ensures buffer == old(buffer)
      ensures match LoadItems(old(Model()), c, n)
              case Ok((items, r)) => error == NoError && Model() == r.(state := r.state.(value := VArray(items)))
              case Err(x) => error == x && x != NoError
    {
      hide LoadScalar, LoadItems;
      ghost var start := Model();
      ghost var items := [];
      state := state.(value := VArray([]));
      LoadNoItems(Model().(state := start.state), c);
      PrependedNone(LoadItems(start, c, n));
      for i := 0 to n
        invariant buffer == old(buffer)
        invariant state == start.state.(value := VArray(items)) && |items| == i
        invariant LoadItems(start, c, n) == Prepended(items, LoadItems(Model().(state := start.state), c, n - i))
      {
        ghost var before := Model().(state := start.state);
        LoadItemsStep(before, c, n - i);
        LoadScalarState(Model(), c, start.state);
        var v;
        error, v := ReadScalarValue(c);
        if error != NoError {
          return;
        }
        PrependedTwice(items, [v], LoadItems(Model().(state := start.state), c, n - i - 1));
        items := items + [v];
        state := state.(value := VArray(state.value.items + [v]));
      }
      LoadNoItems(Model().(state := start.state), c);
      assert items + [] == items;
      return NoError;
    }

    /** deserializer_unpack_string: a failed read does not stop the loop, but nothing more is read. */
    method UnpackString(n: nat, isDynamic: bool) returns (error: Error)
      requires n > 0
      modifies this`next, this`state
      ensures Loaded(LoadString(old(Model()), n, isDynamic), error, Model())
    {
      hide LoadString;
      var s := [];
      ghost var start := next;
      var adjustedNext := next + n;
      error := NoError;
      var i := 0;
      while i < n
        invariant 0 <= i <= n && state == old(state)
        invariant next == start + |s| && (|s| > 0 ==> next <= buffer.Length && s == buffer[start..next])
        invariant error == if |s| == i then NoError else BufferBoundaryError
        invariant |s| < i ==> next >= buffer.Length
        invariant |s| <= i && (!isDynamic ==> 0 !in s)
      {
        if next + 1 <= buffer.Length {
          var c := buffer[next];
          next := next + 1;
          if !isDynamic && c == 0 {
            StringCut(old(Model()), n, s);
            next := adjustedNext;
            break;
          }
          s := s + [c];
        } else {
          error := BufferBoundaryError;
        }
        i := i + 1;
      }
      if i == n {
        if error == NoError {
          StringFull(old(Model()), n, isDynamic, s);
        } else {
          StringShort(old(Model()), n, isDynamic, s);
        }
      }
      if error == NoError {
        state := state.(value := VStr(s));
      }
    }

    method UnpackByteArray(n: nat) returns (error: Error)
      modifies this
      ensures buffer == old(buffer)
      ensures Loaded(LoadBytes(old(Model()), n), error, Model())
    {
      if next + n > buffer.Length {
        return BufferBoundaryError;
      }
      state := state.(value := VBytes(buffer[next..next + n]));
      assert buffer[next..next + n] == buffer[..][next..next + n];
      next := next + n;
      return NoError;
    }

    method EnterNewChildState(child: ReadState)
      modifies this`state, this`stack
      ensures Model() == EnterRead(old(Model()), child)
    {
      stack := stack + [state];
      state := child;
    }

    method UnpackRecordValue()
      modifies this
      ensures buffer == old(buffer) && Model() == StartRecord(old(Model()))
    {
      if state.arrayLen > 0 {
        state := state.(value := VArray([]));
        EnterNewChildState(BLANK_RECORD);
      } else {
        state := state.(value := VRecord(map[]));
      }
    }

    /** deserializer_pop_state: the finished value is moved into its parent. */
    method PopStates() returns (error: Error)
      modifies this`state, this`stack
      ensures Agrees(PopRead(old(Model())), error, Model())
    {
      hide Fold;
      while |stack| > 0
        invariant FoldPop(state, stack) == FoldPop(old(state), old(stack))
      {
        var child := state;
        var folded := Fold(stack[|stack| - 1], child.value);
        if folded.Err? {
          FoldError(stack[|stack| - 1], child.value);
          return folded.error;
        }
        state := folded.value;
        stack := stack[..|stack| - 1];
        if !state.isLastField {
          break;
        }
      }
      return NoError;
    }

    method UnpackSelected(c: TypeCode) returns (error: Error)
      modifies this
      ensures buffer == old(buffer)
      ensures Loaded(LoadByType(old(Model()), c), error, Model())
    {
      hide LoadScalar, LoadItems, LoadString, LoadBytes;
      var n := state.arrayLen;
      if n == 0 {
        if IsNumberOrBool(c) || c.Char? || c.Byte? {
          var v;
          error, v := ReadScalarValue(c);
          if error == NoError {
            state := state.(value := v);
          }
        } else {
          error := NotImplementedError;
        }
      } else if IsNumberOrBool(c) {
        error := UnpackArrayOfScalar(c, n);
      } else if IsCharType(c) {
        error := UnpackString(n, state.dynamicSize != SizeNone);
      } else if c.Byte? {
        error := UnpackByteArray(n);
      } else {
        error := NotImplementedError;
      }
    }

    /** deserializer_unpack_value */
    method UnpackPrepared(c: TypeCode, arrayLength: uint32, t: SizeType) returns (error: Error)
      modifies this
      ensures buffer == old(buffer)
      ensures Agrees(UnpackValue(old(Model()), c, arrayLength, t), error, Model())
    {
      hide PrepareReadArray, LoadByType, PopRead, StartRecord;
      error := PrepareForArray(arrayLength, t);
      if error != NoError {
        return;
      }
      if queue.isActive && queue.index >= queue.currentLength {
        return IndexError;
      }
      if state.arrayLen == 0 && state.dynamicSize != SizeNone {
        return InvalidArgumentError;
      }
      if c.Record? {
        UnpackRecordValue();
        return NoError;
      }
      error := UnpackSelected(c);
      if error == NoError {
        error := PopStates();
      }
    }

    /** The apx_vm_deserializer_unpack_* entry points. */
    method UnpackElement(c: TypeCode, arrayLength: uint32, t: SizeType) returns (error: Error)
      modifies this
      ensures buffer == old(buffer)
      ensures Agrees(Unpack(old(Model()), c, arrayLength, t), error, Model())
    {
      hide PrepareRead, UnpackValue;
      var code := if c.Char8? then Char else c;
      error := PrepareForBufferRead(code, TypeSize(code));
      if error == NoError {
        error := UnpackPrepared(code, arrayLength, t);
      }
    }

    method RecordSelect(key: Name, isLastField: bool) returns (error: Error)
      modifies this
      ensures buffer == old(buffer)
      ensures Agrees(SelectRead(old(Model()), key, isLastField), error, Model())
    {
      if !state.value.VRecord? {
        return ValueTypeError;
      }
      state := state.(isLastField := isLastField, fieldName := key);
      EnterNewChildState(BLANK);
      return NoError;
    }

    method ArrayNext() returns (error: Error, isLast: bool)
      modifies this
      ensures buffer == old(buffer)
      ensures AgreesFlagged(NextRead(old(Model())), error, isLast, Model())
    {
      isLast := false;
      if !state.value.VArray? {
        return ValueTypeError, false;
      }
      if state.arrayLen == 0 {
        return InternalError, false;
      }
      state := state.(index := state.index + 1);
      if state.index == state.arrayLen {
        return NoError, true;
      }
      if state.code != Some(Record) {
        return NotImplementedError, false;
      }
      EnterNewChildState(BLANK_RECORD);
      return NoError, false;
    }

    /** apx_vm_deserializer_check_value_range_* */
    method CheckValueRange(kind: CheckKind, lower: int, upper: int) returns (error: Error)
      ensures error == CheckReadValue(kind, state.value, lower, upper)
    {
      match state.value {
        case VArray(items) => error := RangeCheckItems(kind, items, lower, upper);
        case VRecord(_) | VNull => error := UnsupportedError;
        case _ => error := CheckReadScalar(kind, state.value, lower, upper);
      }
    }

    method QueuedReadBegin(elementSize: uint32, maxLength: uint32) returns (error: Error)
      modifies this
      ensures buffer == old(buffer)
      ensures Agrees(QueueReadBegin(old(Model()), elementSize, maxLength), error, Model())
    {
      hide ParseNumber;
      if elementSize == 0 || maxLength == 0 {
        return InvalidArgumentError;
      }
      var t := SizeToSizeType(maxLength);
      var ok, n := ParseUint32(SizeTypeToSize(t));
      if !ok {
        return BufferBoundaryError;
      }
      queue := ReadQueue(true, elementSize, maxLength, n, 0, t);
      next := next + SizeTypeToSize(t);
      return NoError;
    }

    method QueuedReadNext() returns (error: Error, isLast: bool)
      modifies this
      ensures buffer == old(buffer)
      ensures AgreesFlagged(QueueReadNext(old(Model())), error, isLast, Model())
    {
      if !queue.isActive {
        return InternalError, false;
      }
      queue := queue.(index := queue.index + 1);
      isLast := false;
      if queue.index >= queue.currentLength {
        queue := queue.(isActive := false);
        isLast := true;
      }
      return NoError, isLast;
    }
  }

  lemma LoadNoItems(r: Reader, c: TypeCode)
    ensures LoadItems(r, c, 0) == Ok(([], r))
  {
  }

  lemma PrependedNone(x: Result<(seq<Value>, Reader)>)
    ensures Prepended([], x) == x
  {
    if x.Ok? {
      assert [] + x.value.0 == x.value.0;
    }
  }

  /** Loading a scalar does not look at the state. */
  lemma LoadScalarState(r: Reader, c: TypeCode, s: ReadState)
    ensures match LoadScalar(r, c)
            case Ok((v, r1)) => LoadScalar(r.(state := s), c) == Ok((v, r1.(state := s))) && r1.state == r.state
            case Err(x) => LoadScalar(r.(state := s), c) == Err(x)
  {
  }

  lemma FoldError(parent: ReadState, child: Value)
    ensures Fold(parent, child).Err? ==> Fold(parent, child).error != NoError
  {
  }
}
