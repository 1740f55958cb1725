/**
 * Which error is reported for which reason: by the serializer, the deserializer, the compiler
 * and the decoder.
 */
module Refusals {
  import opened Common
  import opened Bytes
  import opened DataElements
  import opened Layouts
  import opened Bytecode
  import opened Decoding
  import opened WriterModel
  import opened ReaderModel
  import opened PackLeaf
  import opened PackRun
  import opened UnpackLeaf
  import Compilation

  // ---------- packing ----------

  /** The range of the 32- or 64-bit number as which a value is first read. */
  predicate Storable(c: TypeCode, v: Value) {
    match c
    case UInt8 | UInt16 | UInt32 => v.VInt? && 0 <= v.n <= 0xFFFF_FFFF
    case UInt64 => v.VInt? && 0 <= v.n <= 0xFFFF_FFFF_FFFF_FFFF
    case Int8 | Int16 | Int32 => v.VInt? && -0x8000_0000 <= v.n <= 0x7FFF_FFFF
    case Int64 => v.VInt? && -0x8000_0000_0000_0000 <= v.n <= 0x7FFF_FFFF_FFFF_FFFF
    case Bool => v.VBool?
    case _ => false
  }

  /** A writer that can take one more value `v`. */
  predicate Prepared(w: Writer, v: Value) {
    !w.queue.isActive && w.next <= |w.buf| && Cursor(w) <= |w.buf| && w.state == Fresh(v)
  }

  function ErrorOf<T>(r: Result<T>): Error {
    if r.Err? then r.error else NoError
  }

  /** A value of fixed size is packed at the cursor. */
  lemma FixedRefusals(w: Writer, v: Value, c: TypeCode, n: uint32) returns (w1: Writer)
    requires !c.Record? && Prepared(w, v) && (c.Byte? ==> n > 0)
    ensures w1 == w.(next := Cursor(w), padded := None,
                     state := w.state.(code := Some(c), elementSize := TypeSize(c), arrayLen := n))
    ensures ErrorOf(Pack(w, c, n, SizeNone)) == ErrorOf(PackByType(w1, c))
  {
    hide PackByType, Pop;
    w1 := w.(next := Cursor(w), padded := None,
             state := w.state.(code := Some(c), elementSize := TypeSize(c), arrayLen := n));
  }

  /** A scalar: wrong kind, not readable, out of range, no room, in this order. */
  lemma ScalarRefusals(c: TypeCode, v: Value, w: Writer)
    requires IsNumberOrBool(c) && Prepared(w, v)
    ensures ErrorOf(Pack(w, c, 0, SizeNone))
         == if !v.IsScalar() then ValueTypeError
            else if !Storable(c, v) then ValueConversionError
            else if !ScalarFits(c, v) then ValueRangeError
            else if !HasRoom(w, TypeSize(c)) then BufferBoundaryError
            else NoError
  {
    hide ScalarBytes, WriteAt, Pack, DefaultRangeValue, ReadAs, ScalarFits, Storable, TypeSize;
    var w1 := FixedRefusals(w, v, c, 0);
    if v.IsScalar() {
      ReadRefusals(c, v);
    }
  }

  lemma ReadRefusals(c: TypeCode, v: Value)
    requires IsNumberOrBool(c) && v.IsScalar()
    ensures DefaultRangeValue(c, v)
         == if !Storable(c, v) then ValueConversionError else if !ScalarFits(c, v) then ValueRangeError else NoError
  {
  }

  /** Characters outside of arrays are not supported. */
  lemma CharRefused(v: Value, w: Writer)
    requires Prepared(w, v)
    ensures Pack(w, Char, 0, SizeNone) == Err(NotImplementedError) && Pack(w, Char8, 0, SizeNone) == Err(NotImplementedError)
  {
    hide Pack;
    var w1 := FixedRefusals(w, v, Char, 0);
    var w2 := FixedRefusals(w, v, Char8, 0);
  }

  /** A fixed array of numbers, before its items are looked at. */
  lemma NumbersRefusals(c: TypeCode, n: uint32, v: Value, w: Writer)
    requires IsNumberOrBool(c) && Prepared(w, v) && n > 0
    ensures !v.VArray? ==> Pack(w, c, n, SizeNone) == Err(ValueTypeError)
    ensures v.VArray? && |v.items| != n ==> Pack(w, c, n, SizeNone) == Err(ValueLengthError)
  {
    hide Pack, StoreItems, DefaultRangeItems;
    var w1 := FixedRefusals(w, v, c, n);
  }

  /** A fixed string: wrong kind, no text, no room or too long, in this order. */
  lemma StringRefusals(c: TypeCode, n: uint32, v: Value, w: Writer)
    requires (c.Char? || c.Char8?) && Prepared(w, v) && n > 0
    ensures ErrorOf(Pack(w, c, n, SizeNone))
         == if !v.IsScalar() then ValueTypeError
            else if !v.VStr? then ValueConversionError
            else if !HasRoom(w, n) || |v.s| > n then BufferBoundaryError
            else NoError
  {
    hide Pack, WriteAt, Zeros;
    var w1 := FixedRefusals(w, v, c, n);
  }

  /** A fixed byte array: wrong kind, wrong length, no room, in this order. */
  lemma BytesRefusals(n: uint32, v: Value, w: Writer)
    requires Prepared(w, v) && n > 0
    ensures ErrorOf(Pack(w, Byte, n, SizeNone))
         == if !v.VBytes? then ValueTypeError
            else if |v.bs| != n then ValueLengthError
            else if !HasRoom(w, n) then BufferBoundaryError
            else NoError
  {
    hide Pack, WriteAt;
    var w1 := FixedRefusals(w, v, Byte, n);
  }

  /** A dynamic array, before its items are looked at. */
  lemma DynamicRefusals(e: DataElement, v: Value, w: Writer)
    requires e.IsDynamicArray() && !e.code.Record? && Size(e) < U32_MOD && Prepared(w, v)
    ensures var r := Pack(w, e.code, e.arrayLen, DynamicType(e));
            && (v.VRecord? || v.VNull? ==> r == Err(ValueTypeError))
            && (ValueLength(v).Some? && ValueLength(v).value > e.arrayLen ==> r == Err(ValueLengthError))
            && (ValueLength(v).Some? && ValueLength(v).value <= e.arrayLen && !HasRoom(w, Size(e)) ==> r == Err(BufferBoundaryError))
  {
    hide PackValue;
    assert Times(e.arrayLen, TypeSize(e.code)) % U32_MOD == Times(e.arrayLen, TypeSize(e.code));
  }

  /** Limits: values that cannot be read, values outside, and values that have no range. */
  lemma LimitRefusals(w: Writer, kind: CheckKind, lower: int, upper: int)
    ensures var c, v, r := CheckType(kind), w.state.value, CheckRange(w, kind, lower, upper);
            && (v.VRecord? || v.VNull? ==> r == Err(UnsupportedError))
            && (v.IsScalar() && !Storable(c, v) ==> r == Err(ValueConversionError))
            && (v.IsScalar() && Storable(c, v) && !(lower <= v.n <= upper) ==> r == Err(ValueRangeError))
            && (v.IsScalar() && Storable(c, v) && lower <= v.n <= upper ==> r.Ok?)
  {
  }

  /** Records: something else in their place, a field that is missing. */
  lemma RecordRefusals(w: Writer, key: Name, isLast: bool)
    ensures w.state.arrayLen == 0 && !w.state.value.VRecord? ==> PackRecord(w) == Err(ValueTypeError)
    ensures !w.state.value.VRecord? ==> SelectField(w, key, isLast) == Err(ValueTypeError)
    ensures w.state.value.VRecord? && key !in w.state.value.fields ==> SelectField(w, key, isLast) == Err(NotFoundError)
    ensures w.state.value.VRecord? && key in w.state.value.fields ==> SelectField(w, key, isLast).Ok?
  {
  }

  // ---------- unpacking ----------

  /** One unpack instruction on a buffer that holds too little, or a length that no packing wrote. */
  lemma UnpackRefusals(e: DataElement, r: Reader)
    requires !e.code.Record? && Compiles(e) && !r.queue.isActive && r.next <= |r.buf|
    ensures var p, x := ReadCursor(r), Unpack(r, e.code, e.arrayLen, DynamicType(e));
            && (p > |r.buf| ==> x == Err(BufferBoundaryError))
            && (p <= |r.buf| && e.arrayLen == 0 && p + Size(e) > |r.buf| ==> x == Err(BufferBoundaryError))
            && (p <= |r.buf| && e.IsDynamicArray() ==>
                 var width := LengthSize(e.arrayLen);
                 if p + width > |r.buf| then x == Err(BufferBoundaryError)
                 else
                   var n := UnpackLE(r.buf[p..p + width]);
                   && (n > e.arrayLen ==> x == Err(ValueLengthError))
                   && (n == 0 ==> x == Err(InvalidArgumentError)))
  {
    hide LoadItems, LoadString, LoadBytes, ReadScalar, FoldPop, UnpackLE;
  }

  // ---------- queues ----------

  /** A full queue takes nothing, a used-up one gives nothing, and neither can be used without being begun. */
  lemma QueueRefusals(w: Writer, r: Reader, c: TypeCode, n: uint32)
    requires w.next <= |w.buf| && Cursor(w) <= |w.buf| && r.next <= |r.buf| && ReadCursor(r) <= |r.buf|
    ensures w.queue.isActive && w.queue.currentLength >= w.queue.maxLength ==> Pack(w, c, n, SizeNone) == Err(QueueFullError)
    ensures r.queue.isActive && r.queue.index >= r.queue.currentLength ==> Unpack(r, c, n, SizeNone) == Err(IndexError)
    ensures !w.queue.isActive ==> QueueEnd(w) == Err(InternalError)
    ensures !r.queue.isActive ==> QueueReadNext(r) == Err(InternalError)
    ensures QueueReadBegin(r, 0, n) == Err(InvalidArgumentError) && QueueReadBegin(r, n, 0) == Err(InvalidArgumentError)
  {
    hide PackByType, LoadByType, Pop, FoldPop;
  }

  // ---------- compiling ----------

  /** A leaf that does not compile. */
  lemma LeafRefusals(e: DataElement)
    requires !e.code.Record?
    ensures Compilation.CompileError(e)
         == if e.code == Char16 || e.code == Char32 then ElementTypeError
            else if e.limits.Some? && (e.code == Char || e.code == Char8 || e.code == Bool) then UnsupportedError
            else NoError
  {
  }

  /** A record that does not compile because it has no field, or because of its first one. */
  lemma FirstFieldRefusals(e: DataElement)
    requires e.code.Record?
    ensures |e.children| == 0 ==> Compilation.CompileError(e) == EmptyRecordError
    ensures |e.children| > 0 ==>
      var f := e.children[0];
      && (|f.name| == 0 ==> Compilation.CompileError(e) == NameMissingError)
      && (|f.name| > 256 ==> Compilation.CompileError(e) == NameTooLongError)
      && (0 < |f.name| <= 256 && Compilation.CompileError(f) != NoError ==> Compilation.CompileError(e) == Compilation.CompileError(f))
  {
  }

  // ---------- decoding ----------

  /** An instruction whose operands are cut off, as against one that is unknown or malformed. */
  lemma DecodeRefusals(prog: seq<byte>, p: nat)
    requires p < |prog| && DecodeOperation(prog, p).Err?
    ensures var b := prog[p];
            var cutOff := if b % 8 <= 1 then VariantType(b / 8 % 16).Some? && b >= 0x80 && p + 1 >= |prog|
                          else b % 8 == 3 && LimitKind(b / 8 % 16).Some? && p + 1 + 2 * LimitKind(b / 8 % 16).value.1 > |prog|;
            DecodeOperation(prog, p).error == if cutOff then UnexpectedEndError else InvalidInstructionError
  {
    hide UnpackLE, SignExtend, CutAtNul;
  }
}
