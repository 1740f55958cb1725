/** One leaf instruction: it succeeds exactly on fitting values and writes exactly their layout. */
module PackLeaf {
  import opened Common
  import opened Bytes
  import opened DataElements
  import opened Layouts
  import opened WriterModel

  /** Where the next value will be stored, counting a pending jump over padding. */
  function Cursor(w: Writer): nat {
    if w.padded.Some? then w.padded.value else w.next
  }

  /** The states left after a value has been packed below `stack`. */
  ghost predicate Popped(stack: seq<WriteState>, w: Writer) {
    if |stack| == 0 then w.stack == [] else (w.state, w.stack) == Pop(stack[0], stack)
  }

  /** `w` has become `d` by packing `cells` at the cursor: everything else is as it was. */
  ghost predicate Lands(w: Writer, d: Writer, cells: seq<Cell>) {
    && d.buf == Overlay(w.buf, Cursor(w), cells)
    && Cursor(d) == Cursor(w) + |cells|
    && d.next <= |d.buf|
    && d.queue == w.queue
    && Popped(w.stack, d)
  }

  function DynamicType(e: DataElement): SizeType {
    if e.IsDynamicArray() then SizeToSizeType(e.arrayLen) else SizeNone
  }

  /** The state holds `v`, and its limits, if already checked, were met. */
  ghost predicate Ready(e: DataElement, v: Value, s: WriteState) {
    || s == Fresh(v)
    || (s == Fresh(v).(rangeCheck := RangeOk) && e.limits.Some? && WithinLimits(StoredLimits(e.code, e.limits.value), v))
  }

  // ---------- scalars ----------

  lemma StoredLimitsInType(c: TypeCode, l: Limits)
    requires IsNumber(c)
    ensures TypeMin(c) <= StoredLimits(c, l).lower <= TypeMax(c) && TypeMin(c) <= StoredLimits(c, l).upper <= TypeMax(c)
  {
    Pow256Values();
    UnpackLEBound(PackLE(l.lower, TypeSize(c)));
    UnpackLEBound(PackLE(l.upper, TypeSize(c)));
  }

  lemma ReadAsFits(c: TypeCode, v: Value)
    requires IsNumberOrBool(c)
    ensures ScalarFits(c, v) <==> (ReadAs(c, v) == Ok(v) && DefaultRange(c, v) == NoError)
    ensures ReadAs(c, v).Ok? ==> ReadAs(c, v) == Ok(v)
    ensures ScalarFits(c, v) ==> v.IsScalar()
  {
  }

  /** Every item that can be read is in the range of its type. */
  ghost predicate ReadableInRange(c: TypeCode, items: seq<Value>) {
    forall i :: 0 <= i < |items| && ReadItemAs(c, items[i]).Ok? ==> DefaultRange(c, ReadItemAs(c, items[i]).value) == NoError
  }

  /** What the loop passes, given the error it starts with: a read error is forgotten if a later item can be read. */
  lemma {:induction false} DefaultRangeItemsExact(c: TypeCode, items: seq<Value>, last: Error)
    ensures DefaultRangeItems(c, items, last) == NoError <==>
      ReadableInRange(c, items) && if |items| == 0 then last == NoError else ReadItemAs(c, items[|items| - 1]).Ok?
  {
    hide DefaultRange, ReadItemAs, ReadableInRange, DefaultRangeItems;
    ReadableSplit(c, items);
    RangeStep(c, items, last);
    if |items| > 0 {
      var rest := items[1..];
      assert |rest| > 0 ==> rest[|rest| - 1] == items[|items| - 1];
      match ReadItemAs(c, items[0])
      case Err(error) =>
        ReadErrors(c, items[0]);
        DefaultRangeItemsExact(c, rest, error);
      case Ok(_) =>
        DefaultRangeItemsExact(c, rest, NoError);
    }
  }

  lemma RangeStep(c: TypeCode, items: seq<Value>, last: Error)
    ensures DefaultRangeItems(c, items, last)
      == if |items| == 0 then last
         else if ReadItemAs(c, items[0]).Err? then DefaultRangeItems(c, items[1..], ReadItemAs(c, items[0]).error)
         else if DefaultRange(c, ReadItemAs(c, items[0]).value) != NoError then DefaultRange(c, ReadItemAs(c, items[0]).value)
         else DefaultRangeItems(c, items[1..], NoError)
  {
    hide DefaultRange, ReadItemAs;
  }

  lemma ReadErrors(c: TypeCode, v: Value)
    ensures ReadItemAs(c, v).Err? ==> ReadItemAs(c, v).error != NoError
  {
  }

  lemma ReadableSplit(c: TypeCode, items: seq<Value>)
    ensures |items| == 0 ==> ReadableInRange(c, items)
    ensures |items| > 0 ==>
      (ReadableInRange(c, items) <==>
        (ReadItemAs(c, items[0]).Ok? ==> DefaultRange(c, ReadItemAs(c, items[0]).value) == NoError) && ReadableInRange(c, items[1..]))
  {
    hide DefaultRange, ReadItemAs;
    if |items| > 0 {
      assert items == [items[0]] + items[1..];
      assert forall i :: 0 < i < |items| ==> items[i] == items[1..][i - 1];
    }
  }

  /** So items that fit pass, and among items that can all be read only those do. */
  lemma FittingItemsPass(c: TypeCode, items: seq<Value>)
    requires IsNumberOrBool(c)
    ensures ItemsFit(c, items) <==> (forall i :: 0 <= i < |items| ==> ReadItemAs(c, items[i]).Ok?) && DefaultRangeItems(c, items, NoError) == NoError
  {
    hide ReadItemAs, ScalarFits, DefaultRange, DefaultRangeItems;
    DefaultRangeItemsExact(c, items, NoError);
    forall i | 0 <= i < |items|
      ensures ScalarFits(c, items[i]) <==> ReadItemAs(c, items[i]).Ok? && DefaultRange(c, ReadItemAs(c, items[i]).value) == NoError
    {
      ReadItemFits(c, items[i]);
    }
  }

  lemma ReadItemFits(c: TypeCode, v: Value)
    requires IsNumberOrBool(c)
    ensures ScalarFits(c, v) <==> ReadItemAs(c, v).Ok? && DefaultRange(c, ReadItemAs(c, v).value) == NoError
  {
    hide ReadAs, ScalarFits, DefaultRange;
    ReadAsFits(c, v);
  }

  /** `w` after storing `bs` at its next position. */
  function Stored(w: Writer, bs: seq<byte>): Writer
    requires w.next + |bs| <= |w.buf|
  {
    w.(buf := WriteAt(w.buf, w.next, bs), next := w.next + |bs|)
  }

  lemma WriteAtAppend(buf: seq<byte>, p: nat, a: seq<byte>, b: seq<byte>)
    requires p + |a| + |b| <= |buf|
    ensures WriteAt(WriteAt(buf, p, a), p + |a|, b) == WriteAt(buf, p, a + b)
  {
  }

  lemma ItemsFitParts(c: TypeCode, items: seq<Value>)
    requires |items| > 0 && ItemsFit(c, items)
    ensures ScalarFits(c, items[0]) && ItemsFit(c, items[1..])
  {
    hide ScalarFits;
  }

  lemma FirstBytes(c: TypeCode, items: seq<Value>)
    requires |items| > 0
    ensures ItemsBytes(c, items) == ScalarBytes(c, items[0]) + ItemsBytes(c, items[1..])
  {
    hide ScalarBytes;
  }

  lemma StoreFirst(w: Writer, c: TypeCode, items: seq<Value>)
    requires IsNumberOrBool(c) && |items| > 0 && ScalarFits(c, items[0])
    ensures StoreItems(w, c, items)
         == if w.next + |ScalarBytes(c, items[0])| <= |w.buf|
            then StoreItems(Stored(w, ScalarBytes(c, items[0])), c, items[1..]) else Err(BufferBoundaryError)
  {
    hide ReadAs, ScalarFits, DefaultRange, ScalarBytes, WriteAt, ItemsBytes, IsNumberOrBool;
    ReadAsFits(c, items[0]);
    var v := ScalarBytes(c, items[0]);
    assert StoreScalar(w, c, items[0]) == if w.next + |v| <= |w.buf| then Ok(Stored(w, v)) else Err(BufferBoundaryError);
  }

  lemma StoredNothing(w: Writer)
    requires w.next <= |w.buf|
    ensures Stored(w, []) == w
  {
    assert WriteAt(w.buf, w.next, []) == w.buf;
  }

  lemma StoredTwice(w: Writer, a: seq<byte>, b: seq<byte>)
    requires w.next + |a| + |b| <= |w.buf|
    ensures Stored(Stored(w, a), b) == Stored(w, a + b)
  {
    WriteAtAppend(w.buf, w.next, a, b);
  }

  lemma StoredRoom(w: Writer, a: seq<byte>)
    requires w.next + |a| <= |w.buf|
    ensures Stored(w, a).next == w.next + |a| && |Stored(w, a).buf| == |w.buf|
  {
  }

  lemma {:induction false} StoreItemsFits(w: Writer, c: TypeCode, items: seq<Value>)
    requires IsNumberOrBool(c) && ItemsFit(c, items) && w.next <= |w.buf|
    ensures w.next + |ItemsBytes(c, items)| <= |w.buf| ==> StoreItems(w, c, items) == Ok(Stored(w, ItemsBytes(c, items)))
    ensures w.next + |ItemsBytes(c, items)| > |w.buf| ==> StoreItems(w, c, items).Err?
    decreases |items|
  {
    if |items| == 0 {
      StoredNothing(w);
    } else {
      hide ItemsFit, ScalarFits, ScalarBytes, ItemsBytes, StoreItems, Stored, IsNumberOrBool, Times;
      ItemsFitParts(c, items);
      StoreFirst(w, c, items);
      FirstBytes(c, items);
      var a, b := ScalarBytes(c, items[0]), ItemsBytes(c, items[1..]);
      if w.next + |a| <= |w.buf| {
        StoredRoom(w, a);
        StoreItemsFits(Stored(w, a), c, items[1..]);
        if w.next + |a| + |b| <= |w.buf| {
          StoredTwice(w, a, b);
        }
      }
    }
  }

  lemma {:induction false} StoreItemsReads(w: Writer, c: TypeCode, items: seq<Value>)
    requires StoreItems(w, c, items).Ok?
    ensures forall i :: 0 <= i < |items| ==> ReadItemAs(c, items[i]).Ok?
    decreases |items|
  {
    hide ReadAs, ScalarBytes;
    if |items| > 0 {
      StoreItemsReads(StoreScalar(w, c, ReadItemAs(c, items[0]).value).value, c, items[1..]);
      forall i | 0 <= i < |items| ensures ReadItemAs(c, items[i]).Ok? {
        if i > 0 { assert items[i] == items[1..][i - 1]; }
      }
    }
  }

  /** Storing the items of an array whose room is known: fits, or fails. */
  lemma PackScalarsExact(w: Writer, c: TypeCode, items: seq<Value>)
    requires IsNumberOrBool(c) && w.next <= |w.buf| && w.state.value == VArray(items)
    requires w.state.rangeCheck.RangeOk? ==> ItemsFit(c, items)
    requires w.state.dynamicSize == SizeNone ==> w.state.arrayLen == |items|
    ensures ItemsFit(c, items) && w.next + |ItemsBytes(c, items)| <= |w.buf|
        ==> PackScalars(w, c) == Ok(Stored(w, ItemsBytes(c, items)))
    ensures !(ItemsFit(c, items) && w.next + |ItemsBytes(c, items)| <= |w.buf|) ==> PackScalars(w, c).Err?
  {
    hide ReadAs, ScalarFits, DefaultRange, ItemsBytes, StoreItems, DefaultRangeItems;
    FittingItemsPass(c, items);
    if ItemsFit(c, items) {
      StoreItemsFits(w, c, items);
    } else if PackScalars(w, c).Ok? {
      StoreItemsReads(w, c, items);
    }
  }

  // ---------- one instruction ----------

  /** A packer that stores `bs` exactly when `ok` holds and the buffer has room. */
  ghost predicate StoresIf(ok: bool, w: Writer, bs: seq<byte>, r: Result<Writer>) {
    if ok && w.next + |bs| <= |w.buf| then r == Ok(Stored(w, bs)) else r.Err?
  }

  lemma ScalarExact(w: Writer, c: TypeCode, v: Value, l: Option<Limits>)
    requires IsNumberOrBool(c) && w.next <= |w.buf| && w.state.value == v
    requires w.state.rangeCheck.RangeOk? ==> IsNumber(c) && l.Some? && WithinLimits(StoredLimits(c, l.value), v)
    ensures StoresIf(ScalarFits(c, v), w, ScalarBytes(c, v), PackScalar(w, c))
  {
    hide ScalarBytes, StoredLimits;
    if w.state.rangeCheck.RangeOk? {
      StoredLimitsInType(c, l.value);
    }
  }

  lemma LimitedItemsFit(c: TypeCode, items: seq<Value>, l: Limits)
    requires IsNumber(c) && WithinLimits(StoredLimits(c, l), VArray(items))
    ensures ItemsFit(c, items)
  {
    hide StoredLimits;
    StoredLimitsInType(c, l);
  }

  lemma StringStored(buf: seq<byte>, p: nat, s: seq<byte>, n: nat)
    requires |s| <= n && p + n <= |buf|
    ensures WriteAt(WriteAt(buf, p, Zeros(n)), p, s) == WriteAt(buf, p, s + Zeros(n - |s|))
  {
  }

  /** What the limit instruction leaves known about the items of an array. */
  ghost predicate CheckedFits(e: DataElement, v: Value, s: WriteState) {
    s.rangeCheck.RangeOk? ==> IsNumber(e.code) && v.VArray? && ItemsFit(e.code, v.items)
  }

  lemma FixedExact(w: Writer, e: DataElement, v: Value)
    requires e.IsArray() && !e.isDynamic && !e.code.Record? && !e.code.Char16? && !e.code.Char32?
    requires w.next <= |w.buf| && w.state.value == v && w.state.elementSize == TypeSize(e.code)
    requires w.state.arrayLen == e.arrayLen && w.state.dynamicSize == SizeNone
    requires v.VArray? && IsNumberOrBool(e.code) ==> CheckedFits(e, v, w.state)
    ensures !LeafFits(e, v) ==> PackByType(w, e.code).Err?
    ensures LeafFits(e, v) ==> StoresIf(true, w, LeafBytes(e, v), PackByType(w, e.code))
  {
    hide ItemsBytes, ScalarFits, StoreItems, DefaultRangeItems, PackScalars, PackString, PackBytes;
    if IsNumberOrBool(e.code) {
      FixedScalars(w, e.code, v);
    } else if !e.code.Byte? {
      FixedString(w, e.code, v);
    } else {
      FixedBytes(w, v);
    }
  }

  lemma FixedScalars(w: Writer, c: TypeCode, v: Value)
    requires IsNumberOrBool(c) && w.next <= |w.buf| && w.state.value == v && w.state.dynamicSize == SizeNone
    requires w.state.rangeCheck.RangeOk? && v.VArray? ==> ItemsFit(c, v.items)
    ensures StoresIf(v.VArray? && |v.items| == w.state.arrayLen && ItemsFit(c, v.items), w,
                     if v.VArray? then ItemsBytes(c, v.items) else [], PackScalars(w, c))
  {
    hide StoreItems, ItemsBytes, DefaultRangeItems, ItemsFit, IsNumberOrBool;
    if v.VArray? && |v.items| == w.state.arrayLen {
      PackScalarsExact(w, c, v.items);
    }
  }

  lemma FixedString(w: Writer, c: TypeCode, v: Value)
    requires (c.Char? || c.Char8?) && w.next <= |w.buf| && w.state.value == v && w.state.elementSize == 1
    ensures var n := w.state.arrayLen;
            StoresIf(v.VStr? && |v.s| <= n, w, if v.VStr? && |v.s| <= n then v.s + Zeros(n - |v.s|) else [], PackString(w, c))
  {
    var n := w.state.arrayLen;
    if v.VStr? && |v.s| <= n && w.next + n <= |w.buf| {
      StringStored(w.buf, w.next, v.s, n);
    }
  }

  lemma FixedBytes(w: Writer, v: Value)
    requires w.next <= |w.buf| && w.state.value == v && w.state.dynamicSize == SizeNone && w.state.arrayLen > 0
    ensures StoresIf(v.VBytes? && |v.bs| == w.state.arrayLen, w, if v.VBytes? then v.bs else [], PackBytes(w))
  {
    if v.VBytes? && |v.bs| == w.state.arrayLen {
      assert v.bs[..w.state.arrayLen] == v.bs;
    }
  }

  lemma ArrayContentExact(w: Writer, e: DataElement, v: Value)
    requires !e.code.Record? && !e.code.Char16? && !e.code.Char32?
    requires w.state.value == v && w.state.elementSize == TypeSize(e.code)
    requires ValueLength(v).Some? && w.state.arrayLen == ValueLength(v).value > 0 && w.state.dynamicSize != SizeNone
    requires w.next + Times(w.state.arrayLen, TypeSize(e.code)) <= |w.buf|
    requires v.VArray? && IsNumberOrBool(e.code) ==> CheckedFits(e, v, w.state)
    ensures var r := if IsNumberOrBool(e.code) then PackScalars(w, e.code)
                     else if IsCharType(e.code) then PackString(w, e.code) else PackBytes(w);
            StoresIf(ArrayKindFits(e.code, v), w, ArrayBytes(e.code, v), r)
  {
    hide ScalarFits, StoreItems, DefaultRangeItems, ItemsBytes;
    if IsNumberOrBool(e.code) {
      if v.VArray? {
        PackScalarsExact(w, e.code, v.items);
      }
    } else if !e.code.Byte? {
      if v.VStr? {
        StringStored(w.buf, w.next, v.s, |v.s|);
        assert v.s + Zeros(0) == v.s;
      }
    } else if v.VBytes? {
      assert v.bs[..|v.bs|] == v.bs;
    }
  }

  lemma LengthWrites(w: Writer, n: nat, arrayLen: uint32)
    requires 0 < arrayLen && n <= arrayLen
    ensures StoresIf(true, w, PackLE(n, LengthSize(arrayLen)), WriteLength(w, n, LengthSize(arrayLen)))
  {
    Pow256Values();
  }

  lemma DynamicExact(w: Writer, e: DataElement, v: Value)
    requires e.IsDynamicArray() && !e.code.Record? && !e.code.Char16? && !e.code.Char32?
    requires w.state.value == v && w.state.elementSize == TypeSize(e.code)
    requires ValueLength(v).Some? && ValueLength(v).value <= e.arrayLen
    requires w.state.arrayLen == ValueLength(v).value && w.state.dynamicSize == SizeToSizeType(e.arrayLen)
    requires w.next + Size(e) <= |w.buf|
    requires v.VArray? && IsNumberOrBool(e.code) ==> CheckedFits(e, v, w.state)
    ensures !LeafFits(e, v) ==> PackByType(w, e.code).Err?
    ensures LeafFits(e, v) ==> StoresIf(true, w, LeafBytes(e, v), PackByType(w, e.code))
  {
    hide PackScalars, PackString, PackBytes, ArrayBytes, ArrayKindFits, ItemsFit, PackLE, WriteLength;
    var n, size := ValueLength(v).value, LengthSize(e.arrayLen);
    TimesMonotone(n, e.arrayLen, TypeSize(e.code));
    LengthWrites(w, n, e.arrayLen);
    var w1 := Stored(w, PackLE(n, size));
    if n == 0 {
      assert ArrayBytes(e.code, v) == [] by { EmptyArrayBytes(e.code, v); }
      assert PackLE(0, size) + [] == PackLE(0, size);
    } else {
      ArrayContentExact(w1, e, v);
      if LeafFits(e, v) {
        LeafBytesFit(e, v);
        WriteAtAppend(w.buf, w.next, PackLE(n, size), ArrayBytes(e.code, v));
      }
    }
  }

  lemma EmptyArrayBytes(c: TypeCode, v: Value)
    requires ValueLength(v) == Some(0)
    ensures ArrayBytes(c, v) == []
  {
  }
}
