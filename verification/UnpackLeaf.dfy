/** One unpack instruction of a leaf, and what its limit check makes of the value. */
module UnpackLeaf {
  import opened Common
  import opened Bytes
  import opened DataElements
  import opened Layouts
  import opened Bytecode
  import opened ReaderModel
  import opened PackLeaf
  import opened PackRun

  function ReadCursor(r: Reader): nat {
    if r.padded.Some? then r.padded.value else r.next
  }

  /** While padding is pending, the position before it lies inside the buffer. */
  predicate Tidy(r: Reader) {
    !r.queue.isActive && (r.padded.Some? ==> r.next <= |r.buf|)
  }

  /** `d` is `r` after a finished value `v` was handed to the states in `stack`. */
  ghost predicate Handed(stack: seq<ReadState>, v: Value, d: Reader) {
    if |stack| == 0 then d.stack == [] && d.state.value == v
    else FoldPop(BLANK.(value := v), stack) == Ok((d.state, d.stack))
  }

  ghost predicate Reads(r: Reader, d: Reader, v: Value, size: nat) {
    && d.buf == r.buf && ReadCursor(d) == ReadCursor(r) + size && Tidy(d)
    && Handed(r.stack, v, d)
  }

  /** The states above a value under construction: records awaiting a field, or a list of records. */
  predicate Collects(s: ReadState) {
    && s.code == Some(Record)
    && match s.value
       case VRecord(_) => s.fieldName != []
       case VArray(items) => forall i :: 0 <= i < |items| ==> items[i].VRecord?
       case _ => false
  }

  /** Only the bottom state can be a list. */
  predicate CollectsAll(stack: seq<ReadState>) {
    && (forall i :: 0 <= i < |stack| ==> Collects(stack[i]))
    && (forall i :: 1 <= i < |stack| ==> stack[i].value.VRecord?)
  }

  /** The state on top can take `v`. */
  predicate Takes(stack: seq<ReadState>, v: Value) {
    && CollectsAll(stack) && !v.VNull?
    && (|stack| > 0 && stack[|stack| - 1].value.VArray? ==> v.VRecord?)
  }

  predicate RecordOrList(v: Value) {
    match v
    case VRecord(_) => true
    case VArray(items) => |items| > 0 && forall i :: 0 <= i < |items| ==> items[i].VRecord?
    case _ => false
  }

  /** Only the value of the finished state matters to the fold. */
  lemma FoldPopValue(a: ReadState, b: ReadState, stack: seq<ReadState>)
    requires a.value == b.value && |stack| > 0
    ensures FoldPop(a, stack) == FoldPop(b, stack)
  {
  }

  lemma {:induction false} FoldPopWorks(state: ReadState, stack: seq<ReadState>)
    requires |stack| > 0 && Takes(stack, state.value)
    ensures FoldPop(state, stack).Ok? && RecordOrList(FoldPop(state, stack).value.0.value)
    decreases |stack|
  {
    var top, rest := stack[|stack| - 1], stack[..|stack| - 1];
    assert Collects(top);
    var parent := Fold(top, state.value).value;
    if parent.isLastField && |rest| > 0 {
      assert stack[|rest|].value.VRecord?;
      FoldPopWorks(parent, rest);
    }
  }

  // ---------- reading scalars, arrays and strings ----------

  lemma {:induction false} LoadItemsExact(r: Reader, c: TypeCode, n: nat)
    requires r.next <= |r.buf|
    ensures r.next + Times(n, TypeSize(c)) <= |r.buf|
        ==> LoadItems(r, c, n) == Ok((ReadScalars(c, r.buf, r.next, n), r.(next := r.next + Times(n, TypeSize(c)))))
    ensures r.next + Times(n, TypeSize(c)) > |r.buf| ==> LoadItems(r, c, n).Err?
    decreases n
  {
    hide ReadScalar, TypeSize;
    if n > 0 {
      LoadItemsParts(r, c, n);
      if r.next + TypeSize(c) <= |r.buf| {
        hide LoadItems, ReadScalars;
        LoadItemsExact(r.(next := r.next + TypeSize(c)), c, n - 1);
      }
    }
  }

  lemma LoadItemsParts(r: Reader, c: TypeCode, n: nat)
    requires n > 0
    ensures r.next + TypeSize(c) > |r.buf| ==> LoadItems(r, c, n).Err?
    ensures r.next + TypeSize(c) <= |r.buf| ==>
      var rest := LoadItems(r.(next := r.next + TypeSize(c)), c, n - 1);
      LoadItems(r, c, n) == if rest.Ok? then Ok(([ReadScalar(c, r.buf[r.next..r.next + TypeSize(c)])] + rest.value.0, rest.value.1)) else Err(rest.error)
  {
    hide ReadScalar, TypeSize;
  }

  /** The type code the deserializer works with. */
  function ReadCode(c: TypeCode): TypeCode { if c.Char8? then Char else c }

  /** What LoadByType makes of `n` elements at the position of `r`. */
  lemma ArrayLoads(r: Reader, c: TypeCode, n: nat)
    requires n > 0 && r.state.arrayLen == n && r.next <= |r.buf|
    requires !c.Record? && !c.Char16? && !c.Char32?
    ensures var fixedText := (c.Char? || c.Char8?) && r.state.dynamicSize == SizeNone;
            var v := if fixedText then ReadFixedString(r.buf, r.next, n) else ReadArray(c, r.buf, r.next, n);
            if v.Some? then LoadByType(r, ReadCode(c)) == Ok((v.value, r.(next := r.next + Times(n, TypeSize(c)))))
            else LoadByType(r, ReadCode(c)).Err?
  {
    hide ReadScalars, ReadFixedString, LoadItems;
    if IsNumberOrBool(c) {
      LoadItemsExact(r, c, n);
    }
  }

  lemma ScalarLoads(r: Reader, c: TypeCode)
    requires r.state.arrayLen == 0 && !c.Record? && !c.Char16? && !c.Char32?
    ensures if r.next + TypeSize(c) <= |r.buf|
            then LoadByType(r, ReadCode(c)) == Ok((ReadScalar(c, r.buf[r.next..r.next + TypeSize(c)]), r.(next := r.next + TypeSize(c))))
            else LoadByType(r, ReadCode(c)).Err?
  {
  }

  lemma ReadLeafNotNull(e: DataElement, buf: seq<byte>, p: nat)
    requires !e.code.Record?
    ensures ReadLeaf(e, buf, p).Some? ==> !ReadLeaf(e, buf, p).value.VNull?
    ensures p > |buf| ==> ReadLeaf(e, buf, p).None?
    ensures p >= |buf| && e.code != Char16 && e.code != Char32 ==> ReadLeaf(e, buf, p).None?
  {
    if e.arrayLen > 0 && e.isDynamic && p + LengthSize(e.arrayLen) <= |buf| {
      assert LengthSize(e.arrayLen) > 0;
    }
    if e.arrayLen > 0 && !e.isDynamic && p == |buf| {
      TimesAtLeast(e.arrayLen, TypeSize(e.code));
    }
  }

  /** The reader just after its buffer position and state were prepared. */
  function ReadyToLoad(r: Reader, e: DataElement): Reader {
    r.(next := ReadCursor(r), padded := None,
       state := BLANK.(code := Some(ReadCode(e.code)), elementSize := TypeSize(e.code)))
  }

  lemma PrepareReadExact(r: Reader, e: DataElement)
    requires Tidy(r) && !e.code.Record?
    ensures if ReadCursor(r) <= |r.buf| then PrepareRead(r, ReadCode(e.code), TypeSize(ReadCode(e.code))) == Ok(ReadyToLoad(r, e))
            else PrepareRead(r, ReadCode(e.code), TypeSize(ReadCode(e.code))).Err?
  {
  }

  /** The reader and value after loading, before the value is handed on. */
  ghost predicate Loads(r: Reader, e: DataElement, x: Result<(Value, Reader)>, v: Option<Value>) {
    if v.None? then x.Err? else
      && x.Ok? && x.value.0 == v.value
      && x.value.1.buf == r.buf && x.value.1.stack == r.stack && x.value.1.queue == r.queue
      && ReadCursor(x.value.1) == r.next + Size(e) && Tidy(x.value.1)
  }

  function LoadPrepared(r: Reader, e: DataElement): Result<(Value, Reader)> {
    var r1 :- PrepareReadArray(r, e.arrayLen, DynamicType(e));
    if r1.state.arrayLen == 0 && r1.state.dynamicSize != SizeNone then Err(InvalidArgumentError)
    else LoadByType(r1, ReadCode(e.code))
  }

  lemma LeafLoads(r: Reader, e: DataElement)
    requires !e.code.Record? && Compiles(e) && !r.queue.isActive
    requires r.next <= |r.buf| && r.padded.None? && r.state == BLANK.(code := Some(ReadCode(e.code)), elementSize := TypeSize(e.code))
    ensures Loads(r, e, LoadPrepared(r, e), ReadLeaf(e, r.buf, r.next))
  {
    hide LoadByType, ReadArray, ReadFixedString, ReadScalar, UnpackLE;
    CompiledType(e);
    if e.arrayLen == 0 {
      ScalarLoads(r, e.code);
    } else if !e.isDynamic {
      ArrayLoads(r.(state := r.state.(arrayLen := e.arrayLen)), e.code, e.arrayLen);
    } else {
      var w := LengthSize(e.arrayLen);
      if r.next + w <= |r.buf| {
        var n := UnpackLE(r.buf[r.next..r.next + w]);
        if 0 < n <= e.arrayLen {
          var r1 := PrepareReadArray(r, e.arrayLen, DynamicType(e)).value;
          ArrayLoads(r1, e.code, n);
          ReadArrayRoom(e.code, r.buf, r.next + w, n);
        }
      }
    }
  }

  lemma ReadArrayRoom(c: TypeCode, buf: seq<byte>, p: nat, n: nat)
    ensures ReadArray(c, buf, p, n).Some? ==> p + Times(n, TypeSize(c)) <= |buf|
  {
  }

  /** An unpack instruction reads exactly what `ReadLeaf` reads and hands it on. */
  lemma LeafUnpacks(r: Reader, e: DataElement)
    requires !e.code.Record? && Compiles(e) && Tidy(r)
    requires CollectsAll(r.stack) && (|r.stack| > 0 ==> r.stack[|r.stack| - 1].value.VRecord?)
    ensures var x := Unpack(r, e.code, e.arrayLen, DynamicType(e));
            match ReadLeaf(e, r.buf, ReadCursor(r))
            case None => x.Err?
            case Some(v) => x.Ok? && Reads(r, x.value, v, Size(e))
  {
    hide LoadByType, ReadLeaf, Compiles, FoldPop;
    CompiledType(e);
    ReadLeafNotNull(e, r.buf, ReadCursor(r));
    PrepareReadExact(r, e);
    if ReadCursor(r) <= |r.buf| {
      var r1 := ReadyToLoad(r, e);
      LeafLoads(r1, e);
      var x := LoadPrepared(r1, e);
      if x.Ok? {
        var loaded := x.value.1.(state := x.value.1.state.(value := x.value.0));
        HandedOn(r.stack, x.value.0, loaded);
      }
    }
  }

  lemma HandedOn(stack: seq<ReadState>, v: Value, r: Reader)
    requires r.stack == stack && r.state.value == v && !v.VNull? && CollectsAll(stack)
    requires |stack| > 0 ==> stack[|stack| - 1].value.VRecord?
    ensures PopRead(r).Ok? && Handed(stack, v, PopRead(r).value)
    ensures var d := PopRead(r).value; d.buf == r.buf && d.next == r.next && d.padded == r.padded && d.queue == r.queue
  {
    if |stack| > 0 {
      FoldPopWorks(r.state, stack);
      FoldPopValue(r.state, BLANK.(value := v), stack);
    }
  }
}
