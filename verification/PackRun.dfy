/**
 * The compiled pack program run by the serializer: it succeeds exactly on the values that
 * conform, writes exactly their layout, and leaves the state stack where it found it.
 */
module PackRun {
  import opened Common
  import opened Bytes
  import opened DataElements
  import opened Layouts
  import opened Bytecode
  import opened Decoding
  import opened WriterModel
  import opened PackLeaf

  // ---------- the dispatch loop (apx/src/vm.c) ----------

  /** Program position, saved position and serializer. */
  datatype PackMachine = PackMachine(next: nat, mark: Option<nat>, w: Writer)

  datatype Outcome<+T> = Done(value: T) | Failed(error: Error) | OutOfFuel

  /** The size type run_pack_instruction passes on. */
  function OperationSizeType(arrayLen: nat, isDynamic: bool): SizeType {
    if isDynamic then SizeToSizeType(arrayLen) else SizeNone
  }

  /** One iteration of run_pack_program, with `m.next` already past the operation. */
  function PackStep(op: Operation, m: PackMachine): Result<PackMachine> {
    match op
    case Data(t, code, n, isDynamic) =>
      if t.UnpackProgram? then Err(InvalidInstructionError)
      else if code.Char16? || code.Char32? then Err(NotImplementedError)
      else
        var w :- Pack(m.w, code, n, OperationSizeType(n, isDynamic));
        Ok(m.(w := w, mark := if code.Record? && n > 0 then Some(m.next) else m.mark))
    case RangeCheck(kind, lower, upper) =>
      var w :- CheckRange(m.w, kind, lower, upper);
      Ok(m.(w := w))
    case RecordSelect(key, isLast) =>
      var w :- SelectField(m.w, key, isLast);
      Ok(m.(w := w))
    case ArrayNext =>
      var (w, isLast) :- NextItem(m.w);
      if isLast then Ok(m.(w := w))
      else if m.mark.Some? then Ok(m.(w := w, next := m.mark.value))
      else Err(InvalidInstructionError)
    case ProgramEnd => Ok(m)
  }

  /** At most `fuel` operations of run_pack_program. */
  function RunPack(prog: seq<byte>, m: PackMachine, fuel: nat): Outcome<PackMachine>
    decreases fuel
  {
    if fuel == 0 then OutOfFuel
    else if m.next >= |prog| then Done(m)
    else
      match DecodeOperation(prog, m.next)
      case Err(error) => Failed(error)
      case Ok((op, after)) =>
        match PackStep(op, m.(next := after))
        case Err(error) => Failed(error)
        case Ok(m1) => RunPack(prog, m1, fuel - 1)
  }

  /** `k` operations lead from `m` to `d`. */
  ghost predicate Leads(prog: seq<byte>, m: PackMachine, k: nat, d: PackMachine) {
    forall f: nat :: f >= k ==> RunPack(prog, m, f) == RunPack(prog, d, f - k)
  }

  /** The run fails within `k` operations. */
  ghost predicate Fails(prog: seq<byte>, m: PackMachine, k: nat) {
    forall f: nat :: f >= k ==> RunPack(prog, m, f).Failed?
  }

  lemma LeadsThenLeads(prog: seq<byte>, m: PackMachine, k: nat, d: PackMachine, k2: nat, d2: PackMachine)
    requires Leads(prog, m, k, d) && Leads(prog, d, k2, d2)
    ensures Leads(prog, m, k + k2, d2)
  {
    forall f: nat | f >= k + k2 ensures RunPack(prog, m, f) == RunPack(prog, d2, f - (k + k2)) {
      assert RunPack(prog, m, f) == RunPack(prog, d, f - k);
    }
  }

  lemma LeadsThenFails(prog: seq<byte>, m: PackMachine, k: nat, d: PackMachine, k2: nat)
    requires Leads(prog, m, k, d) && Fails(prog, d, k2)
    ensures Fails(prog, m, k + k2)
  {
    forall f: nat | f >= k + k2 ensures RunPack(prog, m, f).Failed? {
      assert RunPack(prog, m, f) == RunPack(prog, d, f - k);
    }
  }

  lemma StepLeads(prog: seq<byte>, m: PackMachine, op: Operation, after: nat)
    requires m.next < |prog| && DecodeOperation(prog, m.next) == Ok((op, after))
    ensures PackStep(op, m.(next := after)).Ok? ==> Leads(prog, m, 1, PackStep(op, m.(next := after)).value)
    ensures PackStep(op, m.(next := after)).Err? ==> Fails(prog, m, 1)
  {
    hide DecodeOperation, PackStep;
  }

  /** What running the code of a piece of a program must come to. */
  ghost predicate Runs(prog: seq<byte>, m: PackMachine, k: nat, d: PackMachine, ok: bool, length: nat, cells: seq<Cell>) {
    if ok then
      && Leads(prog, m, k, d)
      && d.next == m.next + length && d.mark == m.mark
      && Lands(m.w, d.w, cells)
    else Fails(prog, m, k)
  }

  // ---------- leaves ----------

  /** Room for `n` more bytes at the cursor. */
  predicate HasRoom(w: Writer, n: nat) { Cursor(w) + n <= |w.buf| }

  predicate Idle(w: Writer) { !w.queue.isActive && w.next <= |w.buf| }

  /** Facts about the state that a leaf instruction prepares. */
  lemma Prepared(e: DataElement, v: Value, w: Writer)
    requires !e.code.Record? && Size(e) < U32_MOD && w.next <= |w.buf| && HasRoom(w, 0)
    requires Ready(e, v, w.state)
    requires e.IsDynamicArray() ==> ValueLength(v).Some? && ValueLength(v).value <= e.arrayLen && HasRoom(w, Size(e))
    ensures var n := if e.code.Byte? && e.arrayLen == 0 then 1 else e.arrayLen;
            && PrepareWrite(w, e.code, TypeSize(e.code)).Ok?
            && PrepareArray(PrepareWrite(w, e.code, TypeSize(e.code)).value, n, DynamicType(e))
               == Ok(w.(next := Cursor(w),
                        padded := if e.IsDynamicArray() then Some(Cursor(w) + Size(e)) else None,
                        state := w.state.(code := Some(e.code), elementSize := TypeSize(e.code),
                                          arrayLen := if e.IsDynamicArray() then ValueLength(v).value else n,
                                          maxArrayLen := if e.IsDynamicArray() then e.arrayLen else 0,
                                          dynamicSize := DynamicType(e))))
  {
    assert e.IsDynamicArray() ==> Times(e.arrayLen, TypeSize(e.code)) % U32_MOD == Times(e.arrayLen, TypeSize(e.code));
  }

  lemma NotPrepared(e: DataElement, v: Value, w: Writer)
    requires !e.code.Record? && Size(e) < U32_MOD && w.next <= |w.buf|
    requires Ready(e, v, w.state)
    requires e.IsDynamicArray() ==> ValueLength(v).None? || ValueLength(v).value > e.arrayLen || !HasRoom(w, Size(e))
    requires !e.IsDynamicArray() ==> Cursor(w) > |w.buf|
    ensures Pack(w, e.code, e.arrayLen, DynamicType(e)).Err?
  {
    hide PackValue;
    assert e.IsDynamicArray() ==> Times(e.arrayLen, TypeSize(e.code)) % U32_MOD == Times(e.arrayLen, TypeSize(e.code));
  }

  lemma PoppedBelow(state: WriteState, stack: seq<WriteState>, w: Writer)
    requires (w.state, w.stack) == Pop(state, stack)
    ensures Popped(stack, w)
  {
  }

  /** A leaf of any kind, with its state and buffer prepared. */
  lemma ByTypeExact(w: Writer, e: DataElement, v: Value)
    requires !e.code.Record? && Compiles(e) && w.next <= |w.buf|
    requires w.state.value == v && w.state.elementSize == TypeSize(e.code)
    requires w.state.rangeCheck.RangeOk? ==> e.limits.Some? && WithinLimits(StoredLimits(e.code, e.limits.value), v)
    requires w.state.dynamicSize == DynamicType(e)
    requires w.state.arrayLen == if e.IsDynamicArray() && ValueLength(v).Some? then ValueLength(v).value
                                 else if e.code.Byte? && e.arrayLen == 0 then 1 else e.arrayLen
    requires e.IsDynamicArray() ==> ValueLength(v).Some? && ValueLength(v).value <= e.arrayLen && w.next + Size(e) <= |w.buf|
    ensures !LeafFits(e, v) ==> PackByType(w, e.code).Err?
    ensures LeafFits(e, v) ==> StoresIf(true, w, LeafBytes(e, v), PackByType(w, e.code))
  {
    hide PackScalar, PackScalars, PackString, ScalarBytes, StoredLimits, ItemsFit;
    if w.state.rangeCheck.RangeOk? && v.VArray? && IsNumber(e.code) {
      LimitedItemsFit(e.code, v.items, e.limits.value);
    }
    if e.IsDynamicArray() {
      LimitedKind(e, v, w.state);
      DynamicExact(w, e, v);
    } else if e.IsArray() {
      LimitedKind(e, v, w.state);
      FixedExact(w, e, v);
    } else if e.code.Byte? {
      if v.VBytes? && |v.bs| == 1 {
        assert v.bs[..1] == v.bs;
      }
    } else if IsNumberOrBool(e.code) {
      ScalarExact(w, e.code, v, e.limits);
    }
  }

  /** Array values that passed a limit check are numbers, unless the array holds bytes. */
  lemma LimitedKind(e: DataElement, v: Value, s: WriteState)
    requires !e.code.Record? && Compiles(e)
    requires s.rangeCheck.RangeOk? ==> e.limits.Some? && WithinLimits(StoredLimits(e.code, e.limits.value), v)
    requires s.rangeCheck.RangeOk? && v.VArray? && IsNumber(e.code) ==> ItemsFit(e.code, v.items)
    ensures v.VArray? && IsNumberOrBool(e.code) ==> CheckedFits(e, v, s)
  {
  }

  /** One pack instruction: a fitting value with room lands, anything else is refused. */
  lemma LeafPacks(e: DataElement, v: Value, w: Writer)
    requires !e.code.Record? && Compiles(e) && Size(e) < U32_MOD && Idle(w) && Ready(e, v, w.state)
    ensures var r := Pack(w, e.code, e.arrayLen, DynamicType(e));
            if LeafFits(e, v) && HasRoom(w, Size(e)) then r.Ok? && Lands(w, r.value, LeafLayout(e, v)) else r.Err?
  {
    hide PackByType, LeafBytes, LeafFits, Compiles, Pop;
    if Cursor(w) > |w.buf|
       || (e.IsDynamicArray() && (ValueLength(v).None? || ValueLength(v).value > e.arrayLen || !HasRoom(w, Size(e)))) {
      NotPrepared(e, v, w);
      if e.IsDynamicArray() && HasRoom(w, Size(e)) {
        TooLong(e, v);
      }
    } else {
      Prepared(e, v, w);
      var n := if e.code.Byte? && e.arrayLen == 0 then 1 else e.arrayLen;
      var w2 := PrepareArray(PrepareWrite(w, e.code, TypeSize(e.code)).value, n, DynamicType(e)).value;
      ByTypeExact(w2, e, v);
      if LeafFits(e, v) {
        LeafBytesFit(e, v);
        if HasRoom(w, Size(e)) {
          var bs := LeafBytes(e, v);
          OverlayWritten(w.buf, Cursor(w), bs, Size(e) - |bs|);
          var d := Pack(w, e.code, e.arrayLen, DynamicType(e)).value;
          assert d == PopState(Stored(w2, bs));
          PoppedBelow(w2.state, w2.stack, d);
        }
      }
    }
  }

  lemma TooLong(e: DataElement, v: Value)
    requires e.IsDynamicArray() && (ValueLength(v).None? || ValueLength(v).value > e.arrayLen)
    ensures !LeafFits(e, v)
  {
  }

  // ---------- the limit instruction ----------

  lemma InRangeExact(kind: CheckKind, v: Value, lower: int, upper: int)
    ensures var c := CheckType(kind);
            (ReadAs(c, v).Ok? && InRange(kind, v, lower, upper) == NoError)
            <==> (v.VInt? && TypeMin(c) <= v.n <= TypeMax(c) && lower <= v.n <= upper)
  {
  }

  lemma {:induction false} CheckItemsExact(kind: CheckKind, items: seq<Value>, l: Limits)
    requires TypeMin(CheckType(kind)) <= l.lower && l.upper <= TypeMax(CheckType(kind))
    ensures CheckItems(kind, items, l.lower, l.upper) == NoError <==> WithinLimits(l, VArray(items))
  {
    if |items| > 0 {
      hide ReadAs, InRange, CheckType;
      InRangeExact(kind, items[0], l.lower, l.upper);
      ReadAsValue(CheckType(kind), items[0]);
      CheckItemsExact(kind, items[1..], l);
      if NumberWithin(l, items[0]) && WithinLimits(l, VArray(items[1..])) {
        forall i | 0 <= i < |items| ensures NumberWithin(l, items[i]) {
          if i > 0 { assert items[i] == items[1..][i - 1]; }
        }
      }
      if WithinLimits(l, VArray(items)) {
        assert NumberWithin(l, items[0]);
        assert forall i :: 0 <= i < |items[1..]| ==> items[1..][i] == items[i + 1];
      }
    }
  }

  lemma ReadAsValue(c: TypeCode, v: Value)
    ensures ReadAs(c, v).Ok? ==> ReadAs(c, v).value == v
  {
  }

  lemma StoredLimitsInCheckType(c: TypeCode, l: Limits)
    requires LimitVariant(c) != VARIANT_LIMIT_CHECK_NONE
    ensures var k := CheckType(LimitOperation(c, l).kind);
            TypeMin(k) <= StoredLimits(c, l).lower && StoredLimits(c, l).upper <= TypeMax(k)
  {
    if c.Byte? {
      Pow256Values();
      UnpackLEBound(PackLE(l.lower, 1));
      UnpackLEBound(PackLE(l.upper, 1));
    } else {
      StoredLimitsInType(c, l);
    }
  }

  /** The limit instruction passes exactly the values within the stored limits. */
  lemma LimitExact(c: TypeCode, l: Limits, v: Value)
    requires LimitVariant(c) != VARIANT_LIMIT_CHECK_NONE
    ensures var op := LimitOperation(c, l);
            CheckValue(op.kind, v, op.lower, op.upper) == NoError <==> WithinLimits(StoredLimits(c, l), v)
  {
    hide CheckItems, StoredLimits;
    var op, s := LimitOperation(c, l), StoredLimits(c, l);
    StoredLimitsInCheckType(c, l);
    match v
    case VArray(items) => CheckItemsExact(op.kind, items, s);
    case _ => InRangeExact(op.kind, v, s.lower, s.upper);
  }

  // ---------- running a leaf ----------

  function LeafCells(e: DataElement, v: Value): seq<Cell>
    requires !e.code.Record?
  {
    if LeafFits(e, v) then LeafLayout(e, v) else []
  }

  lemma DataRuns(prog: seq<byte>, e: DataElement, v: Value, m: PackMachine) returns (d: PackMachine)
    requires !e.code.Record? && Compiles(e) && Size(e) < U32_MOD
    requires At(prog, m.next, DataCode(e, PackProgram)) && Idle(m.w) && Ready(e, v, m.w.state)
    ensures Runs(prog, m, 1, d, LeafFits(e, v) && HasRoom(m.w, Size(e)), |DataCode(e, PackProgram)|, LeafCells(e, v))
  {
    hide LeafFits, Compiles, Lands, Pack, LeafLayout, DecodeOperation, RunPack;
    DecodeDataCode(prog, m.next, e, PackProgram);
    var op := Data(PackProgram, e.code, e.arrayLen, e.IsDynamicArray());
    var m1 := m.(next := m.next + |DataCode(e, PackProgram)|);
    StepLeads(prog, m, op, m1.next);
    LeafPacks(e, v, m.w);
    assert e.code != Char16 && e.code != Char32 by { CompiledType(e); }
    var r := Pack(m.w, e.code, e.arrayLen, DynamicType(e));
    d := if r.Ok? then m1.(w := r.value) else m1;
  }

  lemma CompiledType(e: DataElement)
    requires !e.code.Record? && Compiles(e)
    ensures e.code != Char16 && e.code != Char32
    ensures e.limits.Some? ==> LimitVariant(e.code) != VARIANT_LIMIT_CHECK_NONE
  {
  }

  lemma LeafRuns(prog: seq<byte>, e: DataElement, v: Value, m: PackMachine) returns (k: nat, d: PackMachine)
    requires !e.code.Record? && Compiles(e) && Size(e) < U32_MOD
    requires At(prog, m.next, Code(e, PackProgram)) && Idle(m.w) && m.w.state == Fresh(v)
    ensures Runs(prog, m, k, d, LeafConforms(e, v) && HasRoom(m.w, Size(e)), |Code(e, PackProgram)|, LeafCells(e, v))
  {
    hide LeafFits, Compiles, Lands, Pack, LeafLayout, DecodeOperation, RunPack, StoredLimits, WithinLimits, CheckValue, Leads, Fails, At, DataCode, LimitCode;
    AtSplit(prog, m.next, LimitPart(e), DataCode(e, PackProgram));
    match e.limits {
      case None =>
        k := 1;
        d := DataRuns(prog, e, v, m);
      case Some(l) =>
        CompiledType(e);
        LimitExact(e.code, l, v);
        var m1 := LimitRuns(prog, e.code, l, e.IsArray(), m);
        if WithinLimits(StoredLimits(e.code, l), v) {
          d := DataRuns(prog, e, v, m1);
          k := 2;
          if LeafFits(e, v) && HasRoom(m.w, Size(e)) {
            LeadsThenLeads(prog, m, 1, m1, 1, d);
            LandsOnSame(m.w, m1.w, d.w, LeafCells(e, v));
          } else {
            LeadsThenFails(prog, m, 1, m1, 1);
          }
        } else {
          k, d := 1, m;
        }
    }
  }

  lemma LandsOnSame(w: Writer, w1: Writer, d: Writer, cells: seq<Cell>)
    requires Lands(w1, d, cells)
    requires w1.buf == w.buf && w1.next == w.next && w1.padded == w.padded && w1.stack == w.stack && w1.queue == w.queue
    ensures Lands(w, d, cells)
  {
  }

  lemma LimitRuns(prog: seq<byte>, c: TypeCode, l: Limits, isArray: bool, m: PackMachine) returns (d: PackMachine)
    requires LimitVariant(c) != VARIANT_LIMIT_CHECK_NONE && At(prog, m.next, LimitCode(c, l, isArray))
    ensures var op := LimitOperation(c, l);
            if CheckValue(op.kind, m.w.state.value, op.lower, op.upper) == NoError then
              && Leads(prog, m, 1, d)
              && d == m.(next := m.next + |LimitCode(c, l, isArray)|, w := m.w.(state := m.w.state.(rangeCheck := RangeOk)))
            else Fails(prog, m, 1)
  {
    hide CheckValue, DecodeOperation, RunPack, StoredLimits;
    DecodeLimitCode(prog, m.next, c, l, isArray);
    var m1 := m.(next := m.next + |LimitCode(c, l, isArray)|);
    StepLeads(prog, m, LimitOperation(c, l), m1.next);
    d := m1.(w := m.w.(state := m.w.state.(rangeCheck := RangeOk)));
  }
}
