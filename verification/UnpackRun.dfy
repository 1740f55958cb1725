/**
 * The compiled unpack program run by the deserializer: it yields exactly what reading the
 * buffer by recursion on the element yields, and fails exactly when that does.
 */
module UnpackRun {
  import opened Common
  import opened Bytes
  import opened DataElements
  import opened Layouts
  import opened Bytecode
  import opened Decoding
  import opened ReaderModel
  import opened PackLeaf
  import opened PackRun
  import opened PackRecords
  import opened UnpackLeaf

  datatype UnpackMachine = UnpackMachine(next: nat, mark: Option<nat>, r: Reader)

  /** One iteration of run_unpack_program, with `m.next` already past the operation. */
  function UnpackStep(op: Operation, m: UnpackMachine): Result<UnpackMachine> {
    match op
    case Data(t, code, n, isDynamic) =>
      if t.PackProgram? then Err(InvalidInstructionError)
      else if code.Char16? || code.Char32? then Err(NotImplementedError)
      else
        var r :- Unpack(m.r, code, n, OperationSizeType(n, isDynamic));
        Ok(m.(r := r, mark := if code.Record? && n > 0 then Some(m.next) else m.mark))
    case RangeCheck(kind, lower, upper) =>
      var error := CheckReadValue(kind, m.r.state.value, lower, upper);
      if error != NoError then Err(error) else Ok(m)
    case RecordSelect(key, isLast) =>
      var r :- SelectRead(m.r, key, isLast);
      Ok(m.(r := r))
    case ArrayNext =>
      var (r, isLast) :- NextRead(m.r);
      if isLast then Ok(m.(r := r))
      else if m.mark.Some? then Ok(m.(r := r, next := m.mark.value))
      else Err(InvalidInstructionError)
    case ProgramEnd => Ok(m)
  }

  /** At most `fuel` operations of run_unpack_program. */
  function RunUnpack(prog: seq<byte>, m: UnpackMachine, fuel: nat): Outcome<UnpackMachine>
    decreases fuel
  {
    if fuel == 0 then OutOfFuel
    else if m.next >= |prog| then Done(m)
    else
      match DecodeOperation(prog, m.next)
      case Err(error) => Failed(error)
      case Ok((op, after)) =>
        match UnpackStep(op, m.(next := after))
        case Err(error) => Failed(error)
        case Ok(m1) => RunUnpack(prog, m1, fuel - 1)
  }

  ghost predicate Goes(prog: seq<byte>, m: UnpackMachine, k: nat, d: UnpackMachine) {
    forall f: nat :: f >= k ==> RunUnpack(prog, m, f) == RunUnpack(prog, d, f - k)
  }

  ghost predicate Stops(prog: seq<byte>, m: UnpackMachine, k: nat) {
    forall f: nat :: f >= k ==> RunUnpack(prog, m, f).Failed?
  }

  lemma GoesThenGoes(prog: seq<byte>, m: UnpackMachine, k: nat, d: UnpackMachine, k2: nat, d2: UnpackMachine)
    requires Goes(prog, m, k, d) && Goes(prog, d, k2, d2)
    ensures Goes(prog, m, k + k2, d2)
  {
    forall f: nat | f >= k + k2 ensures RunUnpack(prog, m, f) == RunUnpack(prog, d2, f - (k + k2)) {
      assert RunUnpack(prog, m, f) == RunUnpack(prog, d, f - k);
    }
  }

  lemma GoesThenStops(prog: seq<byte>, m: UnpackMachine, k: nat, d: UnpackMachine, k2: nat)
    requires Goes(prog, m, k, d) && Stops(prog, d, k2)
    ensures Stops(prog, m, k + k2)
  {
    forall f: nat | f >= k + k2 ensures RunUnpack(prog, m, f).Failed? {
      assert RunUnpack(prog, m, f) == RunUnpack(prog, d, f - k);
    }
  }

  lemma StepGoes(prog: seq<byte>, m: UnpackMachine, op: Operation, after: nat)
    requires m.next < |prog| && DecodeOperation(prog, m.next) == Ok((op, after))
    ensures UnpackStep(op, m.(next := after)).Ok? ==> Goes(prog, m, 1, UnpackStep(op, m.(next := after)).value)
    ensures UnpackStep(op, m.(next := after)).Err? ==> Stops(prog, m, 1)
  {
    hide DecodeOperation, UnpackStep;
  }

  /** What running the code of a piece of a program must come to. */
  ghost predicate Yields(prog: seq<byte>, m: UnpackMachine, k: nat, d: UnpackMachine, v: Option<Value>, length: nat, size: nat) {
    match v
    case None => Stops(prog, m, k)
    case Some(x) =>
      && Goes(prog, m, k, d)
      && d.next == m.next + length && d.mark == m.mark
      && Reads(m.r, d.r, x, size)
  }

  /** A child value has a record waiting for it, or nothing at all above it. */
  predicate Awaited(stack: seq<ReadState>) {
    CollectsAll(stack) && (|stack| > 0 ==> stack[|stack| - 1].value.VRecord?)
  }

  // ---------- leaves ----------

  lemma DataReads(prog: seq<byte>, e: DataElement, m: UnpackMachine) returns (d: UnpackMachine)
    requires !e.code.Record? && Compiles(e)
    requires At(prog, m.next, DataCode(e, UnpackProgram)) && Tidy(m.r) && Awaited(m.r.stack)
    ensures Yields(prog, m, 1, d, ReadLeaf(e, m.r.buf, ReadCursor(m.r)), |DataCode(e, UnpackProgram)|, Size(e))
  {
    hide Compiles, Reads, Unpack, ReadLeaf, DecodeOperation, RunUnpack, At, CollectsAll;
    DecodeDataCode(prog, m.next, e, UnpackProgram);
    var op := Data(UnpackProgram, e.code, e.arrayLen, e.IsDynamicArray());
    var m1 := m.(next := m.next + |DataCode(e, UnpackProgram)|);
    StepGoes(prog, m, op, m1.next);
    LeafUnpacks(m.r, e);
    CompiledType(e);
    var x := Unpack(m.r, e.code, e.arrayLen, DynamicType(e));
    d := if x.Ok? then m1.(r := x.value) else m1;
  }

  /** Inside a record the check meets the record, or a list of records, instead of the value. */
  lemma NestedCheckFails(kind: CheckKind, v: Value, lower: int, upper: int)
    requires RecordOrList(v)
    ensures CheckReadValue(kind, v, lower, upper) != NoError
  {
  }

  lemma CheckRuns(prog: seq<byte>, c: TypeCode, l: Limits, isArray: bool, m: UnpackMachine)
    requires LimitVariant(c) != VARIANT_LIMIT_CHECK_NONE && At(prog, m.next, LimitCode(c, l, isArray))
    ensures var op := LimitOperation(c, l);
            if CheckReadValue(op.kind, m.r.state.value, op.lower, op.upper) == NoError
            then Goes(prog, m, 1, m.(next := m.next + |LimitCode(c, l, isArray)|))
            else Stops(prog, m, 1)
  {
    hide CheckReadValue, DecodeOperation, RunUnpack, StoredLimits, At;
    DecodeLimitCode(prog, m.next, c, l, isArray);
    StepGoes(prog, m, LimitOperation(c, l), m.next + |LimitCode(c, l, isArray)|);
  }

  lemma HandedToRecords(stack: seq<ReadState>, v: Value, r: Reader)
    requires |stack| > 0 && Awaited(stack) && !v.VNull? && Handed(stack, v, r)
    ensures RecordOrList(r.state.value)
  {
    FoldPopWorks(BLANK.(value := v), stack);
  }

  /** A leaf that is a field of a record. */
  lemma NestedLeafReads(prog: seq<byte>, e: DataElement, m: UnpackMachine) returns (k: nat, d: UnpackMachine)
    requires !e.code.Record? && Compiles(e) && |m.r.stack| > 0
    requires At(prog, m.next, Code(e, UnpackProgram)) && Tidy(m.r) && Awaited(m.r.stack)
    ensures Yields(prog, m, k, d, ReadField(e, m.r.buf, ReadCursor(m.r)), |Code(e, UnpackProgram)|, Size(e))
  {
    hide Compiles, Handed, ReadLeaf, At, DataCode, Goes, Stops, LimitCode, CollectsAll, Awaited, Tidy;
    AtSplit(prog, m.next, DataCode(e, UnpackProgram), LimitPart(e));
    d := DataReads(prog, e, m);
    k := 1;
    match e.limits {
      case None =>
      case Some(l) =>
        CompiledType(e);
        if ReadLeaf(e, m.r.buf, ReadCursor(m.r)).Some? {
          var v := ReadLeaf(e, m.r.buf, ReadCursor(m.r)).value;
          ReadLeafNotNull(e, m.r.buf, ReadCursor(m.r));
          HandedToRecords(m.r.stack, v, d.r);
          var op := LimitOperation(e.code, l);
          NestedCheckFails(op.kind, d.r.state.value, op.lower, op.upper);
          CheckRuns(prog, e.code, l, e.IsArray(), d);
          GoesThenStops(prog, m, 1, d, 1);
          k := 2;
        }
    }
  }

  // ---------- records ----------

  /** After the record instruction the state is an empty record and the padding is behind. */
  function RecordReader(r: Reader): Reader {
    r.(next := ReadCursor(r), padded := None, state := BLANK.(code := Some(Record), value := VRecord(map[])))
  }

  lemma RecordReadStarts(prog: seq<byte>, e: DataElement, m: UnpackMachine)
    requires e.code.Record? && e.arrayLen == 0
    requires At(prog, m.next, DataCode(e, UnpackProgram)) && Tidy(m.r)
    ensures if ReadCursor(m.r) <= |m.r.buf|
            then Goes(prog, m, 1, m.(next := m.next + |DataCode(e, UnpackProgram)|, r := RecordReader(m.r)))
            else Stops(prog, m, 1)
  {
    hide DecodeOperation, RunUnpack, DataCode, At;
    DecodeDataCode(prog, m.next, e, UnpackProgram);
    StepGoes(prog, m, Data(UnpackProgram, Record, 0, false), m.next + |DataCode(e, UnpackProgram)|);
  }

  function SelectedReader(r: Reader, key: Name, isLast: bool): Reader {
    EnterRead(r.(state := r.state.(fieldName := key, isLastField := isLast)), BLANK)
  }

  lemma SelectReads(prog: seq<byte>, key: Name, isLast: bool, m: UnpackMachine)
    requires NameCompiles(key) && At(prog, m.next, SelectCode(key, isLast)) && m.r.state.value.VRecord?
    ensures Goes(prog, m, 1, m.(next := m.next + |SelectCode(key, isLast)|, r := SelectedReader(m.r, key, isLast)))
  {
    hide DecodeOperation, RunUnpack, SelectCode, At;
    DecodeSelectCode(prog, m.next, key, isLast);
    StepGoes(prog, m, RecordSelect(key, isLast), m.next + |SelectCode(key, isLast)|);
  }

  /** Handing a field's value to its record; the last field hands the record on. */
  lemma FieldHanded(r: Reader, key: Name, isLast: bool, acc: map<Name, Value>, v: Value, d: Reader)
    requires r.state.value == VRecord(acc) && r.state.code == Some(Record) && key != [] && !v.VNull?
    requires Handed(SelectedReader(r, key, isLast).stack, v, d)
    ensures isLast ==> Handed(r.stack, VRecord(acc[key := v]), d)
    ensures !isLast ==> d.stack == r.stack && d.state.value == VRecord(acc[key := v]) && d.state.code == Some(Record)
  {
    var stack := SelectedReader(r, key, isLast).stack;
    assert stack[..|stack| - 1] == r.stack;
    var parent := Fold(stack[|stack| - 1], v).value;
    assert FoldPop(BLANK.(value := v), stack) == if isLast then FoldPop(parent, r.stack) else Ok((parent, r.stack));
    if isLast && |r.stack| > 0 {
      FoldPopValue(parent, BLANK.(value := VRecord(acc[key := v])), r.stack);
    }
  }

  lemma SelectedAwaits(r: Reader, key: Name, isLast: bool)
    requires r.state.value.VRecord? && r.state.code == Some(Record) && key != [] && CollectsAll(r.stack) && Tidy(r)
    ensures var s := SelectedReader(r, key, isLast);
            Awaited(s.stack) && |s.stack| > 0 && Tidy(s) && ReadCursor(s) == ReadCursor(r) && s.buf == r.buf
  {
  }

  /** Past the end of the buffer there is nothing to read. */
  lemma {:induction false} NothingBeyond(e: DataElement, buf: seq<byte>, p: nat)
    requires Compiles(e) && p > |buf|
    ensures ReadField(e, buf, p).None?
    decreases e, 1
  {
    if !e.code.Record? {
      ReadLeafNotNull(e, buf, p);
    } else {
      FieldsCompileParts(e.children);
      NothingBeyond(e.children[0], buf, p);
    }
  }

  lemma {:induction false} FieldReads(prog: seq<byte>, e: DataElement, m: UnpackMachine) returns (k: nat, d: UnpackMachine)
    requires FieldSupported(e) && Compiles(e) && |m.r.stack| > 0
    requires At(prog, m.next, Code(e, UnpackProgram)) && Tidy(m.r) && Awaited(m.r.stack)
    ensures Yields(prog, m, k, d, ReadField(e, m.r.buf, ReadCursor(m.r)), |Code(e, UnpackProgram)|, Size(e))
    decreases e, 2
  {
    if !e.code.Record? {
      k, d := NestedLeafReads(prog, e, m);
    } else {
      k, d := RecordReads(prog, e, m);
    }
  }

  lemma {:induction false} RecordReads(prog: seq<byte>, e: DataElement, m: UnpackMachine) returns (k: nat, d: UnpackMachine)
    requires e.code.Record? && FieldSupported(e) && Compiles(e)
    requires At(prog, m.next, Code(e, UnpackProgram)) && Tidy(m.r) && Awaited(m.r.stack)
    ensures Yields(prog, m, k, d, ReadField(e, m.r.buf, ReadCursor(m.r)), |Code(e, UnpackProgram)|, Size(e))
    decreases e, 1
  {
    hide At, Code, DataCode, FieldsCode, Goes, Stops, ReadFields, Compiles, FieldsCompile, FieldsSupported, Handed, RecordReader, Awaited, CollectsAll;
    RecordCodeParts(prog, m.next, e, UnpackProgram);
    RecordFacts(e, VNull);
    RecordReadStarts(prog, e, m);
    var p := ReadCursor(m.r);
    if p > |m.r.buf| {
      NothingBeyond(e, m.r.buf, p);
      k, d := 1, m;
    } else {
      var m1 := m.(next := m.next + |DataCode(e, UnpackProgram)|, r := RecordReader(m.r));
      RecordReaderFacts(m.r);
      var k1, d1 := FieldsRead(prog, e.children, map[], m1);
      k, d := 1 + k1, d1;
      if ReadFields(e.children, m.r.buf, p, map[]).Some? {
        GoesThenGoes(prog, m, 1, m1, k1, d1);
      } else {
        GoesThenStops(prog, m, 1, m1, k1);
      }
    }
  }

  lemma RecordReaderFacts(r: Reader)
    requires Tidy(r) && Awaited(r.stack) && ReadCursor(r) <= |r.buf|
    ensures var s := RecordReader(r);
            && Tidy(s) && ReadCursor(s) == ReadCursor(r) && s.buf == r.buf && s.stack == r.stack
            && s.state.value == VRecord(map[]) && s.state.code == Some(Record)
    ensures CollectsAll(r.stack)
  {
  }

  lemma {:induction false} FieldsRead(prog: seq<byte>, fs: seq<DataElement>, acc: map<Name, Value>, m: UnpackMachine) returns (k: nat, d: UnpackMachine)
    requires |fs| > 0 && FieldsSupported(fs) && FieldsCompile(fs)
    requires At(prog, m.next, FieldsCode(fs, UnpackProgram)) && Tidy(m.r) && CollectsAll(m.r.stack)
    requires m.r.state.value == VRecord(acc) && m.r.state.code == Some(Record)
    ensures match ReadFields(fs, m.r.buf, ReadCursor(m.r), acc)
            case None => Stops(prog, m, k)
            case Some(x) => Yields(prog, m, k, d, Some(VRecord(x)), |FieldsCode(fs, UnpackProgram)|, FieldsSize(fs))
    decreases fs, 0
  {
    hide At, Code, FieldsCode, SelectCode, Goes, Stops, ReadField, Compiles, FieldsCompile, FieldsSupported, Handed, SelectedReader, Awaited, CollectsAll, NameCompiles;
    var key, isLast := fs[0].name, |fs| == 1;
    SupportedParts(fs);
    FieldsCompileParts(fs);
    NamePresent(key);
    FieldsCodeParts(prog, m.next, fs, UnpackProgram);
    SelectReads(prog, key, isLast, m);
    SelectedAwaits(m.r, key, isLast);
    var m1 := m.(next := m.next + |SelectCode(key, isLast)|, r := SelectedReader(m.r, key, isLast));
    var k1, d1 := FieldReads(prog, fs[0], m1);
    var p := ReadCursor(m.r);
    match ReadField(fs[0], m.r.buf, p) {
      case None =>
        k, d := 1 + k1, m;
        GoesThenStops(prog, m, 1, m1, k1);
      case Some(v) =>
        GoesThenGoes(prog, m, 1, m1, k1, d1);
        ReadFieldNotNull(fs[0], m.r.buf, p);
        FieldHanded(m.r, key, isLast, acc, v, d1.r);
        if isLast {
          k, d := 1 + k1, d1;
          NoMoreFields(fs, m.r.buf, p + Size(fs[0]), acc[key := v]);
        } else {
          var k2, d2 := FieldsRead(prog, fs[1..], acc[key := v], d1);
          k, d := 1 + k1 + k2, d2;
          if ReadFields(fs[1..], m.r.buf, p + Size(fs[0]), acc[key := v]).Some? {
            GoesThenGoes(prog, m, 1 + k1, d1, k2, d2);
          } else {
            GoesThenStops(prog, m, 1 + k1, d1, k2);
          }
        }
    }
  }

  lemma NamePresent(key: Name)
    requires NameCompiles(key)
    ensures key != []
  {
  }

  lemma ReadFieldNotNull(e: DataElement, buf: seq<byte>, p: nat)
    ensures ReadField(e, buf, p).Some? ==> !ReadField(e, buf, p).value.VNull?
  {
    if !e.code.Record? {
      ReadLeafNotNull(e, buf, p);
    }
  }

  lemma NoMoreFields(fs: seq<DataElement>, buf: seq<byte>, p: nat, acc: map<Name, Value>)
    requires |fs| == 1
    ensures ReadFields(fs[1..], buf, p, acc) == Some(acc)
    ensures FieldsSize(fs) == Size(fs[0]) && FieldsCode(fs[1..], UnpackProgram) == []
  {
    assert fs[1..] == [];
  }
}
