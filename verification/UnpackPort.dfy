/** Whole unpack programs, and packing followed by unpacking: the main results of the codec. */
module UnpackPort {
  import opened Common
  import opened Bytes
  import opened DataElements
  import opened Layouts
  import opened Bytecode
  import opened Decoding
  import opened ReaderModel
  import opened PackLeaf
  import opened PackRun
  import opened PackRecords
  import opened UnpackLeaf
  import opened UnpackRun

  // ---------- the limit check of a top-level leaf ----------

  predicate InType(c: TypeCode, v: Value) {
    v.VInt? && TypeMin(c) <= v.n <= TypeMax(c)
  }

  /** The values that reading a leaf can give, as far as limits are concerned. */
  predicate ReadShape(e: DataElement, v: Value) {
    if IsNumber(e.code) then
      if e.arrayLen == 0 then InType(e.code, v)
      else v.VArray? && |v.items| > 0 && forall i :: 0 <= i < |v.items| ==> InType(e.code, v.items[i])
    else e.code.Byte? ==> v.VBytes?
  }

  lemma ReadScalarInType(c: TypeCode, bs: seq<byte>)
    requires IsNumber(c) && |bs| == TypeSize(c)
    ensures InType(c, ReadScalar(c, bs))
  {
    Pow256Values();
    UnpackLEBound(bs);
  }

  lemma {:induction false} ReadScalarsInType(c: TypeCode, buf: seq<byte>, p: nat, n: nat)
    requires IsNumber(c) && p + Times(n, TypeSize(c)) <= |buf|
    ensures forall i :: 0 <= i < n ==> InType(c, ReadScalars(c, buf, p, n)[i])
    decreases n
  {
    hide InType, ReadScalar;
    if n > 0 {
      ReadScalarInType(c, buf[p..p + TypeSize(c)]);
      ReadScalarsInType(c, buf, p + TypeSize(c), n - 1);
    }
  }

  lemma ReadArrayShape(c: TypeCode, buf: seq<byte>, p: nat, n: nat)
    requires n > 0 && ReadArray(c, buf, p, n).Some?
    ensures var v := ReadArray(c, buf, p, n).value;
            && (IsNumber(c) ==> v.VArray? && |v.items| > 0 && forall i :: 0 <= i < |v.items| ==> InType(c, v.items[i]))
            && (c.Byte? ==> v.VBytes?)
  {
    if IsNumber(c) {
      ReadScalarsInType(c, buf, p, n);
    }
  }

  lemma ReadLeafShape(e: DataElement, buf: seq<byte>, p: nat)
    requires !e.code.Record? && ReadLeaf(e, buf, p).Some?
    ensures ReadShape(e, ReadLeaf(e, buf, p).value)
  {
    hide ReadArray, InType, ReadFixedString;
    if e.arrayLen == 0 {
      if IsNumber(e.code) {
        ReadScalarInType(e.code, buf[p..p + TypeSize(e.code)]);
      }
    } else if !e.isDynamic {
      if !e.code.Char? && !e.code.Char8? {
        ReadArrayShape(e.code, buf, p, e.arrayLen);
      }
    } else {
      var w := LengthSize(e.arrayLen);
      ReadArrayShape(e.code, buf, p + w, UnpackLE(buf[p..p + w]));
    }
  }

  /** Does the unpack check let one number through? */
  predicate ItemAccepted(c: TypeCode, l: Limits, v: Value) {
    match c
    case UInt8 | UInt16 | Int8 | Int16 | Int32 => NumberWithin(l, v)
    case UInt32 => v.VInt? && InRangeI32(Wrap32(v.n), Wrap32(l.lower), Wrap32(l.upper))
    case _ => false
  }

  lemma Wrap32Small(n: int)
    requires 0 <= n <= I32_MAX
    ensures Wrap32(n) == n
  {
    Pow256Values();
  }

  lemma CheckItemExact(c: TypeCode, l: Limits, v: Value)
    requires IsNumber(c) && InType(c, v)
    ensures var op := LimitOperation(c, l);
            CheckReadItem(op.kind, v, op.lower, op.upper) == NoError <==> ItemAccepted(c, StoredLimits(c, l), v)
  {
    StoredLimitsInType(c, l);
    hide StoredLimits, Wrap32;
    var s := StoredLimits(c, l);
    if c.UInt8? || c.UInt16? {
      SmallLimitsUnsigned(c, s, v);
    }
  }

  /** Narrow unsigned values and limits are the same seen as signed 32-bit numbers. */
  lemma SmallLimitsUnsigned(c: TypeCode, s: Limits, v: Value)
    requires (c.UInt8? || c.UInt16?) && InType(c, v)
    requires TypeMin(c) <= s.lower <= TypeMax(c) && TypeMin(c) <= s.upper <= TypeMax(c)
    ensures InRangeI32(Wrap32(v.n), Wrap32(s.lower), Wrap32(s.upper)) <==> NumberWithin(s, v)
  {
    hide Wrap32;
    Wrap32Small(v.n);
    Wrap32Small(s.lower);
    Wrap32Small(s.upper);
  }

  lemma {:induction false} CheckReadItemsExact(c: TypeCode, l: Limits, items: seq<Value>)
    requires IsNumber(c) && forall i :: 0 <= i < |items| ==> InType(c, items[i])
    ensures var op := LimitOperation(c, l);
            CheckReadItems(op.kind, items, op.lower, op.upper) == NoError
            <==> forall i :: 0 <= i < |items| ==> ItemAccepted(c, StoredLimits(c, l), items[i])
  {
    hide CheckReadItem, ItemAccepted, InType, LimitOperation;
    if |items| > 0 {
      var s := StoredLimits(c, l);
      CheckItemExact(c, l, items[0]);
      var tail := items[1..];
      assert forall i :: 0 <= i < |tail| ==> tail[i] == items[i + 1];
      CheckReadItemsExact(c, l, tail);
      if (forall i :: 0 <= i < |tail| ==> ItemAccepted(c, s, tail[i])) && ItemAccepted(c, s, items[0]) {
        forall i | 0 <= i < |items| ensures ItemAccepted(c, s, items[i]) {
          if i > 0 { assert items[i] == tail[i - 1]; }
        }
      }
    }
  }

  lemma ArrayAccepts(c: TypeCode, l: Limits, items: seq<Value>)
    requires IsNumber(c) && |items| > 0
    ensures UnpackLimitAccepts(c, l, VArray(items)) <==> forall i :: 0 <= i < |items| ==> ItemAccepted(c, l, items[i])
  {
    hide NumberWithin, InRangeI32, Wrap32;
    if c.UInt64? || c.Int64? {
      assert !ItemAccepted(c, l, items[0]);
    }
  }

  /** The check of a top-level leaf accepts exactly what `UnpackLimitAccepts` says. */
  lemma TopCheckExact(e: DataElement, l: Limits, v: Value)
    requires !e.code.Record? && LimitVariant(e.code) != VARIANT_LIMIT_CHECK_NONE && ReadShape(e, v)
    ensures var op := LimitOperation(e.code, l);
            CheckReadValue(op.kind, v, op.lower, op.upper) == NoError
            <==> UnpackLimitAccepts(e.code, StoredLimits(e.code, l), v)
  {
    hide CheckReadItems, StoredLimits, Wrap32, InRangeI32;
    if IsNumber(e.code) {
      StoredLimitsInType(e.code, l);
      match v
      case VArray(items) =>
        CheckReadItemsExact(e.code, l, items);
        ArrayAccepts(e.code, StoredLimits(e.code, l), items);
      case VInt(_) =>
        if e.code.UInt8? || e.code.UInt16? {
          SmallLimitsUnsigned(e.code, StoredLimits(e.code, l), v);
        }
    }
  }

  // ---------- leaves and arrays of records at the top ----------

  lemma TopLeafReads(prog: seq<byte>, e: DataElement, m: UnpackMachine) returns (k: nat, d: UnpackMachine)
    requires !e.code.Record? && Compiles(e) && m.r.stack == []
    requires At(prog, m.next, Code(e, UnpackProgram)) && Tidy(m.r) && ReadCursor(m.r) == 0
    ensures Yields(prog, m, k, d, Read(e, m.r.buf), |Code(e, UnpackProgram)|, Size(e))
  {
    hide Compiles, ReadLeaf, At, DataCode, LimitPart, Goes, Stops, Tidy, UnpackLimitAccepts, Reads;
    AtSplit(prog, m.next, DataCode(e, UnpackProgram), LimitPart(e));
    d := DataReads(prog, e, m);
    k := 1;
    if e.limits.Some? {
      if ReadLeaf(e, m.r.buf, 0).Some? {
        k, d := LimitFollows(prog, e, m, d);
      }
    } else {
      NoLimitPart(e);
    }
  }

  lemma NoLimitPart(e: DataElement)
    requires e.limits.None?
    ensures LimitPart(e) == []
  {
  }

  /** The limit check behind a top-level leaf that was read. */
  lemma LimitFollows(prog: seq<byte>, e: DataElement, m: UnpackMachine, d1: UnpackMachine) returns (k: nat, d: UnpackMachine)
    requires !e.code.Record? && Compiles(e) && m.r.stack == [] && e.limits.Some?
    requires ReadLeaf(e, m.r.buf, 0).Some? && Goes(prog, m, 1, d1) && Reads(m.r, d1.r, ReadLeaf(e, m.r.buf, 0).value, Size(e))
    requires d1.next == m.next + |DataCode(e, UnpackProgram)| && d1.mark == m.mark && At(prog, d1.next, LimitPart(e))
    ensures Yields(prog, m, k, d, Read(e, m.r.buf), |DataCode(e, UnpackProgram)| + |LimitPart(e)|, Size(e))
  {
    hide Compiles, ReadLeaf, At, DataCode, Goes, Stops, LimitCode, Tidy, UnpackLimitAccepts, LimitOperation, CheckReadValue;
    var l, v := e.limits.value, ReadLeaf(e, m.r.buf, 0).value;
    CompiledType(e);
    ReadLeafShape(e, m.r.buf, 0);
    TopCheckExact(e, l, v);
    CheckRuns(prog, e.code, l, e.IsArray(), d1);
    k, d := 2, d1.(next := d1.next + |LimitCode(e.code, l, e.IsArray())|);
    if UnpackLimitAccepts(e.code, StoredLimits(e.code, l), v) {
      GoesThenGoes(prog, m, 1, d1, 1, d);
    } else {
      GoesThenStops(prog, m, 1, d1, 1);
    }
  }

  /** The state of an array of records that is about to read one more item. */
  predicate InReadArray(r: Reader, done: seq<Value>, n: nat) {
    && |r.stack| == 1 && |done| < n && Tidy(r)
    && r.state.value == VRecord(map[]) && r.state.code == Some(Record)
    && CollectsAll(r.stack)
    && r.stack[0].value == VArray(done) && r.stack[0].code == Some(Record)
    && r.stack[0].arrayLen == n && r.stack[0].index == |done| && !r.stack[0].isLastField
  }

  lemma ArrayReadStarts(prog: seq<byte>, e: DataElement, m: UnpackMachine) returns (r: Reader)
    requires e.code.Record? && e.arrayLen > 0 && !e.isDynamic
    requires At(prog, m.next, DataCode(e, UnpackProgram)) && Tidy(m.r) && m.r.stack == []
    ensures var after := m.next + |DataCode(e, UnpackProgram)|;
            if ReadCursor(m.r) <= |m.r.buf| then
              Goes(prog, m, 1, UnpackMachine(after, Some(after), r)) && InReadArray(r, [], e.arrayLen)
              && r.buf == m.r.buf && ReadCursor(r) == ReadCursor(m.r)
            else Stops(prog, m, 1)
  {
    hide DecodeOperation, RunUnpack, DataCode, At;
    DecodeDataCode(prog, m.next, e, UnpackProgram);
    var after := m.next + |DataCode(e, UnpackProgram)|;
    StepGoes(prog, m, Data(UnpackProgram, Record, e.arrayLen, false), after);
    var x := Unpack(m.r, Record, e.arrayLen, SizeNone);
    r := if x.Ok? then x.value else m.r;
  }

  lemma NextReads(prog: seq<byte>, done: seq<Value>, n: nat, m: UnpackMachine)
    requires At(prog, m.next, ArrayNextCode()) && m.mark.Some? && Tidy(m.r)
    requires |m.r.stack| == 0 && m.r.state.value == VArray(done) && m.r.state.arrayLen == n
    requires 0 < |done| <= n && m.r.state.index + 1 == |done| && m.r.state.code == Some(Record) && !m.r.state.isLastField
    requires Collects(m.r.state)
    ensures |done| == n ==>
      Goes(prog, m, 1, m.(next := m.next + 1, r := m.r.(state := m.r.state.(index := |done|))))
    ensures |done| < n ==>
      var r := EnterRead(m.r.(state := m.r.state.(index := |done|)), BLANK_RECORD);
      Goes(prog, m, 1, m.(next := m.mark.value, r := r)) && InReadArray(r, done, n)
      && r.buf == m.r.buf && ReadCursor(r) == ReadCursor(m.r)
  {
    hide DecodeOperation, RunUnpack, At;
    DecodeArrayNextCode(prog, m.next);
    StepGoes(prog, m, ArrayNext, m.next + 1);
  }

  lemma ItemHanded(r: Reader, done: seq<Value>, n: nat, x: map<Name, Value>, d: Reader)
    requires InReadArray(r, done, n) && Handed(r.stack, VRecord(x), d)
    ensures d.stack == [] && d.state == r.stack[0].(value := VArray(done + [VRecord(x)])) && Collects(d.state)
  {
  }

  /** What the rest of an array of records comes to. */
  ghost predicate RestYields(prog: seq<byte>, m: UnpackMachine, k: nat, d: UnpackMachine, v: Option<seq<Value>>, end: nat, size: nat) {
    match v
    case None => Stops(prog, m, k)
    case Some(items) =>
      && Goes(prog, m, k, d) && d.next == end
      && d.r.stack == [] && d.r.state.value == VArray(items) && ReadCursor(d.r) == ReadCursor(m.r) + size
  }

  lemma {:induction false} ItemsRead(prog: seq<byte>, fs: seq<DataElement>, done: seq<Value>, n: nat, m: UnpackMachine) returns (k: nat, d: UnpackMachine)
    requires |fs| > 0 && FieldsSupported(fs) && FieldsCompile(fs)
    requires At(prog, m.next, FieldsCode(fs, UnpackProgram) + ArrayNextCode())
    requires m.mark == Some(m.next) && InReadArray(m.r, done, n)
    ensures RestYields(prog, m, k, d, ReadItems(fs, m.r.buf, ReadCursor(m.r), n - |done|, done),
                       m.next + |FieldsCode(fs, UnpackProgram)| + 1, Times(n - |done|, FieldsSize(fs)))
    decreases n - |done|
  {
    hide At, FieldsCode, Goes, Stops, FieldsCompile, FieldsSupported, FieldsSize, Handed, CollectsAll, Collects, ReadFields, ReadCursor;
    var p, left := ReadCursor(m.r), n - |done|;
    AtSplit(prog, m.next, FieldsCode(fs, UnpackProgram), ArrayNextCode());
    var k1, d1 := FieldsRead(prog, fs, map[], m);
    match ReadFields(fs, m.r.buf, p, map[]) {
      case None =>
        k, d := k1, m;
      case Some(x) =>
        var done1 := done + [VRecord(x)];
        ItemHanded(m.r, done, n, x, d1.r);
        NextReads(prog, done1, n, d1);
        assert Times(left, FieldsSize(fs)) == FieldsSize(fs) + Times(left - 1, FieldsSize(fs));
        if |done1| == n {
          d := d1.(next := d1.next + 1, r := d1.r.(state := d1.r.state.(index := |done1|)));
          k := k1 + 1;
          GoesThenGoes(prog, m, k1, d1, 1, d);
          SameReadCursor(d1.r, d.r);
        } else {
          var r2 := EnterRead(d1.r.(state := d1.r.state.(index := |done1|)), BLANK_RECORD);
          var m2 := d1.(next := m.next, r := r2);
          GoesThenGoes(prog, m, k1, d1, 1, m2);
          var k2, d2 := ItemsRead(prog, fs, done1, n, m2);
          k, d := k1 + 1 + k2, d2;
          if ReadItems(fs, m.r.buf, p + FieldsSize(fs), left - 1, done1).Some? {
            GoesThenGoes(prog, m, k1 + 1, m2, k2, d2);
          } else {
            GoesThenStops(prog, m, k1 + 1, m2, k2);
          }
        }
    }
  }

  lemma SameReadCursor(r: Reader, d: Reader)
    requires r.next == d.next && r.padded == d.padded
    ensures ReadCursor(r) == ReadCursor(d)
  {
  }

  // ---------- whole programs ----------

  /** The machine ends with `v` as its only state, or fails if there is no `v`. */
  ghost predicate Ends(prog: seq<byte>, m: UnpackMachine, k: nat, d: UnpackMachine, v: Option<Value>, end: nat, size: nat) {
    match v
    case None => Stops(prog, m, k)
    case Some(x) =>
      && Goes(prog, m, k, d) && d.next == end
      && d.r.stack == [] && d.r.state.value == x && ReadCursor(d.r) == size
  }

  lemma PortReads(prog: seq<byte>, e: DataElement, m: UnpackMachine) returns (k: nat, d: UnpackMachine)
    requires Compiles(e) && PortSupported(e)
    requires At(prog, m.next, Code(e, UnpackProgram)) && Tidy(m.r) && m.r.stack == [] && ReadCursor(m.r) == 0
    ensures Ends(prog, m, k, d, Read(e, m.r.buf), m.next + |Code(e, UnpackProgram)|, Size(e))
  {
    hide At, Goes, Stops, ReadFields, ReadItems, ReadLeaf, Compiles, FieldsCompile, FieldsSupported, FieldsCode, DataCode, UnpackLimitAccepts, LimitPart;
    if !e.code.Record? {
      k, d := TopLeafReads(prog, e, m);
    } else if e.arrayLen == 0 {
      k, d := RecordReads(prog, e, m);
    } else {
      RecordCodeParts(prog, m.next, e, UnpackProgram);
      ArrayReadFacts(e);
      var after := m.next + |DataCode(e, UnpackProgram)|;
      var r := ArrayReadStarts(prog, e, m);
      var m1 := UnpackMachine(after, Some(after), r);
      AtJoin(prog, after, FieldsCode(e.children, UnpackProgram), ArrayNextCode());
      var k1, d1 := ItemsRead(prog, e.children, [], e.arrayLen, m1);
      k, d := 1 + k1, d1;
      if ReadItems(e.children, m.r.buf, 0, e.arrayLen, []).Some? {
        GoesThenGoes(prog, m, 1, m1, k1, d1);
      } else {
        GoesThenStops(prog, m, 1, m1, k1);
      }
    }
  }

  lemma ArrayReadFacts(e: DataElement)
    requires e.code.Record? && e.arrayLen > 0 && Compiles(e) && PortSupported(e)
    ensures !e.isDynamic && FieldsSupported(e.children) && FieldsCompile(e.children) && |e.children| > 0
    ensures NextPart(e) == ArrayNextCode() && Size(e) == Times(e.arrayLen, FieldsSize(e.children))
  {
  }

  lemma UnpackDone(prog: seq<byte>, m: UnpackMachine, k: nat, d: UnpackMachine)
    requires Goes(prog, m, k, d) && d.next == |prog|
    ensures forall f: nat :: f > k ==> RunUnpack(prog, m, f) == Done(d)
  {
    forall f: nat | f > k ensures RunUnpack(prog, m, f) == Done(d) {
      assert RunUnpack(prog, m, f) == RunUnpack(prog, d, f - k);
    }
  }

  /** A deserializer at the start of a buffer. */
  predicate AtStart(r: Reader) {
    r.next == 0 && r.padded.None? && r.stack == [] && !r.queue.isActive
  }

  /**
   * Compiler and deserializer together: on every buffer, of any content and length, the
   * unpack program of a port ends with the value that recursion on the element reads, and
   * fails exactly when there is none.
   */
  lemma UnpackProgramCorrect(header: seq<byte>, e: DataElement, r: Reader) returns (k: nat, d: UnpackMachine)
    requires Compiles(e) && PortSupported(e) && AtStart(r)
    ensures var prog := header + Code(e, UnpackProgram);
            var m := UnpackMachine(|header|, None, r);
            match Read(e, r.buf)
            case None => forall f: nat :: f >= k ==> RunUnpack(prog, m, f).Failed?
            case Some(v) =>
              && (forall f: nat :: f >= k ==> RunUnpack(prog, m, f) == Done(d))
              && d.r.state.value == v && d.r.stack == [] && ReadCursor(d.r) == Size(e)
  {
    hide Code, Compiles, FieldsSupported, Read, RunUnpack, Goes;
    var prog := header + Code(e, UnpackProgram);
    var m := UnpackMachine(|header|, None, r);
    var k1;
    k1, d := PortReads(prog, e, m);
    k := k1 + 1;
    if Read(e, r.buf).Some? {
      UnpackDone(prog, m, k1, d);
    }
  }
}
