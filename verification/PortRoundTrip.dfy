/** Packing followed by unpacking, through compiled programs with their headers. */
module PortRoundTrips {
  import opened Common
  import opened Bytes
  import opened DataElements
  import opened Layouts
  import opened RoundTrips
  import opened Bytecode
  import opened Programs
  import opened WriterModel
  import opened ReaderModel
  import opened PackRun
  import opened PackRecords
  import opened UnpackRun
  import opened UnpackPort

  // ---------- the limit check on what was packed ----------

  lemma WrapAbove(n: int)
    requires I32_MAX < n <= U32_MAX
    ensures Wrap32(n) == n - U32_MOD
  {
    Pow256Values();
  }

  lemma Wrap(n: int)
    requires 0 <= n <= U32_MAX
    ensures Wrap32(n) == if n <= I32_MAX then n else n - U32_MOD
  {
    if n <= I32_MAX {
      Wrap32Small(n);
    } else {
      WrapAbove(n);
    }
  }

  /** Seen as signed numbers, unsigned limits on either side of 2^31 shut out every value. */
  lemma UnsignedLimits(l: Limits, n: int)
    requires 0 <= l.lower <= n <= l.upper <= U32_MAX
    ensures InRangeI32(Wrap32(n), Wrap32(l.lower), Wrap32(l.upper)) <==> !(l.lower <= I32_MAX < l.upper)
  {
    hide Wrap32;
    Wrap(n);
    Wrap(l.lower);
    Wrap(l.upper);
  }

  lemma UnsignedArrayLimits(l: Limits, items: seq<Value>)
    requires |items| > 0 && WithinLimits(l, VArray(items)) && 0 <= l.lower && l.upper <= U32_MAX
    ensures UnpackLimitAccepts(UInt32, l, VArray(items)) <==> !(l.lower <= I32_MAX < l.upper)
  {
    hide Wrap32, InRangeI32;
    forall i | 0 <= i < |items|
      ensures items[i].VInt?
      ensures InRangeI32(Wrap32(items[i].n), Wrap32(l.lower), Wrap32(l.upper)) <==> !(l.lower <= I32_MAX < l.upper)
    {
      UnsignedLimits(l, items[i].n);
    }
    if UnpackLimitAccepts(UInt32, l, VArray(items)) {
      assert items[0].VInt? && InRangeI32(Wrap32(items[0].n), Wrap32(l.lower), Wrap32(l.upper));
    }
  }

  /** The limited values that pack are numbers, or arrays of numbers. */
  lemma LimitedShape(e: DataElement, l: Limits, v: Value)
    requires !e.code.Record? && LimitVariant(e.code) != VARIANT_LIMIT_CHECK_NONE
    requires WithinLimits(StoredLimits(e.code, l), v) && LeafFits(e, v) && LeafReadable(e, v)
    ensures IsNumber(e.code)
    ensures if e.arrayLen == 0 then v.VInt? else v.VArray? && |v.items| > 0
  {
    hide StoredLimits;
  }

  lemma LimitReadableExact(e: DataElement, l: Limits, v: Value)
    requires !e.code.Record? && LimitVariant(e.code) != VARIANT_LIMIT_CHECK_NONE
    requires WithinLimits(StoredLimits(e.code, l), v) && LeafFits(e, v) && LeafReadable(e, v)
    ensures var s := StoredLimits(e.code, l);
            UnpackLimitAccepts(e.code, s, LeafCanon(e, v)) <==> LimitReadable(e, s, v)
  {
    LimitedShape(e, l, v);
    PackLeaf.StoredLimitsInType(e.code, l);
    hide StoredLimits, Wrap32, InRangeI32;
    var s := StoredLimits(e.code, l);
    if e.code.UInt32? {
      if v.VInt? {
        UnsignedLimits(s, v.n);
      } else {
        UnsignedArrayLimits(s, v.items);
      }
    }
  }

  lemma TopLeafRoundTrip(e: DataElement, v: Value, buf: seq<byte>)
    requires !e.code.Record? && Compiles(e) && LeafConforms(e, v) && Holds(buf, 0, LeafLayout(e, v))
    ensures Read(e, buf) == if Readable(e, v) then Some(Canon(e, v)) else None
  {
    hide Holds, LeafLayout, ReadLeaf, LeafFits, WithinLimits, StoredLimits, LimitReadable, UnpackLimitAccepts, LeafCanon;
    LeafRoundTrip(e, v, buf, 0);
    if e.limits.Some? && LeafReadable(e, v) {
      LimitReadableExact(e, e.limits.value, v);
    }
  }

  /** Reading a laid out value: it comes back, in its canonical form, exactly when it is readable. */
  lemma ReadLayout(e: DataElement, v: Value, buf: seq<byte>)
    requires Compiles(e) && PortSupported(e) && Conforms(e, v) && Holds(buf, 0, Layout(e, v))
    ensures Read(e, buf) == if Readable(e, v) then Some(Canon(e, v)) else None
  {
    hide Holds, LeafLayout, LeafConforms, ReadLeaf, ReadField, ReadItems, FieldsConform, FieldsCompile, FieldsReadable, CanonFields, CanonItems, FieldsLayout, ItemsLayout, LeafCanon;
    if !e.code.Record? {
      TopLeafRoundTrip(e, v, buf);
    } else if e.arrayLen == 0 {
      FieldRoundTrip(e, v, buf, 0);
    } else {
      ItemsOfRecordsRoundTrip(e.children, v.items, buf, 0, []);
      assert [] + CanonItems(e.children, v.items) == CanonItems(e.children, v.items);
    }
  }

  // ---------- when the canonical form is the value itself ----------

  predicate Declares(fs: seq<DataElement>, key: Name) {
    |fs| > 0 && (fs[0].name == key || Declares(fs[1..], key))
  }

  /**
   * No NUL inside fixed strings, and records with no fields but the declared ones. Where a
   * name is declared twice the last declaration decides.
   */
  ghost predicate Exact(e: DataElement, v: Value) {
    if e.code.Record? && e.arrayLen > 0 then
      v.VArray? && forall i :: 0 <= i < |v.items| ==> v.items[i].VRecord? && RecordExact(e.children, v.items[i].fields)
    else ExactField(e, v)
  }

  ghost predicate ExactField(e: DataElement, v: Value)
    decreases e, 1
  {
    if !e.code.Record? then e.IsArray() && !e.isDynamic && v.VStr? ==> 0 !in v.s
    else v.VRecord? && RecordExact(e.children, v.fields)
  }

  ghost predicate RecordExact(fs: seq<DataElement>, m: map<Name, Value>)
    decreases fs, 1
  {
    FieldsExact(fs, m) && forall key :: key in m ==> Declares(fs, key)
  }

  ghost predicate FieldsExact(fs: seq<DataElement>, m: map<Name, Value>)
    decreases fs, 0
  {
    |fs| == 0 || (
      && (fs[0].name in m && !Declares(fs[1..], fs[0].name) ==> ExactField(fs[0], m[fs[0].name]))
      && FieldsExact(fs[1..], m))
  }

  lemma {:induction false} CutAtNulWhole(s: seq<byte>)
    ensures CutAtNul(s) == s <==> 0 !in s
  {
    if |s| > 0 {
      CutAtNulWhole(s[1..]);
    }
  }

  /** What the last declaration of `key` makes of its value. */
  function LastCanon(fs: seq<DataElement>, m: map<Name, Value>, key: Name): Value
    requires Declares(fs, key) && key in m
  {
    if Declares(fs[1..], key) then LastCanon(fs[1..], m, key) else CanonField(fs[0], m[key])
  }

  lemma {:induction false} CanonFieldsAt(fs: seq<DataElement>, m: map<Name, Value>, acc: map<Name, Value>, key: Name)
    requires FieldsConform(fs, m)
    ensures key in CanonFields(fs, m, acc) <==> key in acc || Declares(fs, key)
    ensures Declares(fs, key) ==> key in m && CanonFields(fs, m, acc)[key] == LastCanon(fs, m, key)
    ensures !Declares(fs, key) && key in acc ==> CanonFields(fs, m, acc)[key] == acc[key]
    decreases fs
  {
    hide CanonField, Conforms;
    if |fs| > 0 {
      CanonFieldsAt(fs[1..], m, acc[fs[0].name := CanonField(fs[0], m[fs[0].name])], key);
    }
  }

  /** A field's canonical form is its value exactly when the value is exact. */
  lemma {:induction false} ExactFieldCanon(e: DataElement, v: Value)
    requires FieldSupported(e) && Conforms(e, v)
    ensures CanonField(e, v) == v <==> ExactField(e, v)
    decreases e, 1
  {
    hide FieldsConform, FieldsSupported, LeafConforms;
    if !e.code.Record? {
      if v.VStr? {
        CutAtNulWhole(v.s);
      }
    } else {
      RecordExactCanon(e.children, v.fields);
    }
  }

  lemma {:induction false} RecordExactCanon(fs: seq<DataElement>, m: map<Name, Value>)
    requires FieldsSupported(fs) && FieldsConform(fs, m)
    ensures CanonFields(fs, m, map[]) == m <==> RecordExact(fs, m)
    decreases fs, 1
  {
    hide FieldsConform, FieldsSupported, FieldsExact, CanonFields, Declares;
    var c := CanonFields(fs, m, map[]);
    forall key: Name
      ensures key in c <==> Declares(fs, key)
      ensures Declares(fs, key) ==> key in m && c[key] == LastCanon(fs, m, key)
    {
      CanonFieldsAt(fs, m, map[], key);
    }
    FieldsExactCanon(fs, m);
    if RecordExact(fs, m) {
      forall key | key in m ensures key in c && c[key] == m[key] {
        assert Declares(fs, key);
      }
    }
  }

  lemma {:induction false} FieldsExactCanon(fs: seq<DataElement>, m: map<Name, Value>)
    requires FieldsSupported(fs) && FieldsConform(fs, m)
    ensures forall key :: Declares(fs, key) ==> key in m
    ensures FieldsExact(fs, m) <==> forall key :: Declares(fs, key) ==> LastCanon(fs, m, key) == m[key]
    decreases fs, 0
  {
    hide ExactField, CanonField, Conforms, FieldSupported;
    if |fs| > 0 {
      var key, tail := fs[0].name, fs[1..];
      SupportedParts(fs);
      ExactFieldCanon(fs[0], m[key]);
      FieldsExactCanon(tail, m);
      forall k | Declares(fs, k)
        ensures k in m
        ensures LastCanon(fs, m, k) == if Declares(tail, k) then LastCanon(tail, m, k) else CanonField(fs[0], m[key])
      {
      }
      assert Declares(fs, key);
      if forall k :: Declares(fs, k) ==> LastCanon(fs, m, k) == m[k] {
        forall k | Declares(tail, k) ensures LastCanon(tail, m, k) == m[k] {
          assert Declares(fs, k);
        }
      }
    }
  }

  /** The value comes back unchanged exactly when it is exact. */
  lemma ExactCanon(e: DataElement, v: Value)
    requires PortSupported(e) && Conforms(e, v)
    ensures Canon(e, v) == v <==> Exact(e, v)
  {
    hide CanonFields, RecordExact, FieldsConform, FieldsSupported, LeafConforms, CanonField;
    if e.code.Record? && e.arrayLen > 0 {
      forall i | 0 <= i < |v.items|
        ensures CanonItems(e.children, v.items)[i] == v.items[i] <==> RecordExact(e.children, v.items[i].fields)
      {
        RecordExactCanon(e.children, v.items[i].fields);
      }
      assert CanonItems(e.children, v.items) == v.items <==>
             forall i :: 0 <= i < |v.items| ==> CanonItems(e.children, v.items)[i] == v.items[i];
    } else {
      ExactFieldCanon(e, v);
    }
  }

  // ---------- where a field lies ----------

  /** A field's place depends on the elements before it and on no value. */
  lemma {:induction false} FieldOffset(fs: seq<DataElement>, m: map<Name, Value>, i: nat)
    requires i < |fs| && FieldsSupported(fs) && FieldsConform(fs, m)
    ensures FieldSupported(fs[i]) && PortSupported(fs[i]) && fs[i].name in m && Conforms(fs[i], m[fs[i].name])
    ensures var p := FieldsSize(fs[..i]);
            p + Size(fs[i]) <= FieldsSize(fs) && FieldsLayout(fs, m)[p..p + Size(fs[i])] == Layout(fs[i], m[fs[i].name])
    decreases i
  {
    hide Layout, Conforms, Size, FieldSupported, PortSupported, FieldsLayout, FieldsConform, FieldsSupported, FieldsSize;
    FieldsLayoutParts(fs, m);
    SizeOfNone();
    var head, tail := Layout(fs[0], m[fs[0].name]), FieldsLayout(fs[1..], m);
    if i == 0 {
      assert fs[..0] == [];
      SliceShift([], head, tail);
    } else {
      FieldOffset(fs[1..], m, i - 1);
      var front := fs[..i];
      assert front[0] == fs[0] && front[1..] == fs[1..][..i - 1];
      SizeOfFields(front);
      var q := FieldsSize(fs[1..][..i - 1]);
      assert tail == tail[..q] + tail[q..q + Size(fs[i])] + tail[q + Size(fs[i])..];
      assert head + tail == (head + tail[..q]) + tail[q..q + Size(fs[i])] + tail[q + Size(fs[i])..];
      SliceShift(head + tail[..q], tail[q..q + Size(fs[i])], tail[q + Size(fs[i])..]);
    }
  }

  lemma SliceShift<T>(a: seq<T>, b: seq<T>, c: seq<T>)
    ensures (a + b + c)[|a|..|a| + |b|] == b
    ensures a == [] ==> a + b + c == b + c
  {
  }

  lemma SizeOfNone()
    ensures FieldsSize([]) == 0
  {
  }

  lemma SizeOfFields(fs: seq<DataElement>)
    requires |fs| > 0
    ensures FieldsSize(fs) == Size(fs[0]) + FieldsSize(fs[1..])
  {
    hide Size;
  }

  lemma FieldsLayoutParts(fs: seq<DataElement>, m: map<Name, Value>)
    requires |fs| > 0 && FieldsSupported(fs) && FieldsConform(fs, m)
    ensures FieldSupported(fs[0]) && PortSupported(fs[0]) && fs[0].name in m && Conforms(fs[0], m[fs[0].name])
    ensures FieldsSupported(fs[1..]) && FieldsConform(fs[1..], m)
    ensures FieldsLayout(fs, m) == Layout(fs[0], m[fs[0].name]) + FieldsLayout(fs[1..], m)
    ensures |FieldsLayout(fs[1..], m)| == FieldsSize(fs[1..]) && |Layout(fs[0], m[fs[0].name])| == Size(fs[0])
    ensures FieldsSize(fs) == Size(fs[0]) + FieldsSize(fs[1..])
  {
    hide Layout, Conforms, Size;
  }

  // ---------- values that pack and do not come back ----------

  /** An empty dynamic array packs; its length 0 is refused when it is read. */
  lemma EmptyDynamicArrayIsLost()
    ensures var e := DataElement([], UInt8, 4, true, None, []);
            Compiles(e) && Conforms(e, VArray([])) && !Readable(e, VArray([]))
  {
  }

  /** A limited field packs; its check then meets the record instead of the field. */
  lemma LimitedFieldIsLost()
    ensures var field := DataElement([65], Int8, 0, false, Some(Limits(0, 9)), []);
            var e := DataElement([], Record, 0, false, None, [field]);
            var v := VRecord(map[[65] := VInt(5)]);
            Compiles(e) && Conforms(e, v) && !Readable(e, v)
  {
    var field := DataElement([65], Int8, 0, false, Some(Limits(0, 9)), []);
    assert [field][1..] == [];
    ByteLimits();
  }

  lemma ByteLimits()
    ensures StoredLimits(Int8, Limits(0, 9)) == Limits(0, 9)
  {
    Pow256Values();
    SignedRoundTrip(0, 1);
    SignedRoundTrip(9, 1);
  }

  /** Unsigned 32-bit limits on either side of 2^31 refuse every value that was packed. */
  lemma WideUnsignedLimitsLoseEveryValue(n: uint32)
    requires n <= 3_000_000_000
    ensures var e := DataElement([], UInt32, 0, false, Some(Limits(0, 3_000_000_000)), []);
            Compiles(e) && Conforms(e, VInt(n)) && !Readable(e, VInt(n))
  {
    Pow256Values();
    UnsignedRoundTrip(0, 4);
    UnsignedRoundTrip(3_000_000_000, 4);
  }

  /** A fixed string is cut at its first NUL. */
  lemma StringIsCutAtNul()
    ensures var e := DataElement([], Char, 4, false, None, []);
            Conforms(e, VStr([65, 0, 66])) && Readable(e, VStr([65, 0, 66])) && Canon(e, VStr([65, 0, 66])) == VStr([65])
  {
    assert CutAtNul([0, 66]) == [];
    assert [65, 0, 66][1..] == [0, 66];
  }

  // ---------- compiled programs, buffer to buffer ----------

  /** A serializer on a whole buffer, holding the value to pack. */
  function NewWriter(buf: seq<byte>, v: Value): Writer {
    Writer(buf, 0, None, Fresh(v), [], NO_WRITE_QUEUE)
  }

  function NewReader(buf: seq<byte>): Reader {
    Reader(buf, 0, None, BLANK, [], NO_READ_QUEUE)
  }

  /** apx_vm_select_program and apx_vm_pack_value, as far as `fuel` operations go. */
  function PackWith(prog: seq<byte>, buf: seq<byte>, v: Value, fuel: nat): Outcome<PackMachine> {
    match DecodeHeader(prog)
    case Err(error) => Failed(error)
    case Ok((header, start)) =>
      if !header.t.PackProgram? then Failed(InvalidProgramError)
      else RunPack(prog, PackMachine(start, None, NewWriter(buf, v)), fuel)
  }

  /** apx_vm_select_program and apx_vm_unpack_value, as far as `fuel` operations go. */
  function UnpackWith(prog: seq<byte>, buf: seq<byte>, fuel: nat): Outcome<UnpackMachine> {
    match DecodeHeader(prog)
    case Err(error) => Failed(error)
    case Ok((header, start)) =>
      if !header.t.UnpackProgram? then Failed(InvalidProgramError)
      else RunUnpack(prog, UnpackMachine(start, None, NewReader(buf)), fuel)
  }

  lemma CompiledHeader(e: DataElement, t: ProgramType, queueLength: uint32) returns (header: seq<byte>)
    requires Compiles(e) && Size(e) < U32_MOD && CompilePort(e, t, queueLength).Ok?
    ensures CompilePort(e, t, queueLength) == Ok(header + Code(e, t))
    ensures DecodeHeader(header + Code(e, t))
         == Ok((Header(t, HasDynamicData(e), DataSize(Size(e), queueLength), if queueLength > 0 then Size(e) else 0, queueLength), |header|))
  {
    hide Code, Compiles, WrappedSize, Size, DecodeHeader, EncodeHeader, HasDynamicData, DataSize, QueuedDataSize;
    SizeExact(e);
    CompiledNotEmpty(e);
    header := EncodeHeader(t, WrappedSize(e), queueLength, HasDynamicData(e)).value;
    AcceptedFits(t, WrappedSize(e), queueLength, HasDynamicData(e));
    HeaderRoundTrip(t, WrappedSize(e), queueLength, HasDynamicData(e), Code(e, t));
  }

  /**
   * The round trip. For every compilable element of at most 2^32 - 1 bytes, every value that
   * conforms to it and every buffer with room: the compiled pack program fills the buffer,
   * the compiled unpack program reads that buffer back, and it returns the value exactly when
   * the value is readable and exact.
   */
  lemma PortRoundTrip(e: DataElement, v: Value, buf: seq<byte>) returns (k: nat, packed: PackMachine, unpacked: UnpackMachine)
    requires Compiles(e) && PortSupported(e) && Size(e) < U32_MOD && Size(e) <= |buf|
    requires Conforms(e, v)
    ensures CompilePort(e, PackProgram, 0).Ok? && CompilePort(e, UnpackProgram, 0).Ok?
    ensures forall f: nat :: f >= k ==> PackWith(CompilePort(e, PackProgram, 0).value, buf, v, f) == Done(packed)
    ensures packed.w.buf == Overlay(buf, 0, Layout(e, v)) && packed.w.stack == []
    ensures Readable(e, v) ==>
      && (forall f: nat :: f >= k ==> UnpackWith(CompilePort(e, UnpackProgram, 0).value, packed.w.buf, f) == Done(unpacked))
      && unpacked.r.state.value == Canon(e, v) && unpacked.r.stack == []
      && (Exact(e, v) <==> unpacked.r.state.value == v)
    ensures !Readable(e, v) ==>
      forall f: nat :: f >= k ==> UnpackWith(CompilePort(e, UnpackProgram, 0).value, packed.w.buf, f).Failed?
  {
    hide Code, Compiles, PortSupported, Conforms, Layout, Overlay, Read, Readable, Canon, Exact, RunPack, RunUnpack, CompilePort, Size, DecodeHeader;
    UnqueuedAccepted(e, PackProgram);
    UnqueuedAccepted(e, UnpackProgram);
    var h1 := CompiledHeader(e, PackProgram, 0);
    var h2 := CompiledHeader(e, UnpackProgram, 0);
    var k1, k2;
    k1, packed := PackProgramCorrect(h1, e, v, NewWriter(buf, v));
    OverlayHolds(buf, 0, Layout(e, v));
    ReadLayout(e, v, packed.w.buf);
    k2, unpacked := UnpackProgramCorrect(h2, e, NewReader(packed.w.buf));
    k := k1 + k2;
    ExactCanon(e, v);
  }
}
