/**
 * Compiled programs and texts byte by byte: the numbers of apx/include/apx/vm_defs.h and the
 * letters of the definition language, on the definitions that the source's own tests use.
 */
module Formats {
  import opened Common
  import opened Bytes
  import opened DataElements
  import opened Bytecode
  import opened Decoding
  import opened Layouts
  import opened Readings
  import opened Programs
  import opened Initializers
  import opened Signatures

  function Leaf(c: TypeCode): DataElement {
    DataElement([], c, 0, false, None, [])
  }

  function Field(name: Name, c: TypeCode): DataElement {
    DataElement(name, c, 0, false, None, [])
  }

  /** The pack instruction of every type; the unpack instruction is one less. */
  function PackByte(c: TypeCode): byte {
    match c
    case UInt8 => 0x01 case UInt16 => 0x09 case UInt32 => 0x11 case UInt64 => 0x19
    case Int8 => 0x21 case Int16 => 0x29 case Int32 => 0x31 case Int64 => 0x39
    case Bool => 0x41 case Byte => 0x49 case Record => 0x51
    case Char => 0x61 case Char8 => 0x69 case Char16 => 0x71 case Char32 => 0x79
  }

  /** The limit check of every type that has one, on a scalar. */
  function LimitByte(c: TypeCode): Option<byte> {
    match c
    case UInt8 | Byte => Some(0x0B) case UInt16 => Some(0x13) case UInt32 => Some(0x1B) case UInt64 => Some(0x23)
    case Int8 => Some(0x2B) case Int16 => Some(0x33) case Int32 => Some(0x43) case Int64 => Some(0x4B)
    case _ => None
  }

  /** The length of an array in one, two or four bytes, whichever is enough, behind the byte that says how many. */
  function LengthBytes(n: uint32, isDynamic: bool): seq<byte> {
    var flag := if isDynamic then 0x80 else 0;
    if n < 0x100 then [0x02 + flag, n]
    else if n < 0x1_0000 then [0x0A + flag, n % 0x100, n / 0x100]
    else [0x12 + flag, n % 0x100, n / 0x100 % 0x100, n / 0x1_0000 % 0x100, n / 0x100_0000]
  }

  /** The instructions of an element without its limits and fields. */
  lemma DataBytes(e: DataElement)
    ensures DataCode(e, PackProgram)
         == if e.arrayLen == 0 then [PackByte(e.code)] else [PackByte(e.code) + 0x80] + LengthBytes(e.arrayLen, e.isDynamic)
    ensures DataCode(e, UnpackProgram)
         == if e.arrayLen == 0 then [PackByte(e.code) - 1] else [PackByte(e.code) - 1 + 0x80] + LengthBytes(e.arrayLen, e.isDynamic)
  {
    if e.arrayLen > 0 {
      LengthIs(e.arrayLen, e.isDynamic);
    }
    hide ArraySizeCode, LengthBytes;
  }

  lemma LengthIs(n: uint32, isDynamic: bool)
    ensures ArraySizeCode(n, isDynamic) == LengthBytes(n, isDynamic)
  {
    if n < 0x100 {
      LittleEndian1(n);
    } else if n < 0x1_0000 {
      LittleEndian2(n);
    } else {
      LittleEndian4(n);
    }
    hide PackLE;
  }

  lemma LittleEndian1(n: nat)
    requires n < 0x100
    ensures PackLE(n, 1) == [n]
  {
    assert PackLE(n / 256, 0) == [];
  }

  lemma LittleEndian2(n: nat)
    requires n < 0x1_0000
    ensures PackLE(n, 2) == [n % 0x100, n / 0x100]
  {
    LittleEndian1(n / 0x100);
  }

  lemma LittleEndian4(n: nat)
    requires n < 0x1_0000_0000
    ensures PackLE(n, 4) == [n % 0x100, n / 0x100 % 0x100, n / 0x1_0000 % 0x100, n / 0x100_0000]
  {
    LittleEndian2(n / 0x1_0000);
    assert PackLE(n / 0x100, 3) == [n / 0x100 % 0x100] + PackLE(n / 0x1_0000, 2);
  }

  /** Limits, the lower one first, stand before the pack instruction and behind the unpack instruction. */
  lemma LeafProgram(e: DataElement, l: Limits)
    requires !e.code.Record? && e.limits == Some(l) && LimitByte(e.code).Some?
    ensures var flag := if e.arrayLen > 0 then 0x80 else 0;
            var check := [LimitByte(e.code).value + flag] + PackLE(l.lower, TypeSize(e.code)) + PackLE(l.upper, TypeSize(e.code));
            && Code(e, PackProgram) == check + DataCode(e, PackProgram)
            && Code(e, UnpackProgram) == DataCode(e, UnpackProgram) + check
  {
    hide DataCode, PackLE, TypeSize;
    LimitIs(e.code, e.IsArray());
  }

  lemma LimitIs(c: TypeCode, isArray: bool)
    requires LimitByte(c).Some?
    ensures EncodeInstruction(OPCODE_DATA_CTRL, LimitVariant(c), isArray) == LimitByte(c).value + if isArray then 0x80 else 0
  {
  }

  /** Fields are selected by their names, each ended by a NUL; the last one is flagged. */
  lemma SelectBytes(name: Name)
    ensures SelectCode(name, false) == [0x03] + name + [0] && SelectCode(name, true) == [0x83] + name + [0]
  {
  }

  /** The queue of a port of `n` one-byte elements. */
  lemma QueueHeader(t: ProgramType, isDynamic: bool, n: byte)
    requires 0 < n < 255
    ensures EncodeHeader(t, 1, n, isDynamic)
         == Ok([0x20 + (if t.PackProgram? then 0x08 else 0) + (if isDynamic then 0x10 else 0), n + 1, 0x1A, 1])
  {
    LittleEndian1(n + 1);
    LittleEndian1(1);
    assert DataSize(1, n) == n + 1 && NumberCode(n + 1) == [n + 1] && NumberCode(1) == [1];
    hide PackLE, DataSize, NumberCode;
    var first := ProgramByte(t, isDynamic, true, 0);
    assert [first] + [n + 1] + [0x1A] + [1] == [first, n + 1, 0x1A, 1];
  }

  /** The array of two records `{"Id"S"Value"C}[2]`, with any names, from header to end. */
  lemma RecordsProgram(first: Name, second: Name, t: ProgramType)
    requires NameCompiles(first) && NameCompiles(second)
    ensures var e := DataElement([], Record, 2, false, None, [Field(first, UInt16), Field(second, UInt8)]);
            var pack := if t.PackProgram? then 1 else 0;
            && Compiles(e)
            && CompilePort(e, t, 0)
               == Ok([0x08 * pack, 6]
                     + ([0xD0 + pack, 0x02, 2] + (([0x03] + first + [0]) + [0x08 + pack] + (([0x83] + second + [0]) + [0x00 + pack])) + [0x04]))
  {
    var f, g := Field(first, UInt16), Field(second, UInt8);
    var e := DataElement([], Record, 2, false, None, [f, g]);
    var pack := if t.PackProgram? then 1 else 0;
    TwoFields(f, g);
    DataBytes(e);
    SelectBytes(first);
    SelectBytes(second);
    ScalarBytesOf(f);
    ScalarBytesOf(g);
    RecordCode(e, t);
    SmallHeader(6, t);
    hide DataCode, SelectCode, Code, PackLE, Compiles, EncodeHeader, FieldsCode, WrappedSize, HasDynamicData;
    assert [0xD0 + pack] + LengthBytes(2, false) == [0xD0 + pack, 0x02, 2];
  }

  lemma SmallHeader(size: byte, t: ProgramType)
    ensures EncodeHeader(t, size, 0, false) == Ok([if t.PackProgram? then 0x08 else 0, size])
  {
    LittleEndian1(size);
    hide PackLE;
    var first := ProgramByte(t, false, false, 0);
    assert [first] + [size] == [first, size];
  }

  lemma ScalarBytesOf(e: DataElement)
    requires e.arrayLen == 0 && e.limits.None? && !e.code.Record?
    ensures Code(e, PackProgram) == [PackByte(e.code)] && Code(e, UnpackProgram) == [PackByte(e.code) - 1]
  {
    DataBytes(e);
    hide DataCode;
  }

  lemma RecordCode(e: DataElement, t: ProgramType)
    requires e.code.Record? && e.arrayLen > 0
    ensures Code(e, t) == DataCode(e, t) + FieldsCode(e.children, t) + [0x04]
  {
    hide DataCode, FieldsCode;
  }

  lemma TwoFields(f: DataElement, g: DataElement)
    requires NameCompiles(f.name) && NameCompiles(g.name) && f == Field(f.name, UInt16) && g == Field(g.name, UInt8)
    ensures forall t :: FieldsCode([f, g], t) == SelectCode(f.name, false) + Code(f, t) + (SelectCode(g.name, true) + Code(g, t))
    ensures var e := DataElement([], Record, 2, false, None, [f, g]); Compiles(e) && WrappedSize(e) == 6 && !HasDynamicData(e)
  {
    assert [f, g][1..] == [g] && [g][1..] == [];
    forall t ensures FieldsCode([f, g], t) == SelectCode(f.name, false) + Code(f, t) + (SelectCode(g.name, true) + Code(g, t)) {
      hide SelectCode, Code;
      assert FieldsCode([g], t) == SelectCode(g.name, true) + Code(g, t) + FieldsCode([], t);
    }
    TwoFieldsRecord(f, g);
    hide *;
  }

  lemma FieldStep(f: DataElement, rest: seq<DataElement>)
    ensures var fs := [f] + rest;
            && WrappedFieldsSize(fs) == (WrappedSize(f) + WrappedFieldsSize(rest)) % U32_MOD
            && (AnyDynamic(fs) <==> HasDynamicData(f) || AnyDynamic(rest))
            && (FieldsCompile(fs) <==> NameCompiles(f.name) && Compiles(f) && WrappedSize(f) > 0 && FieldsCompile(rest))
  {
    hide WrappedSize, HasDynamicData, NameCompiles, Compiles;
    assert ([f] + rest)[0] == f && ([f] + rest)[1..] == rest;
  }

  lemma ScalarFacts(f: DataElement)
    requires f == Field(f.name, UInt16) || f == Field(f.name, UInt8)
    ensures WrappedSize(f) == (if f.code.UInt16? then 2 else 1) && !HasDynamicData(f) && Compiles(f)
  {
  }

  lemma NoFieldFacts()
    ensures WrappedFieldsSize([]) == 0 && !AnyDynamic([]) && FieldsCompile([])
  {
  }

  lemma TwoFieldsSize(f: DataElement, g: DataElement)
    requires f == Field(f.name, UInt16) && g == Field(g.name, UInt8)
    ensures WrappedFieldsSize([f, g]) == 3 && !AnyDynamic([f, g])
    ensures NameCompiles(f.name) && NameCompiles(g.name) ==> FieldsCompile([f, g])
  {
    hide WrappedSize, WrappedFieldsSize, HasDynamicData, AnyDynamic, Compiles, FieldsCompile, NameCompiles;
    ScalarFacts(f);
    ScalarFacts(g);
    NoFieldFacts();
    FieldStep(g, []);
    FieldStep(f, [g]);
    assert [g] + [] == [g] && [f] + [g] == [f, g];
  }

  lemma TwoFieldsRecord(f: DataElement, g: DataElement)
    requires f == Field(f.name, UInt16) && g == Field(g.name, UInt8) && NameCompiles(f.name) && NameCompiles(g.name)
    ensures var e := DataElement([], Record, 2, false, None, [f, g]); Compiles(e) && WrappedSize(e) == 6 && !HasDynamicData(e)
  {
    TwoFieldsSize(f, g);
    TimesIs(2, 3);
    hide WrappedFieldsSize, AnyDynamic, FieldsCompile, NameCompiles, Times;
  }

  /** The least of one, two and four bytes that holds a number. */
  ghost predicate Narrowest(n: nat, width: nat) {
    && (width == 1 || width == 2 || width == 4) && n < Pow256(width)
    && (width > 1 ==> n >= 0x100) && (width > 2 ==> n >= 0x1_0000)
  }

  /** Length fields in data, and numbers in headers, take the least width. */
  lemma NarrowestWidths(n: uint32)
    ensures Narrowest(n, |NumberCode(n)|) && (n > 0 ==> Narrowest(n, LengthSize(n))) && LengthSize(0) == 0
  {
    Pow256Values();
    hide PackLE;
  }

  // ---------- every program ----------

  /** A number in `size` bytes from `p` on, signed or not. */
  ghost predicate NumberStands(prog: seq<byte>, p: nat, size: nat, isSigned: bool, n: int) {
    && p + size <= |prog| && prog[p..p + size] == PackLE(n, size)
    && if isSigned then -(Pow256(size) as int) <= 2 * n < Pow256(size) else 0 <= n < Pow256(size)
  }

  /** What may stand behind a flagged data instruction: a length, or any other instruction, which is used up. */
  ghost predicate LengthStands(prog: seq<byte>, p: nat, n: uint32, isDynamic: bool, q: nat) {
    && p < |prog| && isDynamic == (prog[p] >= 0x80)
    && match prog[p] % 0x80
       case 0x02 => NumberStands(prog, p + 1, 1, false, n) && q == p + 2
       case 0x0A => NumberStands(prog, p + 1, 2, false, n) && q == p + 3
       case 0x12 => NumberStands(prog, p + 1, 4, false, n) && q == p + 5
       case b => b % 8 != 2 && n == 0 && q == p + 1
  }

  /** A limit check on numbers of `size` bytes. */
  ghost predicate LimitsStand(prog: seq<byte>, p: nat, op: Operation, q: nat, size: nat, isSigned: bool)
    requires op.RangeCheck?
  {
    NumberStands(prog, p + 1, size, isSigned, op.lower) && NumberStands(prog, p + 1 + size, size, isSigned, op.upper) && q == p + 1 + 2 * size
  }

  /** The operation that stands in a program at `p`, up to `q`, byte by byte. */
  ghost predicate Stands(prog: seq<byte>, p: nat, op: Operation, q: nat)
    requires p < |prog|
  {
    match op
    case ProgramEnd => false
    case Data(t, code, n, isDynamic) =>
      && prog[p] % 0x80 == PackByte(code) - (if t.PackProgram? then 0 else 1)
      && if prog[p] >= 0x80 then LengthStands(prog, p + 1, n, isDynamic, q) else n == 0 && !isDynamic && q == p + 1
    case RangeCheck(kind, _, _) =>
      (match prog[p] % 0x80
       case 0x0B => kind.CheckUInt32? && LimitsStand(prog, p, op, q, 1, false)
       case 0x13 => kind.CheckUInt32? && LimitsStand(prog, p, op, q, 2, false)
       case 0x1B => kind.CheckUInt32? && LimitsStand(prog, p, op, q, 4, false)
       case 0x23 => kind.CheckUInt64? && LimitsStand(prog, p, op, q, 8, false)
       case 0x2B => kind.CheckInt32? && LimitsStand(prog, p, op, q, 1, true)
       case 0x33 => kind.CheckInt32? && LimitsStand(prog, p, op, q, 2, true)
       case 0x43 => kind.CheckInt32? && LimitsStand(prog, p, op, q, 4, true)
       case 0x4B => kind.CheckInt64? && LimitsStand(prog, p, op, q, 8, true)
       case _ => false)
    case RecordSelect(name, isLast) =>
      && prog[p] == (if isLast then 0x83 else 0x03) && |name| > 0
      && q == p + 2 + |name| <= |prog| && prog[p + 1..q] == name + [0]
    case ArrayNext => (prog[p] == 0x04 || prog[p] == 0x84) && q == p + 1
  }

  /** Opcode, type and flag of an instruction byte. */
  lemma InstructionParts(b: byte)
    ensures Flag(b) == (b >= 0x80) && b % 0x80 == Opcode(b) + 8 * Variant(b) && Opcode(b) < 8 && Variant(b) < 16
  {
  }

  lemma NumberExact(prog: seq<byte>, p: nat, size: nat, isSigned: bool, n: int)
    requires p + size <= |prog| && (size == 1 || size == 2 || size == 4 || size == 8)
    ensures var value := UnpackLE(prog[p..p + size]);
            NumberStands(prog, p, size, isSigned, n) <==> n == if isSigned then SignExtend(value, size) else value
  {
    hide PackLE, UnpackLE;
    var bs := prog[p..p + size];
    Pow256Values();
    UnpackLEBound(bs);
    PackUnpackLE(bs);
    PackLEWraps(UnpackLE(bs), size);
    if NumberStands(prog, p, size, isSigned, n) {
      if isSigned {
        SignedRoundTrip(n, size);
      } else {
        UnsignedRoundTrip(n, size);
      }
    }
  }

  lemma LengthExact(prog: seq<byte>, p: nat, n: uint32, isDynamic: bool, q: nat)
    ensures DecodeArraySize(prog, p) == Ok((n, isDynamic, q)) <==> LengthStands(prog, p, n, isDynamic, q)
  {
    hide UnpackLE, NumberStands, Opcode, Variant, Flag;
    if p < |prog| {
      InstructionParts(prog[p]);
      var v := Variant(prog[p]);
      var size := NumberSize(v);
      if Opcode(prog[p]) == 2 && v <= 2 {
        if p + 1 + size <= |prog| {
          NumberExact(prog, p + 1, size, false, n);
          Pow256Values();
          UnpackLEBound(prog[p + 1..p + 1 + size]);
        } else {
          NoNumber(prog, p + 1, size, n);
        }
      }
    }
  }

  lemma NoNumber(prog: seq<byte>, p: nat, size: nat, n: int)
    requires p + size > |prog|
    ensures !NumberStands(prog, p, size, false, n) && !NumberStands(prog, p, size, true, n)
  {
  }

  lemma LimitsExact(prog: seq<byte>, p: nat, kind: CheckKind, size: nat, op: Operation, q: nat)
    requires p < |prog| && (size == 1 || size == 2 || size == 4 || size == 8)
    ensures DecodeRangeCheck(prog, p + 1, kind, size) == Ok((op, q))
        <==> op.RangeCheck? && op.kind == kind && LimitsStand(prog, p, op, q, size, kind.CheckInt32? || kind.CheckInt64?)
  {
    hide UnpackLE, NumberStands, SignExtend;
    var isSigned := kind.CheckInt32? || kind.CheckInt64?;
    if op.RangeCheck? {
      if p + 1 + 2 * size <= |prog| {
        NumberExact(prog, p + 1, size, isSigned, op.lower);
        NumberExact(prog, p + 1 + size, size, isSigned, op.upper);
      } else {
        NoNumber(prog, p + 1 + size, size, op.upper);
      }
    }
  }

  lemma SelectExact(prog: seq<byte>, p: nat, isLast: bool, op: Operation, q: nat)
    requires p < |prog|
    ensures DecodeRecordSelect(prog, p + 1, isLast) == Ok((op, q))
        <==> op.RecordSelect? && op.isLastField == isLast && |op.fieldName| > 0
             && q == p + 2 + |op.fieldName| <= |prog| && prog[p + 1..q] == op.fieldName + [0]
  {
    hide CutAtNul;
    var rest := prog[p + 1..];
    var name := CutAtNul(rest);
    if p + 1 + |name| < |prog| {
      assert prog[p + 1..p + 2 + |name|] == name + [0] by {
        assert rest[..|name|] == name && rest[|name|] == 0;
      }
    }
    if op.RecordSelect? && q == p + 2 + |op.fieldName| <= |prog| && prog[p + 1..q] == op.fieldName + [0] {
      var s := op.fieldName;
      assert rest[..|s| + 1] == s + [0];
      assert rest[..|s|] == s && rest[|s|] == 0;
      CutAtNulIs(rest, s);
    }
  }

  lemma VariantExact(variant: nat, code: TypeCode)
    requires variant < 16
    ensures VariantType(variant) == Some(code) <==> PackByte(code) == 1 + 8 * variant
  {
  }

  /** Decoding any program at any position gives exactly the operation that stands there. */
  lemma DecodeExact(prog: seq<byte>, p: nat, op: Operation, q: nat)
    requires p < |prog|
    ensures DecodeOperation(prog, p) == Ok((op, q)) <==> Stands(prog, p, op, q)
  {
    hide DecodeOperation, Stands, Opcode;
    if Opcode(prog[p]) <= 1 {
      if op.Data? {
        DataExact(prog, p, op, q);
      } else {
        NoData(prog, p, op, q);
      }
    } else if Opcode(prog[p]) == 3 {
      ControlExact(prog, p, op, q);
    } else {
      OthersExact(prog, p, op, q);
    }
  }

  lemma OthersExact(prog: seq<byte>, p: nat, op: Operation, q: nat)
    requires p < |prog| && Opcode(prog[p]) > 1 && Opcode(prog[p]) != 3
    ensures DecodeOperation(prog, p) == Ok((op, q)) <==> Stands(prog, p, op, q)
  {
    hide Opcode, Variant, Flag, PackByte, LengthStands, LimitsStand;
    InstructionParts(prog[p]);
    PackOpcode(op);
  }

  lemma PackOpcode(op: Operation)
    ensures op.Data? ==> PackByte(op.code) % 8 == 1
  {
  }

  lemma NoData(prog: seq<byte>, p: nat, op: Operation, q: nat)
    requires p < |prog| && Opcode(prog[p]) <= 1 && !op.Data?
    ensures DecodeOperation(prog, p) != Ok((op, q)) && !Stands(prog, p, op, q)
  {
    hide Opcode, Variant, Flag, VariantType, DecodeArraySize, LimitsStand;
    InstructionParts(prog[p]);
  }

  /** What a data instruction decodes to. */
  lemma DataDecodes(prog: seq<byte>, p: nat, op: Operation, q: nat)
    requires p < |prog| && Opcode(prog[p]) <= 1 && op.Data?
    ensures DecodeOperation(prog, p) == Ok((op, q)) <==>
      && VariantType(Variant(prog[p])) == Some(op.code) && (op.t.PackProgram? <==> Opcode(prog[p]) == 1)
      && if Flag(prog[p]) then DecodeArraySize(prog, p + 1) == Ok((op.arrayLen, op.isDynamic, q)) else op.arrayLen == 0 && !op.isDynamic && q == p + 1
  {
    hide Opcode, Variant, Flag, VariantType, DecodeArraySize;
    LengthOnly(prog, p + 1, op, q);
  }

  lemma DataExact(prog: seq<byte>, p: nat, op: Operation, q: nat)
    requires p < |prog| && Opcode(prog[p]) <= 1 && op.Data?
    ensures DecodeOperation(prog, p) == Ok((op, q)) <==> Stands(prog, p, op, q)
  {
    hide DecodeOperation, DecodeArraySize, LengthStands, Opcode, Variant, Flag, VariantType, PackByte;
    InstructionParts(prog[p]);
    DataDecodes(prog, p, op, q);
    PackOpcode(op);
    VariantExact(Variant(prog[p]), op.code);
    LengthExact(prog, p + 1, op.arrayLen, op.isDynamic, q);
  }

  lemma LengthOnly(prog: seq<byte>, p: nat, op: Operation, q: nat)
    requires op.Data?
    ensures DecodeArraySize(prog, p).Ok? && DecodeArraySize(prog, p).value.0 == op.arrayLen && DecodeArraySize(prog, p).value.1 == op.isDynamic && DecodeArraySize(prog, p).value.2 == q
        <==> DecodeArraySize(prog, p) == Ok((op.arrayLen, op.isDynamic, q))
  {
    hide DecodeArraySize;
    var r := DecodeArraySize(prog, p);
    if r.Ok? {
      var (n, isDynamic, after) := r.value;
      assert r == Ok((n, isDynamic, after));
    }
  }

  lemma ControlExact(prog: seq<byte>, p: nat, op: Operation, q: nat)
    requires p < |prog| && Opcode(prog[p]) == 3
    ensures DecodeOperation(prog, p) == Ok((op, q)) <==> Stands(prog, p, op, q)
  {
    hide DecodeRangeCheck, DecodeRecordSelect, LimitsStand, Opcode, Variant, Flag, PackByte;
    InstructionParts(prog[p]);
    PackOpcode(op);
    SelectExact(prog, p, Flag(prog[p]), op, q);
    match LimitKind(Variant(prog[p]))
    case None =>
    case Some((kind, size)) => LimitsExact(prog, p, kind, size, op, q);
  }

  /** How many bytes a header's number takes, by two bits. */
  function Width(n: nat): nat {
    if n == 0 then 1 else if n == 1 then 2 else if n == 2 then 4 else 8
  }

  /** The part of a header for queues: an element size and a length that fill the data exactly, with the length field. */
  ghost predicate QueueStands(prog: seq<byte>, p: nat, h: Header, q: nat) {
    && p < |prog| && prog[p] % 8 == 2 && 3 <= prog[p] / 8 % 16 <= 11
    && var v := prog[p] / 8 % 16 - 3;
       && h.elementSize > 0 && NumberStands(prog, p + 1, Width(v / 3), false, h.elementSize) && q == p + 1 + Width(v / 3)
       && Width(v % 3) + h.elementSize * h.queueLength == h.dataSize
  }

  /** The data size that stands behind the first byte, in 32 bits. */
  ghost predicate SizeStands(prog: seq<byte>, size: nat, dataSize: nat) {
    exists n :: NumberStands(prog, 1, size, false, n) && dataSize == n % 0x1_0000_0000
  }

  lemma DataSizeExact(prog: seq<byte>, size: nat, dataSize: nat)
    requires size == 1 || size == 2 || size == 4 || size == 8
    ensures SizeStands(prog, size, dataSize) <==> 1 + size <= |prog| && dataSize == UnpackLE(prog[1..1 + size]) % U32_MOD
  {
    hide UnpackLE, NumberStands;
    if 1 + size <= |prog| {
      forall n: int ensures NumberStands(prog, 1, size, false, n) <==> n == UnpackLE(prog[1..1 + size]) {
        NumberExact(prog, 1, size, false, n);
      }
      assert NumberStands(prog, 1, size, false, UnpackLE(prog[1..1 + size]));
    } else {
      forall n: int ensures !NumberStands(prog, 1, size, false, n) {
        NoNumber(prog, 1, size, n);
      }
    }
  }

  /** The header at the start of a program, up to `q`. */
  ghost predicate HeaderStands(prog: seq<byte>, h: Header, q: nat) {
    && |prog| >= 2 && h.t.PackProgram? == (prog[0] / 8 % 2 == 1) && h.isDynamic == (prog[0] / 0x10 % 2 == 1)
    && var size := Width(prog[0] % 4);
       && SizeStands(prog, size, h.dataSize)
       && if prog[0] / 0x20 % 2 == 1 then QueueStands(prog, 1 + size, h, q)
          else h.elementSize == 0 && h.queueLength == 0 && q == 1 + size
  }

  lemma QuotientExact(n: nat, d: nat, k: nat)
    requires d > 0
    ensures ExactQuotient(n, d) == Some(k) <==> n == d * k
  {
    if n == d * k {
      ModUnique(n, d, k, 0);
    } else {
      assert n % d == 0 ==> n == d * (n / d);
    }
  }

  lemma QueueExact(prog: seq<byte>, p: nat, h: Header, r: Header, q: nat)
    requires r.t == h.t && r.isDynamic == h.isDynamic && r.dataSize == h.dataSize
    ensures DecodeQueueHeader(prog, p, h) == Ok((r, q)) <==> QueueStands(prog, p, r, q)
  {
    hide UnpackLE, NumberStands, ExactQuotient;
    if p < |prog| {
      InstructionParts(prog[p]);
      var v := prog[p] / 8 % 16;
      if prog[p] % 8 == 2 && 3 <= v <= 11 {
        var size, width := Width((v - 3) / 3), Width((v - 3) % 3);
        if p + 1 + size <= |prog| {
          NumberExact(prog, p + 1, size, false, r.elementSize);
          if r.elementSize > 0 && width <= h.dataSize {
            QuotientExact(h.dataSize - width, r.elementSize, r.queueLength);
          }
        } else {
          NoNumber(prog, p + 1, size, r.elementSize);
        }
      }
    }
  }

  /** Decoding the header of any program gives exactly the header that stands there. */
  lemma HeaderExact(prog: seq<byte>, h: Header, q: nat)
    ensures DecodeHeader(prog) == Ok((h, q)) <==> HeaderStands(prog, h, q)
  {
    hide UnpackLE, SizeStands, DecodeQueueHeader, QueueStands;
    if |prog| >= 2 {
      var size := Width(prog[0] % 4);
      DataSizeExact(prog, size, h.dataSize);
      if 1 + size <= |prog| {
        var t := if prog[0] / 8 % 2 == 1 then PackProgram else UnpackProgram;
        var start := Header(t, prog[0] / 0x10 % 2 == 1, UnpackLE(prog[1..1 + size]) % U32_MOD, 0, 0);
        if h.t == start.t && h.isDynamic == start.isDynamic && h.dataSize == start.dataSize {
          QueueExact(prog, 1 + size, start, h, q);
        }
        SameKind(prog, 1 + size, start);
      }
    }
  }

  lemma SameKind(prog: seq<byte>, p: nat, h: Header)
    ensures DecodeQueueHeader(prog, p, h).Ok? ==>
      var r := DecodeQueueHeader(prog, p, h).value.0; r.t == h.t && r.isDynamic == h.isDynamic && r.dataSize == h.dataSize
  {
    hide UnpackLE, ExactQuotient;
  }

  // ---------- texts ----------

  /** The letter of every type. */
  lemma TypeLetters()
    ensures TypeChar(UInt8) == 'C' as int && TypeChar(UInt16) == 'S' as int && TypeChar(UInt32) == 'L' as int && TypeChar(UInt64) == 'Q' as int
    ensures TypeChar(Int8) == 'c' as int && TypeChar(Int16) == 's' as int && TypeChar(Int32) == 'l' as int && TypeChar(Int64) == 'q' as int
    ensures TypeChar(Char) == 'a' as int && TypeChar(Char8) == 'A' as int && TypeChar(Char16) == 'u' as int && TypeChar(Char32) == 'U' as int
    ensures TypeChar(Bool) == 'b' as int && TypeChar(Byte) == 'B' as int
  {
  }

  /** The texts of an array of bytes with limits and of its dynamic form: C(0,7)[10], C(0,7)[10*] and C(0,7)[*]. */
  lemma KnownTexts(limits: seq<byte>)
    requires limits == [0x28, 0x30, 0x2C, 0x37, 0x29]
    ensures var e := Leaf(UInt8).(limits := Some(Limits(0, 7)), arrayLen := 10);
            && ElementText(e, false) == Some([0x43] + limits + [0x5B, 0x31, 0x30, 0x5D])
            && ElementText(e, true) == ElementText(e, false)
            && ElementText(e.(isDynamic := true), false) == Some([0x43] + limits + [0x5B, 0x31, 0x30, 0x2A, 0x5D])
            && ElementText(e.(isDynamic := true), true) == Some([0x43] + limits + [0x5B, 0x2A, 0x5D])
  {
    var e := Leaf(UInt8).(limits := Some(Limits(0, 7)), arrayLen := 10);
    KnownParts();
    KnownText(e, false, [0x5B, 0x31, 0x30, 0x5D]);
    KnownText(e, true, [0x5B, 0x31, 0x30, 0x5D]);
    KnownText(e.(isDynamic := true), false, [0x5B, 0x31, 0x30, 0x2A, 0x5D]);
    KnownText(e.(isDynamic := true), true, [0x5B, 0x2A, 0x5D]);
    hide *;
  }

  lemma KnownParts()
    ensures LimitsText(Some(Limits(0, 7))) == [0x28, 0x30, 0x2C, 0x37, 0x29] && Decimal(10) == [0x31, 0x30]
  {
    assert Decimal(0) == [0x30] && Decimal(7) == [0x37] && Decimal(1) == [0x31];
  }

  lemma KnownText(e: DataElement, normalized: bool, suffix: seq<byte>)
    requires e == Leaf(UInt8).(limits := Some(Limits(0, 7)), arrayLen := 10, isDynamic := e.isDynamic) && ArrayText(e, normalized) == suffix
    ensures ElementText(e, normalized) == Some([0x43] + LimitsText(e.limits) + suffix)
  {
    hide LimitsText, ArrayText;
    assert [0x43] + LimitsText(e.limits) + suffix == [0x43] + (LimitsText(e.limits) + suffix);
  }
}
