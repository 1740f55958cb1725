/**
 * The bytecode of an element as one recursive function: the specification that the
 * compiler class meets and the decoder inverts. Instruction format: apx/include/apx/vm_defs.h.
 */
module Bytecode {
  import opened Common
  import opened Bytes
  import opened DataElements

  const OPCODE_UNPACK := 0
  const OPCODE_PACK := 1
  const OPCODE_DATA_SIZE := 2
  const OPCODE_DATA_CTRL := 3
  const OPCODE_FLOW_CTRL := 4

  const VARIANT_RECORD_SELECT := 0
  const VARIANT_ARRAY_NEXT := 0
  const VARIANT_LIMIT_CHECK_NONE := 0
  const MAX_NAME_LEN := 256

  datatype ProgramType = UnpackProgram | PackProgram

  /** Variant numbers of the data types; 11 is not used by the compiler. */
  function TypeVariant(c: TypeCode): (r: nat)
    ensures r < 16
  {
    match c
    case UInt8 => 0 case UInt16 => 1 case UInt32 => 2 case UInt64 => 3
    case Int8 => 4 case Int16 => 5 case Int32 => 6 case Int64 => 7
    case Bool => 8 case Byte => 9 case Record => 10
    case Char => 12 case Char8 => 13 case Char16 => 14 case Char32 => 15
  }

  function VariantType(variant: nat): Option<TypeCode> {
    match variant
    case 0 => Some(UInt8) case 1 => Some(UInt16) case 2 => Some(UInt32) case 3 => Some(UInt64)
    case 4 => Some(Int8) case 5 => Some(Int16) case 6 => Some(Int32) case 7 => Some(Int64)
    case 8 => Some(Bool) case 9 => Some(Byte) case 10 => Some(Record)
    case 12 => Some(Char) case 13 => Some(Char8) case 14 => Some(Char16) case 15 => Some(Char32)
    case _ => None
  }

  /** LIMIT_CHECK variants; the number 7 is skipped. */
  function LimitVariant(c: TypeCode): (r: nat)
    ensures r < 16
  {
    match c
    case UInt8 | Byte => 1
    case UInt16 => 2
    case UInt32 => 3
    case UInt64 => 4
    case Int8 => 5
    case Int16 => 6
    case Int32 => 8
    case Int64 => 9
    case _ => VARIANT_LIMIT_CHECK_NONE
  }

  /** Three opcode bits, four variant bits and a flag bit. */
  function EncodeInstruction(opcode: nat, variant: nat, flag: bool): byte {
    (opcode % 8) + (variant % 16) * 8 + if flag then 0x80 else 0
  }

  function Opcode(instruction: byte): nat { instruction % 8 }

  function Variant(instruction: byte): nat { (instruction / 8) % 16 }

  function Flag(instruction: byte): bool { instruction >= 0x80 }

  lemma InstructionRoundTrip(opcode: nat, variant: nat, flag: bool)
    requires opcode < 8 && variant < 16
    ensures var i := EncodeInstruction(opcode, variant, flag);
            Opcode(i) == opcode && Variant(i) == variant && Flag(i) == flag
  {
  }

  function ArraySizeVariant(arrayLen: uint32): nat {
    if arrayLen > U16_MAX then 2 else if arrayLen > U8_MAX then 1 else 0
  }

  /** The byte count of the numbers that variants 0..2 stand for. */
  function NumberSize(variant: nat): nat {
    if variant == 0 then 1 else if variant == 1 then 2 else 4
  }

  function ArraySizeCode(arrayLen: uint32, isDynamic: bool): seq<byte> {
    var v := ArraySizeVariant(arrayLen);
    [EncodeInstruction(OPCODE_DATA_SIZE, v, isDynamic)] + PackLE(arrayLen, NumberSize(v))
  }

  function LimitCode(c: TypeCode, l: Limits, isArray: bool): seq<byte> {
    [EncodeInstruction(OPCODE_DATA_CTRL, LimitVariant(c), isArray)]
    + PackLE(l.lower, TypeSize(c)) + PackLE(l.upper, TypeSize(c))
  }

  function SelectCode(name: Name, isLast: bool): seq<byte> {
    [EncodeInstruction(OPCODE_DATA_CTRL, VARIANT_RECORD_SELECT, isLast)] + name + [0]
  }

  function ArrayNextCode(): seq<byte> {
    [EncodeInstruction(OPCODE_FLOW_CTRL, VARIANT_ARRAY_NEXT, false)]
  }

  function DataCode(e: DataElement, t: ProgramType): seq<byte> {
    [EncodeInstruction(if t.PackProgram? then OPCODE_PACK else OPCODE_UNPACK, TypeVariant(e.code), e.IsArray())]
    + if e.IsArray() then ArraySizeCode(e.arrayLen, e.isDynamic) else []
  }

  function LimitPart(e: DataElement): seq<byte> {
    match e.limits
    case Some(l) => LimitCode(e.code, l, e.IsArray())
    case None => []
  }

  /** The program body of an element: limits are checked before packing and after unpacking. */
  function Code(e: DataElement, t: ProgramType): seq<byte>
    decreases e, 1
  {
    if e.code.Record? then
      DataCode(e, t) + FieldsCode(e.children, t) + if e.IsArray() then ArrayNextCode() else []
    else if t.PackProgram? then LimitPart(e) + DataCode(e, t)
    else DataCode(e, t) + LimitPart(e)
  }

  function FieldsCode(fs: seq<DataElement>, t: ProgramType): seq<byte>
    decreases fs, 0
  {
    if |fs| == 0 then []
    else SelectCode(fs[0].name, |fs| == 1) + Code(fs[0], t) + FieldsCode(fs[1..], t)
  }

  /** The data size as the compiler computes it, in 32-bit arithmetic. */
  function WrappedSize(e: DataElement): uint32
    decreases e, 1
  {
    var base := if e.code.Record? then WrappedFieldsSize(e.children) else TypeSize(e.code);
    if e.arrayLen == 0 then base
    else (Times(e.arrayLen, base) % U32_MOD + if e.isDynamic then LengthSize(e.arrayLen) else 0) % U32_MOD
  }

  function WrappedFieldsSize(fs: seq<DataElement>): uint32
    decreases fs, 0
  {
    if |fs| == 0 then 0 else (WrappedSize(fs[0]) + WrappedFieldsSize(fs[1..])) % U32_MOD
  }

  predicate NameCompiles(name: Name) { 0 < |name| <= MAX_NAME_LEN }

  /** What the compiler accepts. */
  predicate Compiles(e: DataElement)
    decreases e, 1
  {
    if e.code.Record? then
      |e.children| > 0 && FieldsCompile(e.children) && WrappedFieldsSize(e.children) > 0
    else
      && !e.code.Char16? && !e.code.Char32?
      && (e.limits.Some? ==> LimitVariant(e.code) != VARIANT_LIMIT_CHECK_NONE)
  }

  predicate FieldsCompile(fs: seq<DataElement>)
    decreases fs, 0
  {
    |fs| == 0 || (
      && NameCompiles(fs[0].name)
      && Compiles(fs[0])
      && WrappedSize(fs[0]) > 0
      && FieldsCompile(fs[1..]))
  }

  lemma FieldsCompileParts(fs: seq<DataElement>)
    requires FieldsCompile(fs) && |fs| > 0
    ensures NameCompiles(fs[0].name) && Compiles(fs[0]) && FieldsCompile(fs[1..])
  {
  }

  lemma ScaledExact(base: nat, n: nat, extra: nat)
    requires n > 0 && Times(n, base) + extra < U32_MOD
    ensures base < U32_MOD && (Times(n, base) % U32_MOD + extra) % U32_MOD == Times(n, base) + extra
  {
    hide Times;
    TimesAtLeast(n, base);
    SmallMod(Times(n, base));
    SmallMod(Times(n, base) + extra);
  }

  /** Sizes below 2^32 are computed exactly. */
  lemma {:induction false} SizeExact(e: DataElement)
    requires Size(e) < U32_MOD
    ensures WrappedSize(e) == Size(e)
    decreases e, 1
  {
    hide FieldsSize, WrappedFieldsSize, LengthSize;
    var base := if e.code.Record? then FieldsSize(e.children) else TypeSize(e.code);
    if e.arrayLen > 0 {
      ScaledExact(base, e.arrayLen, if e.isDynamic then LengthSize(e.arrayLen) else 0);
    }
    if e.code.Record? {
      FieldsSizeExact(e.children);
    }
  }

  /** What compiles takes at least one byte. */
  lemma CompiledNotEmpty(e: DataElement)
    requires Compiles(e)
    ensures Size(e) > 0
  {
    hide FieldsCompile, FieldsSize, WrappedFieldsSize, Times;
    var base := if e.code.Record? then FieldsSize(e.children) else TypeSize(e.code);
    if e.code.Record? && base == 0 {
      FieldsSizeExact(e.children);
    }
    if e.arrayLen > 0 {
      TimesAtLeast(e.arrayLen, base);
    }
  }

  lemma {:induction false} FieldsSizeExact(fs: seq<DataElement>)
    requires FieldsSize(fs) < U32_MOD
    ensures WrappedFieldsSize(fs) == FieldsSize(fs)
    decreases fs, 0
  {
    hide Size, WrappedSize;
    if |fs| > 0 {
      SizeExact(fs[0]);
      FieldsSizeExact(fs[1..]);
    }
  }
}
