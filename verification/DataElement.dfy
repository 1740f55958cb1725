/** Data elements (apx/src/data_element.c) and the dynamic values they describe. */
module DataElements {
  import opened Common
  import opened Bytes

  /** A C string. */
  type Name = s: seq<byte> | 0 !in s

  datatype TypeCode =
    | UInt8 | UInt16 | UInt32 | UInt64
    | Int8 | Int16 | Int32 | Int64
    | Char | Char8 | Char16 | Char32
    | Bool | Byte | Record

  datatype Limits = Limits(lower: int, upper: int)

  /** `arrayLen == 0` means "not an array"; `isDynamic` matters for arrays only. */
  datatype DataElement = DataElement(
    name: Name,
    code: TypeCode,
    arrayLen: uint32,
    isDynamic: bool,
    limits: Option<Limits>,
    children: seq<DataElement>)
  {
    predicate IsArray() { arrayLen > 0 }

    predicate IsDynamicArray() { arrayLen > 0 && isDynamic }
  }

  /** The values of the dtl library: scalars, arrays and hashes. */
  datatype Value =
    | VNull
    | VInt(n: int)
    | VBool(b: bool)
    | VChar(c: byte)
    | VStr(s: seq<byte>)
    | VBytes(bs: seq<byte>)
    | VArray(items: seq<Value>)
    | VRecord(fields: map<Name, Value>)
  {
    predicate IsScalar() { VInt? || VBool? || VChar? || VStr? || VBytes? }
  }

  predicate IsUnsigned(c: TypeCode) { c.UInt8? || c.UInt16? || c.UInt32? || c.UInt64? }

  predicate IsSigned(c: TypeCode) { c.Int8? || c.Int16? || c.Int32? || c.Int64? }

  predicate IsNumber(c: TypeCode) { IsUnsigned(c) || IsSigned(c) }

  predicate IsNumberOrBool(c: TypeCode) { IsNumber(c) || c.Bool? }

  predicate IsCharType(c: TypeCode) { c.Char? || c.Char8? || c.Char16? || c.Char32? }

  function TypeSize(c: TypeCode): nat {
    match c
    case UInt8 | Int8 | Char | Char8 | Bool | Byte => 1
    case UInt16 | Int16 | Char16 => 2
    case UInt32 | Int32 | Char32 => 4
    case UInt64 | Int64 => 8
    case Record => 0
  }

  function TypeMin(c: TypeCode): int {
    match c
    case Int8 => -0x80
    case Int16 => -0x8000
    case Int32 => -0x8000_0000
    case Int64 => -0x8000_0000_0000_0000
    case _ => 0
  }

  function TypeMax(c: TypeCode): int {
    match c
    case UInt8 => 0xFF
    case UInt16 => 0xFFFF
    case UInt32 => 0xFFFF_FFFF
    case UInt64 => 0xFFFF_FFFF_FFFF_FFFF
    case Int8 => 0x7F
    case Int16 => 0x7FFF
    case Int32 => 0x7FFF_FFFF
    case Int64 => 0x7FFF_FFFF_FFFF_FFFF
    case _ => 0
  }

  /** How wide a length field is (apx/src/vm_common.c). */
  datatype SizeType = SizeNone | SizeU8 | SizeU16 | SizeU32

  function SizeToSizeType(size: nat): SizeType {
    if size == 0 then SizeNone
    else if size <= U8_MAX then SizeU8
    else if size <= U16_MAX then SizeU16
    else SizeU32
  }

  function SizeTypeToSize(t: SizeType): nat {
    match t
    case SizeNone => 0
    case SizeU8 => 1
    case SizeU16 => 2
    case SizeU32 => 4
  }

  function LengthSize(arrayLen: nat): nat {
    SizeTypeToSize(SizeToSizeType(arrayLen))
  }

  /** The number of buffer bytes an element takes, over the unbounded integers. */
  function Size(e: DataElement): (r: nat)
    decreases e, 1
  {
    var base := if e.code.Record? then FieldsSize(e.children) else TypeSize(e.code);
    if e.arrayLen == 0 then base
    else Times(e.arrayLen, base) + if e.isDynamic then LengthSize(e.arrayLen) else 0
  }

  function FieldsSize(fs: seq<DataElement>): (r: nat)
    decreases fs, 0
  {
    if |fs| == 0 then 0 else Size(fs[0]) + FieldsSize(fs[1..])
  }

  /**
   * Records nest freely, but an array of records may only be the outermost element
   * and may not be dynamic.
   */
  predicate FieldSupported(e: DataElement)
    decreases e, 1
  {
    e.code.Record? ==> e.arrayLen == 0 && FieldsSupported(e.children)
  }

  predicate FieldsSupported(fs: seq<DataElement>)
    decreases fs, 0
  {
    |fs| == 0 || (FieldSupported(fs[0]) && FieldsSupported(fs[1..]))
  }

  predicate PortSupported(e: DataElement) {
    e.code.Record? ==> !e.IsDynamicArray() && FieldsSupported(e.children)
  }
}
