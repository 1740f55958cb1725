/** Program headers (apx/src/program.c; format in apx/include/apx/vm_defs.h). */
module Programs {
  import opened Common
  import opened Bytes
  import opened DataElements
  import opened Bytecode
  import opened Decoding

  const HEADER_PACK := 0x08
  const HEADER_DYNAMIC := 0x10
  const HEADER_QUEUED := 0x20
  const ELEMENT_SIZE_U8_BASE := 3
  const ELEMENT_SIZE_LAST := 11

  datatype Header = Header(t: ProgramType, isDynamic: bool, dataSize: nat, elementSize: nat, queueLength: nat)

  /** 0, 1 or 2: the variant of the smallest field that holds `n`. */
  function SizeVariant(n: nat): nat {
    if n <= U8_MAX then 0 else if n <= U16_MAX then 1 else 2
  }

  /** The bytes a port of `queueLength` queued elements needs, with its length field. */
  function QueuedDataSize(elementSize: nat, queueLength: nat): nat {
    NumberSize(SizeVariant(queueLength)) + elementSize * queueLength
  }

  function DataSize(elementSize: nat, queueLength: nat): nat {
    if queueLength > 0 then QueuedDataSize(elementSize, queueLength) else elementSize
  }

  function ProgramByte(t: ProgramType, isDynamic: bool, isQueued: bool, variant: nat): byte
    requires variant < 8
  {
    (if t.PackProgram? then HEADER_PACK else 0) + variant
    + (if isDynamic then HEADER_DYNAMIC else 0) + if isQueued then HEADER_QUEUED else 0
  }

  function NumberCode(n: nat): seq<byte> {
    PackLE(n, NumberSize(SizeVariant(n)))
  }

  /** apx_program_encode_header */
  function EncodeHeader(t: ProgramType, elementSize: uint32, queueLength: uint32, isDynamic: bool): Result<seq<byte>> {
    var size := DataSize(elementSize, queueLength);
    if queueLength > 0 && size > U32_MAX then Err(LengthError)
    else
      var first := [ProgramByte(t, isDynamic, queueLength > 0, SizeVariant(size))] + NumberCode(size);
      if queueLength == 0 then Ok(first)
      else
        var variant := ELEMENT_SIZE_U8_BASE + 3 * SizeVariant(elementSize) + SizeVariant(queueLength);
        Ok(first + [EncodeInstruction(OPCODE_DATA_SIZE, variant, false)] + NumberCode(elementSize))
  }

  /** The data variants name sizes 1, 2, 4 and 8, signed or not. */
  function HeaderNumberSize(variant: nat): nat {
    if variant % 4 == 0 then 1 else if variant % 4 == 1 then 2 else if variant % 4 == 2 then 4 else 8
  }

  /** A quotient, if there is no remainder. */
  function ExactQuotient(n: nat, d: nat): Option<nat>
    requires d > 0
  {
    if n % d != 0 then None else Some(n / d)
  }

  /** The part of apx_program_decode_header for queued programs. */
  function DecodeQueueHeader(prog: seq<byte>, next: nat, h: Header): Result<(Header, nat)> {
    if next >= |prog| then Err(ParseError) else
      var opcode, variant := Opcode(prog[next]), Variant(prog[next]);
      if opcode != OPCODE_DATA_SIZE || variant < ELEMENT_SIZE_U8_BASE || variant > ELEMENT_SIZE_LAST then Err(ParseError) else
        var elementVariant := (variant - ELEMENT_SIZE_U8_BASE) / 3;
        var lengthSize := NumberSize((variant - ELEMENT_SIZE_U8_BASE) % 3);
        if lengthSize > h.dataSize then Err(ParseError) else
          match ParseNumber(prog, next + 1, NumberSize(elementVariant))
          case None => Err(ParseError)
          case Some(elementSize) =>
            if elementSize == 0 then Err(ParseError) else
              var room := h.dataSize - lengthSize;
              match ExactQuotient(room, elementSize)
              case None => Err(InvalidHeaderError)
              case Some(queueLength) =>
                Ok((h.(elementSize := elementSize, queueLength := queueLength), next + 1 + NumberSize(elementVariant)))
  }

  /** apx_program_decode_header: the header and the position of the first instruction. */
  function DecodeHeader(prog: seq<byte>): Result<(Header, nat)> {
    if |prog| < 2 then Err(InvalidArgumentError) else
      var b := prog[0];
      var t := if (b / 8) % 2 == 1 then PackProgram else UnpackProgram;
      var size := HeaderNumberSize(b % 8);
      match ParseNumber(prog, 1, size)
      case None => Err(ParseError)
      case Some(n) =>
        var h := Header(t, (b / 0x10) % 2 == 1, n % U32_MOD, 0, 0);
        if (b / 0x20) % 2 == 1 then DecodeQueueHeader(prog, 1 + size, h) else Ok((h, 1 + size))
  }

  lemma ProgramByteFields(t: ProgramType, isDynamic: bool, isQueued: bool, variant: nat)
    requires variant < 8
    ensures var b := ProgramByte(t, isDynamic, isQueued, variant);
            && b % 8 == variant && ((b / 8) % 2 == 1 <==> t.PackProgram?)
            && ((b / 0x10) % 2 == 1 <==> isDynamic) && ((b / 0x20) % 2 == 1 <==> isQueued)
  {
  }

  lemma ParseNumberCode(prog: seq<byte>, p: nat, n: uint32)
    requires At(prog, p, NumberCode(n))
    ensures ParseNumber(prog, p, NumberSize(SizeVariant(n))) == Some(n)
  {
    Pow256Values();
    UnsignedRoundTrip(n, NumberSize(SizeVariant(n)));
  }

  /** The queue length comes back by exact division. */
  lemma QueueLengthRecovered(elementSize: nat, queueLength: nat)
    requires elementSize > 0 && queueLength > 0
    ensures var room := QueuedDataSize(elementSize, queueLength) - NumberSize(SizeVariant(queueLength));
            room % elementSize == 0 && room / elementSize == queueLength
  {
    ModUnique(elementSize * queueLength, elementSize, queueLength, 0);
  }

  lemma QueueHeaderRoundTrip(prog: seq<byte>, p: nat, h: Header, elementSize: uint32, queueLength: uint32)
    requires elementSize > 0 && queueLength > 0 && h.dataSize == QueuedDataSize(elementSize, queueLength)
    requires var variant := ELEMENT_SIZE_U8_BASE + 3 * SizeVariant(elementSize) + SizeVariant(queueLength);
             At(prog, p, [EncodeInstruction(OPCODE_DATA_SIZE, variant, false)] + NumberCode(elementSize))
    ensures DecodeQueueHeader(prog, p, h)
         == Ok((h.(elementSize := elementSize, queueLength := queueLength), p + 1 + |NumberCode(elementSize)|))
  {
    hide NumberCode, ParseNumber, QueuedDataSize;
    var variant := ELEMENT_SIZE_U8_BASE + 3 * SizeVariant(elementSize) + SizeVariant(queueLength);
    var head := EncodeInstruction(OPCODE_DATA_SIZE, variant, false);
    AtSplit(prog, p, [head], NumberCode(elementSize));
    assert prog[p] == prog[p..p + 1][0] == head;
    InstructionRoundTrip(OPCODE_DATA_SIZE, variant, false);
    ParseNumberCode(prog, p + 1, elementSize);
    QueueLengthRecovered(elementSize, queueLength);
    NumberCodeLength(elementSize);
    assert QueuedDataSize(elementSize, queueLength) >= NumberSize(SizeVariant(queueLength)) by { QueuedRoom(elementSize, queueLength); }
  }

  lemma QueuedRoom(elementSize: nat, queueLength: nat)
    ensures QueuedDataSize(elementSize, queueLength) >= NumberSize(SizeVariant(queueLength))
  {
  }

  lemma NumberCodeLength(n: nat)
    ensures |NumberCode(n)| == NumberSize(SizeVariant(n))
  {
  }

  /**
   * Decoding an encoded header, whatever program follows it, gives every field back and
   * stops just past the header.
   */
  lemma HeaderRoundTrip(t: ProgramType, elementSize: uint32, queueLength: uint32, isDynamic: bool, body: seq<byte>)
    requires elementSize > 0 && (queueLength == 0 || QueuedDataSize(elementSize, queueLength) <= U32_MAX)
    ensures EncodeHeader(t, elementSize, queueLength, isDynamic).Ok?
    ensures var header := EncodeHeader(t, elementSize, queueLength, isDynamic).value;
            DecodeHeader(header + body)
            == Ok((Header(t, isDynamic, DataSize(elementSize, queueLength),
                          if queueLength > 0 then elementSize else 0, queueLength), |header|))
  {
    HeaderAccepted(t, elementSize, queueLength, isDynamic);
    assert DataSize(elementSize, queueLength) < U32_MOD;
    hide NumberCode, ParseNumber, DataSize, ProgramByte, DecodeQueueHeader, DecodeHeader, EncodeHeader, QueuePart, QueuedDataSize;
    var header := EncodeHeader(t, elementSize, queueLength, isDynamic).value;
    var prog := header + body;
    var size: uint32 := DataSize(elementSize, queueLength);
    HeaderParts(t, elementSize, queueLength, isDynamic);
    HeaderStart(prog, header, ProgramByte(t, isDynamic, queueLength > 0, SizeVariant(size)), size, QueuePart(elementSize, queueLength));
    SizeDecodes(prog, t, size, queueLength > 0, isDynamic);
    if queueLength > 0 {
      QueuePartDecodes(prog, 1 + |NumberCode(size)|, t, isDynamic, elementSize, queueLength);
    } else {
      NoQueuePart(elementSize);
    }
  }

  lemma NoQueuePart(elementSize: uint32)
    ensures QueuePart(elementSize, 0) == [] && DataSize(elementSize, 0) == elementSize
  {
  }

  lemma QueuePartDecodes(prog: seq<byte>, p: nat, t: ProgramType, isDynamic: bool, elementSize: uint32, queueLength: uint32)
    requires elementSize > 0 && queueLength > 0 && At(prog, p, QueuePart(elementSize, queueLength))
    ensures var size := DataSize(elementSize, queueLength);
            DecodeQueueHeader(prog, p, Header(t, isDynamic, size, 0, 0))
            == Ok((Header(t, isDynamic, size, elementSize, queueLength), p + |QueuePart(elementSize, queueLength)|))
  {
    hide DecodeQueueHeader, QueuedDataSize, NumberCode;
    QueueHeaderRoundTrip(prog, p, Header(t, isDynamic, DataSize(elementSize, queueLength), 0, 0), elementSize, queueLength);
  }

  lemma HeaderParts(t: ProgramType, elementSize: uint32, queueLength: uint32, isDynamic: bool)
    requires EncodeHeader(t, elementSize, queueLength, isDynamic).Ok?
    ensures var size := DataSize(elementSize, queueLength);
            EncodeHeader(t, elementSize, queueLength, isDynamic).value
            == [ProgramByte(t, isDynamic, queueLength > 0, SizeVariant(size))] + NumberCode(size) + QueuePart(elementSize, queueLength)
  {
    hide NumberCode, ProgramByte, DataSize;
  }

  lemma HeaderStart(prog: seq<byte>, header: seq<byte>, first: byte, size: uint32, rest: seq<byte>)
    requires header == [first] + NumberCode(size) + rest && header <= prog
    ensures |prog| > 0 && prog[0] == first && At(prog, 1, NumberCode(size)) && At(prog, 1 + |NumberCode(size)|, rest)
  {
    hide NumberCode;
    AtSplitThrice(prog, 0, [first], NumberCode(size), rest);
  }

  function QueuePart(elementSize: uint32, queueLength: uint32): seq<byte> {
    if queueLength == 0 then [] else
      var variant := ELEMENT_SIZE_U8_BASE + 3 * SizeVariant(elementSize) + SizeVariant(queueLength);
      [EncodeInstruction(OPCODE_DATA_SIZE, variant, false)] + NumberCode(elementSize)
  }

  lemma SizeDecodes(prog: seq<byte>, t: ProgramType, size: uint32, isQueued: bool, isDynamic: bool)
    requires |prog| > 0 && prog[0] == ProgramByte(t, isDynamic, isQueued, SizeVariant(size))
    requires At(prog, 1, NumberCode(size))
    ensures DecodeHeader(prog)
         == if isQueued then DecodeQueueHeader(prog, 1 + |NumberCode(size)|, Header(t, isDynamic, size, 0, 0))
            else Ok((Header(t, isDynamic, size, 0, 0), 1 + |NumberCode(size)|))
  {
    hide ParseNumber, ProgramByte, DecodeQueueHeader;
    ProgramByteFields(t, isDynamic, isQueued, SizeVariant(size));
    NumberCodeLength(size);
    ParseNumberCode(prog, 1, size);
  }

  /** A queued header is refused exactly when the port would not fit 32 bits. */
  lemma HeaderAccepted(t: ProgramType, elementSize: uint32, queueLength: uint32, isDynamic: bool)
    ensures EncodeHeader(t, elementSize, queueLength, isDynamic).Ok? <==> DataSize(elementSize, queueLength) < U32_MOD
  {
  }

  lemma AcceptedFits(t: ProgramType, elementSize: uint32, queueLength: uint32, isDynamic: bool)
    requires EncodeHeader(t, elementSize, queueLength, isDynamic).Ok?
    ensures queueLength == 0 || QueuedDataSize(elementSize, queueLength) <= U32_MAX
  {
    HeaderAccepted(t, elementSize, queueLength, isDynamic);
  }

  // ---------- whole programs ----------

  /** Does the data contain a dynamic array anywhere? */
  predicate HasDynamicData(e: DataElement)
    decreases e, 1
  {
    e.IsDynamicArray() || (e.code.Record? && AnyDynamic(e.children))
  }

  predicate AnyDynamic(fs: seq<DataElement>)
    decreases fs, 0
  {
    |fs| > 0 && (HasDynamicData(fs[0]) || AnyDynamic(fs[1..]))
  }

  /** apx_compiler_compile_port: a header and the code of the port's element. */
  function CompilePort(e: DataElement, t: ProgramType, queueLength: uint32): Result<seq<byte>>
    requires Compiles(e)
  {
    var header :- EncodeHeader(t, WrappedSize(e), queueLength, HasDynamicData(e));
    Ok(header + Code(e, t))
  }

  /** A port without a queue is never too large for a header. */
  lemma UnqueuedAccepted(e: DataElement, t: ProgramType)
    requires Compiles(e)
    ensures CompilePort(e, t, 0).Ok?
  {
    hide Code;
  }

  // ---------- the header routines themselves ----------

  /** apx_program_encode_header: appends a header to `program`, or leaves it alone. */
  method AppendHeader(program: seq<byte>, t: ProgramType, elementSize: uint32, queueSize: uint32, isDynamic: bool)
    returns (error: Error, extended: seq<byte>)
    ensures match EncodeHeader(t, elementSize, queueSize, isDynamic)
            case Ok(header) => error == NoError && extended == program + header
            case Err(x) => error == x && extended == program
  {
    hide PackLE, QueuePart, ProgramByte;
    if EncodeHeader(t, elementSize, queueSize, isDynamic).Ok? {
      HeaderParts(t, elementSize, queueSize, isDynamic);
      NoQueuePart(elementSize);
    }
    extended := program;
    var isQueued := queueSize > 0;
    var queueVariant, elementVariant := 0, 0;
    var dataSize: uint32 := elementSize;
    if isQueued {
      queueVariant := if queueSize <= U8_MAX then 0 else if queueSize <= U16_MAX then 1 else 2;
      elementVariant := if elementSize <= U8_MAX then 0 else if elementSize <= U16_MAX then 1 else 2;
      var lengthSize := if queueVariant == 0 then 1 else if queueVariant == 1 then 2 else 4;
      var total := lengthSize + elementSize * queueSize;
      if total > U32_MAX {
        return LengthError, program;
      }
      dataSize := total;
    }
    var dataVariant, packedSize;
    if dataSize <= U8_MAX {
      dataVariant, packedSize := 0, 1;
    } else if dataSize <= U16_MAX {
      dataVariant, packedSize := 1, 2;
    } else {
      dataVariant, packedSize := 2, 4;
    }
    assert dataSize == DataSize(elementSize, queueSize);
    extended := extended + [ProgramByte(t, isDynamic, isQueued, dataVariant)];
    extended := extended + PackLE(dataSize, packedSize);
    if isQueued {
      extended := AppendElementSize(extended, elementVariant, queueVariant, elementSize, queueSize);
    }
    return NoError, extended;
  }

  /** The element size of a queued program, in an instruction of its own. */
  method AppendElementSize(program: seq<byte>, elementVariant: nat, queueVariant: nat, elementSize: uint32, queueSize: uint32)
    returns (extended: seq<byte>)
    requires queueSize > 0 && elementVariant == SizeVariant(elementSize) && queueVariant == SizeVariant(queueSize)
    ensures extended == program + QueuePart(elementSize, queueSize)
  {
    hide PackLE;
    var variant := if elementVariant == 0 then 3 else if elementVariant == 1 then 6 else 9;
    extended := program + [EncodeInstruction(OPCODE_DATA_SIZE, variant + queueVariant, false)];
    extended := extended + PackLE(elementSize, if elementVariant == 0 then 1 else if elementVariant == 1 then 2 else 4);
  }

  /** apx_vm_parse_uint32_by_variant, which keeps the low 32 bits of a wider number. */
  method ParseUint32(prog: seq<byte>, next: nat, size: nat) returns (ok: bool, after: nat, n: uint32)
    requires size > 0
    ensures match ParseNumber(prog, next, size)
            case None => !ok
            case Some(x) => ok && after == next + size && n == x % U32_MOD
  {
    if next + size > |prog| {
      return false, next, 0;
    }
    var value := 0;
    var i := size;
    while i > 0
      invariant 0 <= i <= size
      invariant value == UnpackLE(prog[next + i..next + size])
    {
      i := i - 1;
      assert prog[next + i..next + size][1..] == prog[next + i + 1..next + size];
      value := 256 * value + prog[next + i];
    }
    return true, next + size, value % U32_MOD;
  }

  /** apx_program_decode_header */
  method ReadHeader(prog: seq<byte>) returns (error: Error, next: nat, header: Header)
    ensures match DecodeHeader(prog)
            case Ok((h, after)) => error == NoError && header == h && next == after
            case Err(x) => error == x
  {
    hide UnpackLE, ParseNumber;
    header := Header(UnpackProgram, false, 0, 0, 0);
    if |prog| < 2 {
      return InvalidArgumentError, 0, header;
    }
    var first := prog[0];
    var t := if (first / HEADER_PACK) % 2 == 1 then PackProgram else UnpackProgram;
    var isQueued := (first / HEADER_QUEUED) % 2 == 1;
    next := 1;
    var ok, after, dataSize := ParseUint32(prog, next, HeaderNumberSize(first % 8));
    if !ok {
      return ParseError, next, header;
    }
    next := after;
    header := Header(t, (first / HEADER_DYNAMIC) % 2 == 1, dataSize, 0, 0);
    if isQueued {
      error, next, header := ReadQueueHeader(prog, next, header);
      return;
    }
    return NoError, next, header;
  }

  method ReadQueueHeader(prog: seq<byte>, start: nat, partial: Header) returns (error: Error, next: nat, header: Header)
    ensures match DecodeQueueHeader(prog, start, partial)
            case Ok((h, after)) => error == NoError && header == h && next == after
            case Err(x) => error == x
  {
    hide UnpackLE, ParseNumber, ExactQuotient;
    next, header := start, partial;
    if next >= |prog| {
      return ParseError, next, header;
    }
    var opcode, variant := Opcode(prog[next]), Variant(prog[next]);
    if opcode != OPCODE_DATA_SIZE || variant < ELEMENT_SIZE_U8_BASE || variant > ELEMENT_SIZE_LAST {
      return ParseError, next, header;
    }
    next := next + 1;
    var elementVariant, queueVariant := SplitVariant(variant);
    var lengthSize := NumberSize(queueVariant);
    if lengthSize > header.dataSize {
      return ParseError, next, header;
    }
    var ok, after, elementSize := ParseUint32(prog, next, NumberSize(elementVariant));
    if !ok {
      return ParseError, next, header;
    }
    NumberFits(prog, next, NumberSize(elementVariant));
    next := after;
    if elementSize == 0 {
      return ParseError, next, header;
    }
    var queueLength := ExactQuotient(header.dataSize - lengthSize, elementSize);
    if queueLength.None? {
      return InvalidHeaderError, next, header;
    }
    return NoError, next, header.(elementSize := elementSize, queueLength := queueLength.value);
  }

  /** Variants 3 to 11 name the widths of the element size and of the queue length. */
  method SplitVariant(variant: nat) returns (elementVariant: nat, queueVariant: nat)
    requires ELEMENT_SIZE_U8_BASE <= variant <= ELEMENT_SIZE_LAST
    ensures elementVariant == (variant - ELEMENT_SIZE_U8_BASE) / 3 && queueVariant == (variant - ELEMENT_SIZE_U8_BASE) % 3
  {
    if variant < 6 {
      return 0, variant - 3;
    } else if variant < 9 {
      return 1, variant - 6;
    } else {
      return 2, variant - 9;
    }
  }

  lemma NumberFits(prog: seq<byte>, next: nat, size: nat)
    requires size <= 4 && ParseNumber(prog, next, size).Some?
    ensures ParseNumber(prog, next, size).value < U32_MOD
  {
    Pow256Values();
    UnpackLEBound(prog[next..next + size]);
    assert Pow256(3) * 256 == Pow256(4) && Pow256(0) == 1;
  }
}
