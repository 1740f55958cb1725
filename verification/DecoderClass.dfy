/** The decoder object of apx/src/decoder.c, proved against the functions of `Decoding`. */
module Decoders {
  import opened Common
  import opened Bytes
  import opened DataElements
  import opened Bytecode
  import opened Layouts
  import opened Decoding
  import opened Programs

  /**
   * apx_vm_decoder_t: positions are offsets into the program; `operation` is the operation
   * type together with the information that belongs to it.
   */
  class Decoder {
    var program: seq<byte>
    var programNext: nat
    var programMark: Option<nat>
    var operation: Operation

    ghost predicate Valid()
      reads this
    {
      programNext <= |program| && (programMark.Some? ==> programMark.value <= |program|)
    }

    constructor ()
      ensures Valid() && program == [] && programNext == 0 && programMark == None && operation == ProgramEnd
    {
      program, programNext, programMark, operation := [], 0, None, ProgramEnd;
    }

    method SelectProgram(data: seq<byte>)
      modifies this
      ensures Valid() && program == data && programNext == 0 && programMark == None && operation == old(operation)
    {
      program, programNext, programMark := data, 0, None;
    }

    method ParseProgramHeader() returns (error: Error, header: Header)
      requires Valid()
      modifies this`programNext
      ensures match DecodeHeader(program)
              case Ok((h, after)) => error == NoError && header == h && programNext == after && Valid()
              case Err(x) => error == x
    {
      hide DecodeHeader;
      var next;
      error, next, header := ReadHeader(program);
      HeaderInside(program);
      programNext := next;
    }

    method SaveProgramPosition()
      requires Valid()
      modifies this`programMark
      ensures Valid() && programMark == Some(programNext)
    {
      programMark := Some(programNext);
    }

    /** Returns false if there is no saved position. */
    method RecallProgramPosition() returns (ok: bool)
      requires Valid()
      modifies this`programNext
      ensures Valid() && ok == programMark.Some?
      ensures programNext == if ok then programMark.value else old(programNext)
    {
      ok := programMark.Some?;
      if ok {
        programNext := programMark.value;
      }
    }

    /**
     * apx_vm_decoder_parse_next_operation: at the end of the program the operation is
     * `ProgramEnd`; elsewhere it is the one that stands at the current position.
     */
    method ParseNextOperation() returns (error: Error)
      requires Valid()
      modifies this`programNext, this`operation
      ensures if old(programNext) == |program|
              then error == NoError && operation == ProgramEnd && programNext == old(programNext)
              else Decoded(DecodeOperation(program, old(programNext)), error)
      ensures error == NoError ==> Valid()
    {
      if programNext == |program| {
        operation := ProgramEnd;
        return NoError;
      }
      error := DecodeNextInstruction();
    }

    /** What decoding must have left behind. */
    ghost predicate Decoded(r: Result<(Operation, nat)>, error: Error)
      reads this
    {
      match r
      case Ok((op, after)) => error == NoError && operation == op && programNext == after && after <= |program|
      case Err(x) => error == x && x != NoError
    }

    /** decode_next_instruction_internal */
    method DecodeNextInstruction() returns (error: Error)
      requires Valid() && programNext < |program|
      modifies this`programNext, this`operation
      ensures Decoded(DecodeOperation(program, old(programNext)), error)
    {
      hide DecodeRangeCheck, DecodeRecordSelect, DecodeArraySize;
      var instruction := program[programNext];
      programNext := programNext + 1;
      var opcode, variant, flag := Opcode(instruction), Variant(instruction), Flag(instruction);
      match opcode {
        case 0 | 1 =>
          var t := if opcode == OPCODE_PACK then PackProgram else UnpackProgram;
          match VariantType(variant) {
            case None => return InvalidInstructionError;
            case Some(code) =>
              operation := Data(t, code, 0, false);
              if flag {
                error := ReadArraySize(t, code);
                return;
              }
              return NoError;
          }
        case 3 =>
          if variant == VARIANT_RECORD_SELECT {
            error := ReadRecordSelect(flag);
            return;
          }
          match LimitKind(variant) {
            case None => return InvalidInstructionError;
            case Some((kind, size)) =>
              error := ReadRangeCheck(kind, size);
              return;
          }
        case 4 =>
          if variant != VARIANT_ARRAY_NEXT {
            return InvalidInstructionError;
          }
          operation := ArrayNext;
          return NoError;
        case _ =>
          return InvalidInstructionError;
      }
    }

    /** decode_array_size */
    method ReadArraySize(t: ProgramType, code: TypeCode) returns (error: Error)
      requires Valid()
      modifies this`programNext, this`operation
      ensures match DecodeArraySize(program, old(programNext))
              case Ok((n, isDynamic, after)) =>
                error == NoError && operation == Data(t, code, n, isDynamic) && programNext == after && after <= |program|
              case Err(x) => error == x && x != NoError
    {
      hide ParseNumber;
      if programNext >= |program| {
        return UnexpectedEndError;
      }
      var instruction := program[programNext];
      programNext := programNext + 1;
      var isDynamic := Flag(instruction);
      operation := Data(t, code, 0, isDynamic);
      if Opcode(instruction) == OPCODE_DATA_SIZE {
        var variant := Variant(instruction);
        if variant > 2 {
          return InvalidInstructionError;
        }
        var ok, after, n := ParseUint32(program, programNext, NumberSize(variant));
        if !ok {
          return InvalidInstructionError;
        }
        NumberFits(program, programNext, NumberSize(variant));
        NumberInside(program, programNext, NumberSize(variant));
        programNext := after;
        operation := Data(t, code, n, isDynamic);
      }
      return NoError;
    }

    /** decode_range_check_uint32, _uint64, _int32 and _int64 */
    method ReadRangeCheck(kind: CheckKind, size: nat) returns (error: Error)
      requires Valid() && size > 0
      modifies this`programNext, this`operation
      ensures Decoded(DecodeRangeCheck(program, old(programNext), kind, size), error)
    {
      hide UnpackLE, SignExtend;
      if programNext + 2 * size > |program| {
        return UnexpectedEndError;
      }
      var lower: int := UnpackLE(program[programNext..programNext + size]);
      programNext := programNext + size;
      var upper: int := UnpackLE(program[programNext..programNext + size]);
      programNext := programNext + size;
      if kind.CheckInt32? || kind.CheckInt64? {
        lower, upper := SignExtend(lower, size), SignExtend(upper, size);
      }
      operation := RangeCheck(kind, lower, upper);
      return NoError;
    }

    /** decode_record_select: the name runs to the next NUL. */
    method ReadRecordSelect(isLastField: bool) returns (error: Error)
      requires Valid()
      modifies this`programNext, this`operation
      ensures Decoded(DecodeRecordSelect(program, old(programNext), isLastField), error)
    {
      hide CutAtNul;
      var start := programNext;
      var end := start;
      while end < |program| && program[end] != 0
        invariant start <= end <= |program|
        invariant 0 !in program[start..end]
      {
        assert program[start..end + 1] == program[start..end] + [program[end]];
        end := end + 1;
      }
      var fieldName := program[start..end];
      NameIs(program, start, end);
      if |fieldName| == 0 || end >= |program| {
        return InvalidInstructionError;
      }
      operation := RecordSelect(fieldName, isLastField);
      programNext := end + 1;
      return NoError;
    }
  }

  lemma NameIs(program: seq<byte>, start: nat, end: nat)
    requires start <= end <= |program| && 0 !in program[start..end]
    requires end < |program| ==> program[end] == 0
    ensures CutAtNul(program[start..]) == program[start..end]
  {
    var window := program[start..];
    assert window[..end - start] == program[start..end];
    assert end < |program| ==> window[end - start] == program[end];
    CutAtNulIs(window, program[start..end]);
  }

  lemma NumberInside(prog: seq<byte>, next: nat, size: nat)
    requires ParseNumber(prog, next, size).Some?
    ensures next + size <= |prog|
  {
  }

  lemma HeaderInside(prog: seq<byte>)
    ensures DecodeHeader(prog).Ok? ==> DecodeHeader(prog).value.1 <= |prog|
  {
    hide UnpackLE;
  }
}
