/** The bytecode compiler (apx/src/compiler.c). */
module Compilation {
  import opened Common
  import opened Bytes
  import opened DataElements
  import opened Bytecode
  import opened Programs

  // ---------- which error a rejected element gives ----------

  function NameError(name: Name): Error {
    if |name| == 0 then NameMissingError else if |name| > MAX_NAME_LEN then NameTooLongError else NoError
  }

  /** The first error met by compilation, in the order in which the parts are visited. */
  function CompileError(e: DataElement): Error
    decreases e, 1
  {
    if e.code.Record? then
      if |e.children| == 0 then EmptyRecordError
      else if FieldsError(e.children) != NoError then FieldsError(e.children)
      else if WrappedFieldsSize(e.children) == 0 then ElementTypeError
      else NoError
    else if e.code.Char16? || e.code.Char32? then ElementTypeError
    else if e.limits.Some? && LimitVariant(e.code) == VARIANT_LIMIT_CHECK_NONE then UnsupportedError
    else NoError
  }

  function FieldsError(fs: seq<DataElement>): Error
    decreases fs, 0
  {
    if |fs| == 0 then NoError
    else if NameError(fs[0].name) != NoError then NameError(fs[0].name)
    else if CompileError(fs[0]) != NoError then CompileError(fs[0])
    else if WrappedSize(fs[0]) == 0 then LengthError
    else FieldsError(fs[1..])
  }

  lemma {:induction false} CompileErrorExact(e: DataElement)
    ensures CompileError(e) == NoError <==> Compiles(e)
    decreases e, 1
  {
    if e.code.Record? {
      FieldsErrorExact(e.children);
    }
  }

  lemma {:induction false} FieldsErrorExact(fs: seq<DataElement>)
    ensures FieldsError(fs) == NoError <==> FieldsCompile(fs)
    decreases fs, 0
  {
    hide CompileError, Compiles;
    if |fs| > 0 {
      CompileErrorExact(fs[0]);
      FieldsErrorExact(fs[1..]);
    }
  }

  /** Sums of sizes may wrap at every step or only once. */
  lemma WrappedSum(a: uint32, b: uint32, c: uint32)
    ensures ((a + b) % U32_MOD + c) % U32_MOD == (a + (b + c) % U32_MOD) % U32_MOD
  {
    assert a + b == U32_MOD * ((a + b) / U32_MOD) + (a + b) % U32_MOD;
    assert b + c == U32_MOD * ((b + c) / U32_MOD) + (b + c) % U32_MOD;
  }

  lemma WrappedSizeParts(e: DataElement)
    ensures var base := if e.code.Record? then WrappedFieldsSize(e.children) else TypeSize(e.code);
            var scaled := Times(e.arrayLen, base) % U32_MOD;
            WrappedSize(e) == if e.arrayLen == 0 then base
                              else if e.isDynamic then (scaled + SizeTypeToSize(SizeToSizeType(e.arrayLen))) % U32_MOD
                              else scaled
  {
    hide WrappedFieldsSize;
  }

  /** The size of an array, multiplied and added up in 32-bit arithmetic. */
  method ArraySize(elementSize: uint32, arrayLen: uint32, isDynamic: bool) returns (size: uint32)
    ensures var scaled := Times(arrayLen, elementSize) % U32_MOD;
            size == if isDynamic then (scaled + SizeTypeToSize(SizeToSizeType(arrayLen))) % U32_MOD else scaled
  {
    TimesIs(arrayLen, elementSize);
    size := (arrayLen * elementSize) % U32_MOD;
    if isDynamic {
      size := (size + SizeTypeToSize(SizeToSizeType(arrayLen))) % U32_MOD;
    }
  }

  /** The parts of the remaining fields `fs[i..]`. */
  lemma RestParts(fs: seq<DataElement>, i: nat, t: ProgramType)
    requires i < |fs|
    ensures FieldsCode(fs[i..], t) == SelectCode(fs[i].name, i == |fs| - 1) + Code(fs[i], t) + FieldsCode(fs[i + 1..], t)
    ensures WrappedFieldsSize(fs[i..]) == (WrappedSize(fs[i]) + WrappedFieldsSize(fs[i + 1..])) % U32_MOD
    ensures AnyDynamic(fs[i..]) <==> HasDynamicData(fs[i]) || AnyDynamic(fs[i + 1..])
    ensures FieldsError(fs[i..])
         == if NameError(fs[i].name) != NoError then NameError(fs[i].name)
            else if CompileError(fs[i]) != NoError then CompileError(fs[i])
            else if WrappedSize(fs[i]) == 0 then LengthError
            else FieldsError(fs[i + 1..])
  {
    hide Code, WrappedSize, HasDynamicData, CompileError, NameError, SelectCode;
    assert fs[i..][0] == fs[i] && fs[i..][1..] == fs[i + 1..];
  }

  /** apx_compiler_t */
  class Compiler {
    var program: seq<byte>
    var hasDynamicData: bool

    constructor ()
      ensures program == [] && !hasDynamicData
    {
      program, hasDynamicData := [], false;
    }

    method PushInstruction(opcode: nat, variant: nat, flag: bool)
      modifies this`program
      ensures program == old(program) + [EncodeInstruction(opcode, variant, flag)]
    {
      program := program + [EncodeInstruction(opcode, variant, flag)];
    }

    /** compile_array_size_instruction */
    method CompileArraySize(arrayLen: uint32, isDynamic: bool)
      modifies this`program
      ensures program == old(program) + ArraySizeCode(arrayLen, isDynamic)
    {
      var variant, size;
      if arrayLen > U16_MAX {
        variant, size := 2, 4;
      } else if arrayLen > U8_MAX {
        variant, size := 1, 2;
      } else {
        variant, size := 0, 1;
      }
      PushInstruction(OPCODE_DATA_SIZE, variant, isDynamic);
      program := program + PackLE(arrayLen, size);
    }

    /** compile_limit_instruction */
    method CompileLimit(c: TypeCode, l: Limits, isArray: bool) returns (error: Error)
      modifies this`program
      ensures error == if LimitVariant(c) == VARIANT_LIMIT_CHECK_NONE then UnsupportedError else NoError
      ensures error == NoError ==> program == old(program) + LimitCode(c, l, isArray)
    {
      hide PackLE, EncodeInstruction;
      if LimitVariant(c) == VARIANT_LIMIT_CHECK_NONE {
        return UnsupportedError;
      }
      PushInstruction(OPCODE_DATA_CTRL, LimitVariant(c), isArray);
      program := program + PackLE(l.lower, TypeSize(c));
      program := program + PackLE(l.upper, TypeSize(c));
      return NoError;
    }

    /** compile_record_select_instruction */
    method CompileRecordSelect(name: Name, isLast: bool) returns (error: Error)
      modifies this`program
      ensures error == NameError(name)
      ensures error == NoError ==> program == old(program) + SelectCode(name, isLast)
    {
      if |name| == 0 {
        return NameMissingError;
      }
      if |name| > MAX_NAME_LEN {
        return NameTooLongError;
      }
      PushInstruction(OPCODE_DATA_CTRL, VARIANT_RECORD_SELECT, isLast);
      program := program + name;
      program := program + [0];
      return NoError;
    }

    /** The data instruction and, for arrays, its length. */
    method CompileData(e: DataElement, t: ProgramType)
      modifies this
      ensures program == old(program) + DataCode(e, t)
      ensures hasDynamicData == (old(hasDynamicData) || e.IsDynamicArray())
    {
      PushInstruction(if t.PackProgram? then OPCODE_PACK else OPCODE_UNPACK, TypeVariant(e.code), e.IsArray());
      if e.IsArray() {
        CompileArraySize(e.arrayLen, e.isDynamic);
        if e.isDynamic {
          hasDynamicData := true;
        }
      }
    }

    /** The part of compile_data_element for everything but records. */
    method CompileLeaf(e: DataElement, t: ProgramType) returns (error: Error)
      requires !e.code.Record?
      modifies this
      ensures error == CompileError(e)
      ensures error == NoError ==>
        program == old(program) + Code(e, t) && hasDynamicData == (old(hasDynamicData) || HasDynamicData(e))
    {
      hide LimitCode, DataCode;
      error := NoError;
      if e.code.Char16? || e.code.Char32? {
        return ElementTypeError;
      }
      if e.limits.Some? && t.PackProgram? {
        error := CompileLimit(e.code, e.limits.value, e.IsArray());
        if error != NoError {
          return;
        }
      }
      CompileData(e, t);
      if e.limits.Some? && !t.PackProgram? {
        error := CompileLimit(e.code, e.limits.value, e.IsArray());
      }
    }

    /**
     * compile_data_element: appends exactly the element's code and computes its size in
     * 32-bit arithmetic, or reports the first error.
     */
    method CompileDataElement(e: DataElement, t: ProgramType) returns (error: Error, dataSize: uint32)
      modifies this
      ensures error == CompileError(e)
      ensures error == NoError ==>
        && program == old(program) + Code(e, t)
        && dataSize == WrappedSize(e)
        && hasDynamicData == (old(hasDynamicData) || HasDynamicData(e))
      decreases e, 1
    {
      hide ArraySizeCode, LimitPart, SelectCode, FieldsCode, FieldsError, WrappedSize, DataCode;
      WrappedSizeParts(e);
      dataSize := TypeSize(e.code);
      if e.code.Record? {
        CompileData(e, t);
        error, dataSize := CompileRecordFields(e.children, t);
        if error == NoError && e.IsArray() {
          PushInstruction(OPCODE_FLOW_CTRL, VARIANT_ARRAY_NEXT, false);
        }
      } else {
        error := CompileLeaf(e, t);
      }
      if error == NoError {
        if dataSize == 0 {
          error := ElementTypeError;
        } else if e.IsArray() {
          dataSize := ArraySize(dataSize, e.arrayLen, e.isDynamic);
        }
      }
    }

    /** compile_record_fields */
    method CompileRecordFields(fs: seq<DataElement>, t: ProgramType) returns (error: Error, recordSize: uint32)
      modifies this
      ensures error == if |fs| == 0 then EmptyRecordError else FieldsError(fs)
      ensures error == NoError ==>
        && program == old(program) + FieldsCode(fs, t)
        && recordSize == WrappedFieldsSize(fs)
        && hasDynamicData == (old(hasDynamicData) || AnyDynamic(fs))
      decreases fs, 0
    {
      hide Code, FieldsCode, SelectCode, WrappedSize, WrappedFieldsSize, HasDynamicData, AnyDynamic, CompileError, FieldsError, NameError;
      error, recordSize := NoError, 0;
      if |fs| == 0 {
        return EmptyRecordError, 0;
      }
      assert fs[0..] == fs;
      for i := 0 to |fs|
        invariant error == NoError && FieldsError(fs) == FieldsError(fs[i..])
        invariant program + FieldsCode(fs[i..], t) == old(program) + FieldsCode(fs, t)
        invariant (recordSize + WrappedFieldsSize(fs[i..])) % U32_MOD == WrappedFieldsSize(fs)
        invariant (hasDynamicData || AnyDynamic(fs[i..])) == (old(hasDynamicData) || AnyDynamic(fs))
      {
        RestParts(fs, i, t);
        ghost var before := program;
        error := CompileRecordSelect(fs[i].name, i == |fs| - 1);
        if error != NoError {
          return;
        }
        var childSize;
        error, childSize := CompileDataElement(fs[i], t);
        if error != NoError {
          return;
        }
        if childSize == 0 {
          return LengthError, recordSize;
        }
        WrappedSum(recordSize, childSize, WrappedFieldsSize(fs[i + 1..]));
        recordSize := (recordSize + childSize) % U32_MOD;
        assert before + FieldsCode(fs[i..], t)
            == before + SelectCode(fs[i].name, i == |fs| - 1) + Code(fs[i], t) + FieldsCode(fs[i + 1..], t);
      }
      NoFieldsLeft(fs, t);
    }

    /** apx_compiler_compile_port: the header and the program of a port's element. */
    method CompilePort(e: DataElement, t: ProgramType, queueLength: uint32) returns (error: Error, whole: seq<byte>)
      modifies this
      ensures CompileError(e) != NoError ==> error == CompileError(e)
      ensures CompileError(e) == NoError ==> Compiles(e) && Tied(Programs.CompilePort(e, t, queueLength), error, whole)
    {
      hide Code, WrappedSize, HasDynamicData, CompileError, EncodeHeader, Compiles;
      whole := [];
      program, hasDynamicData := [], false;
      var elementSize;
      error, elementSize := CompileDataElement(e, t);
      if error != NoError {
        return;
      }
      CompileErrorExact(e);
      error, whole := AppendHeader([], t, elementSize, queueLength, hasDynamicData);
      if error == NoError {
        whole := whole + program;
      }
    }
  }

  /** An error code and an output that say what `r` says. */
  ghost predicate Tied(r: Result<seq<byte>>, error: Error, output: seq<byte>) {
    match r
    case Ok(x) => error == NoError && output == x
    case Err(x) => error == x
  }

  lemma NoFieldsLeft(fs: seq<DataElement>, t: ProgramType)
    ensures fs[|fs|..] == [] && FieldsError(fs[|fs|..]) == NoError && FieldsCode(fs[|fs|..], t) == []
    ensures WrappedFieldsSize(fs[|fs|..]) == 0 && !AnyDynamic(fs[|fs|..])
  {
    assert fs[|fs|..] == [];
  }
}
