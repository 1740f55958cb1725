/** The virtual machine (apx/src/vm.c): decoder, serializer and deserializer put together. */
module Vms {
  import opened Common
  import opened Bytes
  import opened DataElements
  import opened Layouts
  import opened Bytecode
  import opened Decoding
  import opened Programs
  import opened WriterModel
  import opened ReaderModel
  import opened PackRun
  import opened PackRecords
  import opened UnpackLeaf
  import opened UnpackRun
  import opened UnpackPort
  import opened PortRoundTrips
  import opened Readings
  import Decoders
  import Serialization
  import Deserialization
  import Compilation

  /** An error code and a machine that say how a run ended. */
  ghost predicate Ended<T>(run: Outcome<T>, error: Error, now: T) {
    match run
    case Done(m) => error == NoError && now == m
    case Failed(x) => error == x && x != NoError
    case OutOfFuel => false
  }

  ghost predicate Stepped<T>(step: Result<T>, error: Error, now: T) {
    match step
    case Ok(m) => error == NoError && now == m
    case Err(x) => error == x && x != NoError
  }

  /** apx_vm_t */
  class Vm {
    const serializer: Serialization.Serializer
    const deserializer: Deserialization.Deserializer
    const decoder: Decoders.Decoder
    var programHeader: Header

    ghost predicate Valid()
      reads this, decoder
    {
      decoder.Valid()
    }

    ghost function PackNow(): PackMachine
      reads this, decoder, serializer, serializer.buffer
    {
      PackMachine(decoder.programNext, decoder.programMark, serializer.Model())
    }

    ghost function UnpackNow(): UnpackMachine
      reads this, decoder, deserializer, deserializer.buffer
    {
      UnpackMachine(decoder.programNext, decoder.programMark, deserializer.Model())
    }

    constructor ()
      ensures Valid() && fresh(serializer) && fresh(deserializer) && fresh(decoder)
      ensures fresh(serializer.buffer) && fresh(deserializer.buffer)
      ensures serializer.Model() == Writer([], 0, None, Fresh(VNull), [], NO_WRITE_QUEUE)
      ensures deserializer.Model() == Reader([], 0, None, BLANK, [], NO_READ_QUEUE)
    {
      serializer := new Serialization.Serializer();
      deserializer := new Deserialization.Deserializer();
      decoder := new Decoders.Decoder();
      programHeader := Header(UnpackProgram, false, 0, 0, 0);
    }

    method SelectProgram(program: seq<byte>) returns (error: Error)
      modifies this, decoder
      ensures decoder.program == program && decoder.programMark == None
      ensures match DecodeHeader(program)
              case Ok((h, start)) => error == NoError && programHeader == h && decoder.programNext == start && Valid()
              case Err(x) => error == x
    {
      decoder.SelectProgram(program);
      error, programHeader := decoder.ParseProgramHeader();
    }

    /** run_pack_instruction and the instructions beside it. */
    method RunPackOperation(op: Operation) returns (error: Error)
      requires Valid()
      modifies decoder, serializer, serializer.buffer
      ensures serializer.buffer == old(serializer.buffer) && decoder.program == old(decoder.program)
      ensures Stepped(PackStep(op, old(PackNow())), error, PackNow())
      ensures error == NoError ==> Valid()
    {
      hide Pack, CheckRange, SelectField, NextItem;
      match op {
        case Data(t, code, n, isDynamic) =>
          if t.UnpackProgram? {
            return InvalidInstructionError;
          }
          if code.Char16? || code.Char32? {
            return NotImplementedError;
          }
          error := serializer.PackElement(code, n, if isDynamic then SizeToSizeType(n) else SizeNone);
          if code.Record? && n > 0 {
            decoder.SaveProgramPosition();
          }
        case RangeCheck(kind, lower, upper) =>
          error := serializer.CheckValueRange(kind, lower, upper);
        case RecordSelect(key, isLast) =>
          error := serializer.RecordSelect(key, isLast);
        case ArrayNext =>
          var isLast;
          error, isLast := serializer.ArrayNext();
          if error == NoError && !isLast {
            var ok := decoder.RecallProgramPosition();
            if !ok {
              return InvalidInstructionError;
            }
          }
        case ProgramEnd =>
          error := NoError;
      }
    }

    /** run_pack_program; `fuel` bounds the operations of a run that is known to end. */
    method RunPackProgram(ghost fuel: nat) returns (error: Error)
      requires Valid() && !RunPack(decoder.program, PackNow(), fuel).OutOfFuel?
      modifies decoder, serializer, serializer.buffer
      ensures serializer.buffer == old(serializer.buffer)
      ensures Ended(RunPack(old(decoder.program), old(PackNow()), fuel), error, PackNow())
    {
      hide PackStep, DecodeOperation;
      ghost var left, prog := fuel, decoder.program;
      while true
        invariant Valid() && decoder.program == prog && serializer.buffer == old(serializer.buffer)
        invariant RunPack(prog, PackNow(), left) == RunPack(prog, old(PackNow()), fuel)
        decreases left
      {
        error := decoder.ParseNextOperation();
        if error != NoError {
          return;
        }
        if decoder.operation.ProgramEnd? {
          NotProgramEnd(prog);
          return NoError;
        }
        error := RunPackOperation(decoder.operation);
        if error != NoError {
          return;
        }
        left := left - 1;
      }
    }

    /** apx_vm_pack_value */
    method PackValue(v: Value, ghost fuel: nat) returns (error: Error)
      requires Valid()
      requires var m := PackNow();
               !RunPack(decoder.program, m.(w := m.w.(state := Fresh(v))), fuel).OutOfFuel?
      modifies decoder, serializer, serializer.buffer
      ensures serializer.buffer == old(serializer.buffer)
      ensures !programHeader.t.PackProgram? ==> error == InvalidProgramError
      ensures programHeader.t.PackProgram? ==>
        var m := old(PackNow());
        Ended(RunPack(old(decoder.program), m.(w := m.w.(state := Fresh(v))), fuel), error, PackNow())
    {
      hide RunPack;
      if !programHeader.t.PackProgram? {
        return InvalidProgramError;
      }
      serializer.SetValue(v);
      error := RunPackProgram(fuel);
    }

    method RunUnpackOperation(op: Operation) returns (error: Error)
      requires Valid()
      modifies decoder, deserializer
      ensures deserializer.buffer == old(deserializer.buffer) && decoder.program == old(decoder.program)
      ensures Stepped(UnpackStep(op, old(UnpackNow())), error, UnpackNow())
      ensures error == NoError ==> Valid()
    {
      hide Unpack, CheckReadValue, SelectRead, NextRead;
      match op {
        case Data(t, code, n, isDynamic) =>
          if t.PackProgram? {
            return InvalidInstructionError;
          }
          if code.Char16? || code.Char32? {
            return NotImplementedError;
          }
          error := deserializer.UnpackElement(code, n, if isDynamic then SizeToSizeType(n) else SizeNone);
          if code.Record? && n > 0 {
            decoder.SaveProgramPosition();
          }
        case RangeCheck(kind, lower, upper) =>
          error := deserializer.CheckValueRange(kind, lower, upper);
        case RecordSelect(key, isLast) =>
          error := deserializer.RecordSelect(key, isLast);
        case ArrayNext =>
          var isLast;
          error, isLast := deserializer.ArrayNext();
          if error == NoError && !isLast {
            var ok := decoder.RecallProgramPosition();
            if !ok {
              return InvalidInstructionError;
            }
          }
        case ProgramEnd =>
          error := NoError;
      }
    }

    /** run_unpack_program */
    method RunUnpackProgram(ghost fuel: nat) returns (error: Error)
      requires Valid() && !RunUnpack(decoder.program, UnpackNow(), fuel).OutOfFuel?
      modifies decoder, deserializer
      ensures deserializer.buffer == old(deserializer.buffer)
      ensures Ended(RunUnpack(old(decoder.program), old(UnpackNow()), fuel), error, UnpackNow())
    {
      hide UnpackStep, DecodeOperation;
      ghost var left, prog := fuel, decoder.program;
      while true
        invariant Valid() && decoder.program == prog && deserializer.buffer == old(deserializer.buffer)
        invariant RunUnpack(prog, UnpackNow(), left) == RunUnpack(prog, old(UnpackNow()), fuel)
        decreases left
      {
        error := decoder.ParseNextOperation();
        if error != NoError {
          return;
        }
        if decoder.operation.ProgramEnd? {
          NotProgramEnd(prog);
          return NoError;
        }
        error := RunUnpackOperation(decoder.operation);
        if error != NoError {
          return;
        }
        left := left - 1;
      }
    }

    /** apx_vm_unpack_value: the value is taken out of the deserializer. */
    method UnpackValue(ghost fuel: nat) returns (error: Error, v: Value)
      requires Valid() && !RunUnpack(decoder.program, UnpackNow(), fuel).OutOfFuel?
      modifies decoder, deserializer
      ensures deserializer.buffer == old(deserializer.buffer)
      ensures !programHeader.t.UnpackProgram? ==> error == InvalidProgramError
      ensures programHeader.t.UnpackProgram? ==>
        match RunUnpack(old(decoder.program), old(UnpackNow()), fuel)
        case Done(m) =>
          error == (if m.r.state.value.VNull? then ValueTypeError else NoError)
          && v == m.r.state.value && UnpackNow() == m.(r := m.r.(state := m.r.state.(value := VNull)))
        case Failed(x) => error == x && x != NoError
        case OutOfFuel => false
    {
      hide RunUnpack;
      v := VNull;
      if !programHeader.t.UnpackProgram? {
        return InvalidProgramError, v;
      }
      error := RunUnpackProgram(fuel);
      if error == NoError {
        v := deserializer.state.value;
        deserializer.state := deserializer.state.(value := VNull);
        if v.VNull? {
          error := ValueTypeError;
        }
      }
    }

    // ---------- ports: compile, select, run ----------

    /**
     * Packing a value into a port's data: refused exactly when the value does not conform or
     * the data is too short, and otherwise the data holds the value's layout.
     */
    method PackPort(e: DataElement, v: Value, data: array<byte>) returns (error: Error)
      requires Compiles(e) && PortSupported(e) && Size(e) < U32_MOD
      requires serializer.stack == [] && !serializer.queue.isActive
      modifies this, decoder, serializer, data
      ensures error == NoError <==> Conforms(e, v) && Size(e) <= data.Length
      ensures error == NoError ==>
        data[..] == Overlay(old(data[..]), 0, Layout(e, v)) && serializer.stack == [] && !serializer.queue.isActive
    {
      hide Compiles, PortSupported, Conforms, Layout, Overlay, Size, Code, RunPack, CompilePort, DecodeHeader;
      CompiledNotEmpty(e);
      var program;
      program := CompileProgram(e, PackProgram);
      ghost var header := CompiledHeader(e, PackProgram, 0);
      error := SelectProgram(program);
      error := serializer.SetWriteBuffer(data);
      if error != NoError {
        return;
      }
      ghost var w := serializer.Model().(state := Fresh(v));
      ghost var k, d := PackProgramCorrect(header, e, v, w);
      error := PackValue(v, k);
    }

    /** Unpacking a port's data gives exactly the value that its bytes show, or an error if they show none. */
    method UnpackPort(e: DataElement, data: array<byte>) returns (error: Error, v: Value)
      requires Compiles(e) && PortSupported(e) && Size(e) < U32_MOD
      requires deserializer.stack == [] && !deserializer.queue.isActive
      modifies this, decoder, deserializer
      ensures data.Length == 0 ==> error == InvalidArgumentError
      ensures data.Length > 0 ==>
        && (error == NoError ==> ElementShows(e, v, data[..]) && deserializer.stack == [])
        && (error != NoError ==> forall x :: !ElementShows(e, x, data[..]))
        && match Read(e, data[..])
           case Some(x) => error == NoError && v == x
           case None => error != NoError
    {
      hide Compiles, PortSupported, Read, Size, Code, RunUnpack, CompilePort, DecodeHeader, ElementShows;
      forall x ensures Read(e, data[..]) == Some(x) <==> ElementShows(e, x, data[..]) {
        ReadExact(e, data[..], x);
      }
      v := VNull;
      var program := CompileProgram(e, UnpackProgram);
      ghost var header := CompiledHeader(e, UnpackProgram, 0);
      error := SelectProgram(program);
      error := deserializer.SetReadBuffer(data);
      if error != NoError {
        return;
      }
      ghost var k, d := UnpackProgramCorrect(header, e, deserializer.Model());
      ReadNotNull(e, data[..]);
      error, v := UnpackValue(k);
    }
  }

  /** What the compiler object produces for an unqueued port. */
  method CompileProgram(e: DataElement, t: ProgramType) returns (program: seq<byte>)
    requires Compiles(e) && Size(e) < U32_MOD
    ensures CompilePort(e, t, 0) == Ok(program)
  {
    hide Code, Size, Compiles;
    Compilation.CompileErrorExact(e);
    var compiler := new Compilation.Compiler();
    var error;
    error, program := compiler.CompilePort(e, t, 0);
    UnqueuedAccepted(e, t);
  }

  lemma NotProgramEnd(prog: seq<byte>)
    ensures forall p: nat :: p < |prog| && DecodeOperation(prog, p).Ok? ==> !DecodeOperation(prog, p).value.0.ProgramEnd?
  {
    hide UnpackLE, SignExtend, CutAtNul;
  }

  lemma ReadNotNull(e: DataElement, buf: seq<byte>)
    ensures Read(e, buf).Some? ==> !Read(e, buf).value.VNull?
  {
    hide ReadLeaf, ReadFields, ReadItems, UnpackLimitAccepts;
    if !e.code.Record? {
      ReadLeafNotNull(e, buf, 0);
    }
  }
}
