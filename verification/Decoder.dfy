/** The program decoder (apx/src/decoder.c). */
module Decoding {
  import opened Common
  import opened Bytes
  import opened DataElements
  import opened Bytecode
  import opened Layouts

  datatype CheckKind = CheckInt32 | CheckUInt32 | CheckInt64 | CheckUInt64

  datatype Operation =
    | ProgramEnd
    | Data(t: ProgramType, code: TypeCode, arrayLen: uint32, isDynamic: bool)
    | RangeCheck(kind: CheckKind, lower: int, upper: int)
    | RecordSelect(fieldName: Name, isLastField: bool)
    | ArrayNext

  /** The kind of a limit check and the width of its two numbers. */
  function LimitKind(variant: nat): Option<(CheckKind, nat)> {
    match variant
    case 1 => Some((CheckUInt32, 1)) case 2 => Some((CheckUInt32, 2)) case 3 => Some((CheckUInt32, 4))
    case 4 => Some((CheckUInt64, 8))
    case 5 => Some((CheckInt32, 1)) case 6 => Some((CheckInt32, 2)) case 8 => Some((CheckInt32, 4))
    case 9 => Some((CheckInt64, 8))
    case _ => None
  }

  function ParseNumber(prog: seq<byte>, next: nat, size: nat): Option<nat> {
    if next + size <= |prog| then Some(UnpackLE(prog[next..next + size])) else None
  }

  /** decode_array_size: the length and the dynamic flag that follow an array instruction. */
  function DecodeArraySize(prog: seq<byte>, next: nat): Result<(uint32, bool, nat)> {
    if next >= |prog| then Err(UnexpectedEndError) else
      var isDynamic := Flag(prog[next]);
      if Opcode(prog[next]) != OPCODE_DATA_SIZE then Ok((0, isDynamic, next + 1)) else
        var variant := Variant(prog[next]);
        if variant > 2 then Err(InvalidInstructionError) else
          match ParseNumber(prog, next + 1, NumberSize(variant))
          case None => Err(InvalidInstructionError)
          case Some(n) =>
            if n > U32_MAX then Err(InvalidInstructionError)
            else Ok((n, isDynamic, next + 1 + NumberSize(variant)))
  }

  function DecodeRangeCheck(prog: seq<byte>, next: nat, kind: CheckKind, size: nat): Result<(Operation, nat)> {
    if next + 2 * size > |prog| then Err(UnexpectedEndError) else
      var lower := UnpackLE(prog[next..next + size]);
      var upper := UnpackLE(prog[next + size..next + 2 * size]);
      var op := if kind.CheckInt32? || kind.CheckInt64?
                then RangeCheck(kind, SignExtend(lower, size), SignExtend(upper, size))
                else RangeCheck(kind, lower, upper);
      Ok((op, next + 2 * size))
  }

  function DecodeRecordSelect(prog: seq<byte>, next: nat, isLast: bool): Result<(Operation, nat)>
    requires next <= |prog|
  {
    var name := CutAtNul(prog[next..]);
    if |name| == 0 || next + |name| >= |prog| then Err(InvalidInstructionError)
    else Ok((RecordSelect(name, isLast), next + |name| + 1))
  }

  /** The operation at `next` and the position after it. */
  function DecodeOperation(prog: seq<byte>, next: nat): Result<(Operation, nat)>
    requires next < |prog|
  {
    var opcode, variant, flag := Opcode(prog[next]), Variant(prog[next]), Flag(prog[next]);
    if opcode == OPCODE_PACK || opcode == OPCODE_UNPACK then
      var t := if opcode == OPCODE_PACK then PackProgram else UnpackProgram;
      match VariantType(variant)
      case None => Err(InvalidInstructionError)
      case Some(code) =>
        if !flag then Ok((Data(t, code, 0, false), next + 1)) else
          var (n, isDynamic, after) :- DecodeArraySize(prog, next + 1);
          Ok((Data(t, code, n, isDynamic), after))
    else if opcode == OPCODE_DATA_CTRL then
      if variant == VARIANT_RECORD_SELECT then DecodeRecordSelect(prog, next + 1, flag)
      else match LimitKind(variant)
           case None => Err(InvalidInstructionError)
           case Some((kind, size)) => DecodeRangeCheck(prog, next + 1, kind, size)
    else if opcode == OPCODE_FLOW_CTRL && variant == VARIANT_ARRAY_NEXT then Ok((ArrayNext, next + 1))
    else Err(InvalidInstructionError)
  }

  // ---------- decoding is the inverse of encoding ----------

  /** `code` stands in `prog` at `p`. */
  ghost predicate At(prog: seq<byte>, p: nat, code: seq<byte>) {
    p + |code| <= |prog| && prog[p..p + |code|] == code
  }

  lemma AtSplit(prog: seq<byte>, p: nat, a: seq<byte>, b: seq<byte>)
    requires At(prog, p, a + b)
    ensures At(prog, p, a) && At(prog, p + |a|, b)
  {
    assert prog[p..p + |a|] == (a + b)[..|a|];
    assert prog[p + |a|..p + |a| + |b|] == (a + b)[|a|..];
  }

  lemma DecodeArraySizeCode(prog: seq<byte>, p: nat, n: uint32, isDynamic: bool)
    requires At(prog, p, ArraySizeCode(n, isDynamic))
    ensures DecodeArraySize(prog, p) == Ok((n, isDynamic, p + |ArraySizeCode(n, isDynamic)|))
  {
    var v := ArraySizeVariant(n);
    var head := EncodeInstruction(OPCODE_DATA_SIZE, v, isDynamic);
    AtSplit(prog, p, [head], PackLE(n, NumberSize(v)));
    assert prog[p] == prog[p..p + 1][0] == head;
    InstructionRoundTrip(OPCODE_DATA_SIZE, v, isDynamic);
    Pow256Values();
    UnsignedRoundTrip(n, NumberSize(v));
  }

  lemma VariantRoundTrip(c: TypeCode)
    ensures VariantType(TypeVariant(c)) == Some(c)
  {
  }

  lemma DecodeDataCode(prog: seq<byte>, p: nat, e: DataElement, t: ProgramType)
    requires At(prog, p, DataCode(e, t))
    ensures p < |prog|
    ensures DecodeOperation(prog, p) == Ok((Data(t, e.code, e.arrayLen, e.IsDynamicArray()), p + |DataCode(e, t)|))
  {
    hide PackLE, UnpackLE, ArraySizeCode, DecodeArraySize, TypeVariant, VariantType;
    VariantRoundTrip(e.code);
    var opcode := if t.PackProgram? then OPCODE_PACK else OPCODE_UNPACK;
    var head := EncodeInstruction(opcode, TypeVariant(e.code), e.IsArray());
    var tail := if e.IsArray() then ArraySizeCode(e.arrayLen, e.isDynamic) else [];
    AtSplit(prog, p, [head], tail);
    assert prog[p] == prog[p..p + 1][0] == head;
    InstructionRoundTrip(opcode, TypeVariant(e.code), e.IsArray());
    if e.IsArray() {
      DecodeArraySizeCode(prog, p + 1, e.arrayLen, e.isDynamic);
    }
  }

  /** The operation that a limit check decodes to. */
  function LimitOperation(c: TypeCode, l: Limits): Operation {
    var s := StoredLimits(c, l);
    RangeCheck(
      match c
      case UInt64 => CheckUInt64
      case Int64 => CheckInt64
      case Int8 | Int16 | Int32 => CheckInt32
      case _ => CheckUInt32,
      s.lower, s.upper)
  }

  lemma DecodeLimitCode(prog: seq<byte>, p: nat, c: TypeCode, l: Limits, isArray: bool)
    requires LimitVariant(c) != VARIANT_LIMIT_CHECK_NONE
    requires At(prog, p, LimitCode(c, l, isArray))
    ensures p < |prog|
    ensures DecodeOperation(prog, p) == Ok((LimitOperation(c, l), p + |LimitCode(c, l, isArray)|))
  {
    hide PackLE, UnpackLE, SignExtend;
    var head := EncodeInstruction(OPCODE_DATA_CTRL, LimitVariant(c), isArray);
    var lower, upper := PackLE(l.lower, TypeSize(c)), PackLE(l.upper, TypeSize(c));
    AtSplit(prog, p, [head] + lower, upper);
    AtSplit(prog, p, [head], lower);
    assert prog[p] == prog[p..p + 1][0] == head;
    InstructionRoundTrip(OPCODE_DATA_CTRL, LimitVariant(c), isArray);
    assert LimitKind(LimitVariant(c)) == Some((LimitOperation(c, l).kind, TypeSize(c)));
  }

  lemma {:induction false} CutAtNulTerminated(name: Name, rest: seq<byte>)
    ensures CutAtNul(name + [0] + rest) == name
  {
    if |name| > 0 {
      assert (name + [0] + rest)[1..] == name[1..] + [0] + rest;
      assert 0 !in name[1..];
      CutAtNulTerminated(name[1..], rest);
    } else {
      assert (name + [0] + rest)[0] == 0;
    }
  }

  lemma DecodeSelectCode(prog: seq<byte>, p: nat, name: Name, isLast: bool)
    requires NameCompiles(name) && At(prog, p, SelectCode(name, isLast))
    ensures p < |prog|
    ensures DecodeOperation(prog, p) == Ok((RecordSelect(name, isLast), p + |SelectCode(name, isLast)|))
  {
    var head := EncodeInstruction(OPCODE_DATA_CTRL, VARIANT_RECORD_SELECT, isLast);
    assert SelectCode(name, isLast) == [head] + (name + [0]);
    AtSplit(prog, p, [head], name + [0]);
    assert prog[p] == prog[p..p + 1][0] == head;
    InstructionRoundTrip(OPCODE_DATA_CTRL, VARIANT_RECORD_SELECT, isLast);
    var q := p + 1 + |name| + 1;
    assert prog[p + 1..] == prog[p + 1..q] + prog[q..] == name + [0] + prog[q..];
    CutAtNulTerminated(name, prog[q..]);
  }

  lemma DecodeArrayNextCode(prog: seq<byte>, p: nat)
    requires At(prog, p, ArrayNextCode())
    ensures p < |prog|
    ensures DecodeOperation(prog, p) == Ok((ArrayNext, p + 1))
  {
    assert prog[p] == prog[p..p + 1][0];
    InstructionRoundTrip(OPCODE_FLOW_CTRL, VARIANT_ARRAY_NEXT, false);
  }

  // ---------- the whole program ----------

  /** The operations a program lists, in order, from `p` to its end. */
  function DecodeAll(prog: seq<byte>, p: nat): Result<seq<Operation>>
    decreases |prog| - p
  {
    if p >= |prog| then Ok([]) else
      var (op, after) :- DecodeOperation(prog, p);
      if after <= p then Err(InvalidInstructionError) else
        var rest :- DecodeAll(prog, after);
        Ok([op] + rest)
  }

  function LimitOps(e: DataElement): seq<Operation> {
    match e.limits
    case Some(l) => [LimitOperation(e.code, l)]
    case None => []
  }

  /** The operations of an element, by recursion on the element. */
  function Operations(e: DataElement, t: ProgramType): seq<Operation>
    decreases e, 1
  {
    var data := [Data(t, e.code, e.arrayLen, e.IsDynamicArray())];
    if e.code.Record? then
      data + FieldOperations(e.children, t) + if e.IsArray() then [ArrayNext] else []
    else if t.PackProgram? then LimitOps(e) + data
    else data + LimitOps(e)
  }

  function FieldOperations(fs: seq<DataElement>, t: ProgramType): seq<Operation>
    decreases fs, 0
  {
    if |fs| == 0 then []
    else [RecordSelect(fs[0].name, |fs| == 1)] + Operations(fs[0], t) + FieldOperations(fs[1..], t)
  }

  /** Prefixing operations to the rest of a decoded program. */
  function Prefixed(ops: seq<Operation>, rest: Result<seq<Operation>>): Result<seq<Operation>> {
    match rest
    case Ok(more) => Ok(ops + more)
    case Err(error) => Err(error)
  }

  lemma PrefixedTwice(a: seq<Operation>, b: seq<Operation>, rest: Result<seq<Operation>>)
    ensures Prefixed(a, Prefixed(b, rest)) == Prefixed(a + b, rest)
  {
    if rest.Ok? {
      assert a + (b + rest.value) == a + b + rest.value;
    }
  }

  lemma PrefixedThrice(a: seq<Operation>, b: seq<Operation>, c: seq<Operation>, rest: Result<seq<Operation>>)
    ensures Prefixed(a, Prefixed(b, Prefixed(c, rest))) == Prefixed(a + b + c, rest)
  {
    PrefixedTwice(a, b, Prefixed(c, rest));
    PrefixedTwice(a + b, c, rest);
  }

  lemma DecodeLimitPart(prog: seq<byte>, p: nat, e: DataElement)
    requires !e.code.Record? && Compiles(e) && At(prog, p, LimitPart(e))
    ensures DecodeAll(prog, p) == Prefixed(LimitOps(e), DecodeAll(prog, p + |LimitPart(e)|))
  {
    match e.limits
    case Some(l) => DecodeLimitCode(prog, p, e.code, l, e.IsArray());
    case None =>
      PrefixedNone(DecodeAll(prog, p));
  }

  lemma PrefixedNone(rest: Result<seq<Operation>>)
    ensures Prefixed([], rest) == rest
  {
    if rest.Ok? {
      assert [] + rest.value == rest.value;
    }
  }

  lemma DecodeOne(prog: seq<byte>, p: nat, op: Operation, after: nat)
    requires p < |prog| && p < after && DecodeOperation(prog, p) == Ok((op, after))
    ensures DecodeAll(prog, p) == Prefixed([op], DecodeAll(prog, after))
  {
  }

  lemma DecodeData(prog: seq<byte>, p: nat, e: DataElement, t: ProgramType)
    requires At(prog, p, DataCode(e, t))
    ensures DecodeAll(prog, p)
         == Prefixed([Data(t, e.code, e.arrayLen, e.IsDynamicArray())], DecodeAll(prog, p + |DataCode(e, t)|))
  {
    DecodeDataCode(prog, p, e, t);
    DecodeOne(prog, p, Data(t, e.code, e.arrayLen, e.IsDynamicArray()), p + |DataCode(e, t)|);
  }

  lemma DecodeSelect(prog: seq<byte>, p: nat, name: Name, isLast: bool)
    requires NameCompiles(name) && At(prog, p, SelectCode(name, isLast))
    ensures DecodeAll(prog, p)
         == Prefixed([RecordSelect(name, isLast)], DecodeAll(prog, p + |SelectCode(name, isLast)|))
  {
    DecodeSelectCode(prog, p, name, isLast);
    DecodeOne(prog, p, RecordSelect(name, isLast), p + |SelectCode(name, isLast)|);
  }

  lemma DecodeLeaf(prog: seq<byte>, p: nat, e: DataElement, t: ProgramType)
    requires !e.code.Record? && Compiles(e) && At(prog, p, Code(e, t))
    ensures DecodeAll(prog, p) == Prefixed(Operations(e, t), DecodeAll(prog, p + |Code(e, t)|))
  {
    hide DecodeOperation, DecodeAll, Prefixed, At, LimitPart, DataCode, LimitOps, Compiles;
    var data := [Data(t, e.code, e.arrayLen, e.IsDynamicArray())];
    var end := DecodeAll(prog, p + |Code(e, t)|);
    if t.PackProgram? {
      AtSplit(prog, p, LimitPart(e), DataCode(e, t));
      DecodeLimitPart(prog, p, e);
      DecodeData(prog, p + |LimitPart(e)|, e, t);
      PrefixedTwice(LimitOps(e), data, end);
    } else {
      AtSplit(prog, p, DataCode(e, t), LimitPart(e));
      DecodeData(prog, p, e, t);
      DecodeLimitPart(prog, p + |DataCode(e, t)|, e);
      PrefixedTwice(data, LimitOps(e), end);
    }
  }

  /** The ARRAY_NEXT instruction that closes an array of records, if there is one. */
  function NextPart(e: DataElement): seq<byte> {
    if e.IsArray() then ArrayNextCode() else []
  }

  function NextOps(e: DataElement): seq<Operation> {
    if e.IsArray() then [ArrayNext] else []
  }

  lemma DecodeNextPart(prog: seq<byte>, p: nat, e: DataElement)
    requires At(prog, p, NextPart(e))
    ensures DecodeAll(prog, p) == Prefixed(NextOps(e), DecodeAll(prog, p + |NextPart(e)|))
  {
    if e.IsArray() {
      DecodeArrayNextCode(prog, p);
      DecodeOne(prog, p, ArrayNext, p + 1);
    } else {
      PrefixedNone(DecodeAll(prog, p));
    }
  }

  lemma RecordCodeParts(prog: seq<byte>, p: nat, e: DataElement, t: ProgramType)
    requires e.code.Record? && At(prog, p, Code(e, t))
    ensures At(prog, p, DataCode(e, t))
    ensures At(prog, p + |DataCode(e, t)|, FieldsCode(e.children, t))
    ensures At(prog, p + |DataCode(e, t)| + |FieldsCode(e.children, t)|, NextPart(e))
    ensures |Code(e, t)| == |DataCode(e, t)| + |FieldsCode(e.children, t)| + |NextPart(e)|
  {
    hide At, DataCode, FieldsCode;
    AtSplitThrice(prog, p, DataCode(e, t), FieldsCode(e.children, t), NextPart(e));
  }

  lemma RecordOperationsJoin(e: DataElement, t: ProgramType, rest: Result<seq<Operation>>)
    requires e.code.Record?
    ensures Prefixed([Data(t, e.code, e.arrayLen, e.IsDynamicArray())],
                     Prefixed(FieldOperations(e.children, t), Prefixed(NextOps(e), rest)))
         == Prefixed(Operations(e, t), rest)
  {
    hide Prefixed, FieldOperations;
    PrefixedThrice([Data(t, e.code, e.arrayLen, e.IsDynamicArray())], FieldOperations(e.children, t), NextOps(e), rest);
  }

  lemma RecordCompiles(e: DataElement)
    requires e.code.Record? && Compiles(e)
    ensures |e.children| > 0 && FieldsCompile(e.children)
  {
  }

  lemma {:induction false} DecodeCode(prog: seq<byte>, p: nat, e: DataElement, t: ProgramType)
    requires Compiles(e) && At(prog, p, Code(e, t))
    ensures DecodeAll(prog, p) == Prefixed(Operations(e, t), DecodeAll(prog, p + |Code(e, t)|))
    decreases e, 1
  {
    hide DecodeOperation, DecodeAll, Prefixed, At, Code, Operations, Compiles;
    if !e.code.Record? {
      DecodeLeaf(prog, p, e, t);
    } else {
      var p1 := p + |DataCode(e, t)|;
      var p2 := p1 + |FieldsCode(e.children, t)|;
      RecordCompiles(e);
      RecordCodeParts(prog, p, e, t);
      DecodeData(prog, p, e, t);
      DecodeFieldsCode(prog, p1, e.children, t);
      DecodeNextPart(prog, p2, e);
      RecordOperationsJoin(e, t, DecodeAll(prog, p2 + |NextPart(e)|));
    }
  }

  lemma {:induction false} DecodeFieldsCode(prog: seq<byte>, p: nat, fs: seq<DataElement>, t: ProgramType)
    requires FieldsCompile(fs) && At(prog, p, FieldsCode(fs, t))
    ensures DecodeAll(prog, p) == Prefixed(FieldOperations(fs, t), DecodeAll(prog, p + |FieldsCode(fs, t)|))
    decreases fs, 0
  {
    hide DecodeOperation, DecodeAll, Prefixed, At, SelectCode, Code, Operations, Compiles, FieldsCompile;
    if |fs| == 0 {
      PrefixedNone(DecodeAll(prog, p));
    } else {
      var p1 := p + |SelectCode(fs[0].name, |fs| == 1)|;
      var p2 := p1 + |Code(fs[0], t)|;
      FieldsCompileParts(fs);
      FieldsCodeParts(prog, p, fs, t);
      DecodeSelect(prog, p, fs[0].name, |fs| == 1);
      DecodeCode(prog, p1, fs[0], t);
      DecodeFieldsCode(prog, p2, fs[1..], t);
      FieldsOperationsJoin(fs, t, DecodeAll(prog, p2 + |FieldsCode(fs[1..], t)|));
    }
  }

  lemma FieldsCodeParts(prog: seq<byte>, p: nat, fs: seq<DataElement>, t: ProgramType)
    requires |fs| > 0 && At(prog, p, FieldsCode(fs, t))
    ensures At(prog, p, SelectCode(fs[0].name, |fs| == 1))
    ensures At(prog, p + |SelectCode(fs[0].name, |fs| == 1)|, Code(fs[0], t))
    ensures At(prog, p + |SelectCode(fs[0].name, |fs| == 1)| + |Code(fs[0], t)|, FieldsCode(fs[1..], t))
    ensures |FieldsCode(fs, t)| == |SelectCode(fs[0].name, |fs| == 1)| + |Code(fs[0], t)| + |FieldsCode(fs[1..], t)|
  {
    hide At, SelectCode, Code;
    AtSplitThrice(prog, p, SelectCode(fs[0].name, |fs| == 1), Code(fs[0], t), FieldsCode(fs[1..], t));
  }

  lemma FieldsOperationsJoin(fs: seq<DataElement>, t: ProgramType, rest: Result<seq<Operation>>)
    requires |fs| > 0
    ensures Prefixed([RecordSelect(fs[0].name, |fs| == 1)],
                     Prefixed(Operations(fs[0], t), Prefixed(FieldOperations(fs[1..], t), rest)))
         == Prefixed(FieldOperations(fs, t), rest)
  {
    hide Prefixed, Operations;
    PrefixedThrice([RecordSelect(fs[0].name, |fs| == 1)], Operations(fs[0], t), FieldOperations(fs[1..], t), rest);
  }

  lemma AtSplitThrice(prog: seq<byte>, p: nat, a: seq<byte>, b: seq<byte>, c: seq<byte>)
    requires At(prog, p, a + b + c)
    ensures At(prog, p, a) && At(prog, p + |a|, b) && At(prog, p + |a| + |b|, c)
  {
    hide At;
    AtSplit(prog, p, a + b, c);
    AtSplit(prog, p, a, b);
  }

  /** Decoding a compiled program lists the element's operations and stops at its end. */
  lemma DecodeCompiled(e: DataElement, t: ProgramType)
    requires Compiles(e)
    ensures DecodeAll(Code(e, t), 0) == Ok(Operations(e, t))
  {
    var prog := Code(e, t);
    assert prog[0..|prog|] == prog;
    DecodeCode(prog, 0, e, t);
    assert Operations(e, t) + [] == Operations(e, t);
  }
}
