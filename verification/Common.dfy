/** Error codes and result types shared by every component. */
module Common {

  datatype Option<+T> = None | Some(value: T)

  /** The error codes of apx/error.h that the modelled functions return. */
  datatype Error =
    | NoError
    | InvalidArgumentError
    | MissingBufferError
    | BufferBoundaryError
    | BufferFullError
    | ValueTypeError
    | ValueLengthError
    | ValueConversionError
    | ValueRangeError
    | LengthError
    | NotImplementedError
    | UnsupportedError
    | NotFoundError
    | NullPtrError
    | InternalError
    | QueueFullError
    | IndexError
    | ElementTypeError
    | EmptyRecordError
    | NameMissingError
    | NameTooLongError
    | InvalidInstructionError
    | InvalidProgramError
    | InvalidHeaderError
    | UnexpectedEndError
    | ParseError
    | FileTooLargeError
    | InvalidAddressError
    | InvalidMsgError
    | InvalidWriteError
    | AssertionFailed  // an assert() of the source would stop the process here

  datatype Result<+T> = Ok(value: T) | Err(error: Error) {
    predicate IsFailure() { Err? }

    function PropagateFailure<U>(): Result<U>
      requires Err?
    {
      Err(error)
    }

    function Extract(): T
      requires Ok?
    {
      value
    }
  }

  const U8_MAX := 0xFF
  const U16_MAX := 0xFFFF
  const U32_MAX := 0xFFFF_FFFF
  const U32_MOD := 0x1_0000_0000
  const U64_MOD := 0x1_0000_0000_0000_0000
  const I32_MIN := -0x8000_0000
  const I32_MAX := 0x7FFF_FFFF

  type uint32 = n: int | 0 <= n < 0x1_0000_0000

  lemma SmallMod(n: nat)
    requires n < U32_MOD
    ensures n % U32_MOD == n
  {
  }
}
