/** The error kinds of the codec, and the result of an operation that can fail. */
module Errors {
  import opened Bytes

  /**
   * What went wrong while reading a file. `Incomplete` means the buffer ended
   * inside a field; the `Invalid...` kinds name the closed-set field whose
   * value is not in its table; `Unknown` is any other malformed field.
   */
  datatype ParseError =
    | Io
    | Incomplete
    | InvalidCodePageNumber(code: u16)
    | InvalidDisplayStandardCode
    | InvalidTimeCodeStatus
    | InvalidDiskFormatCode(text: seq<byte>)
    | InvalidCharacterCodeTable
    | InvalidCumulativeStatus
    | Unknown

  datatype Result<+T> = Ok(value: T) | Err(error: ParseError)
}
