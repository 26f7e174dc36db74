/** Bytes, error kinds and failure-compatible results shared by every module. */
module Common {

  type Byte = x: int | 0 <= x < 256
  type Bytes = seq<Byte>

  const TAB: Byte := 9
  const NEWLINE: Byte := 10
  const RETURN: Byte := 13
  const SPACE: Byte := 32
  const QUOTE: Byte := 34
  const HASH: Byte := 35
  const PLUS: Byte := 43
  const COMMA: Byte := 44
  const HYPHEN: Byte := 45
  const DOT: Byte := 46
  const SLASH: Byte := 47
  const ZERO: Byte := 48
  const NINE: Byte := 57
  const COLON: Byte := 58
  const UPPER_E: Byte := 69
  const OPEN_BRACKET: Byte := 91
  const BACKSLASH: Byte := 92
  const CLOSE_BRACKET: Byte := 93
  const LOWER_E: Byte := 101
  const OPEN_BRACE: Byte := 123
  const PIPE: Byte := 124
  const CLOSE_BRACE: Byte := 125

  predicate IsDigit(b: Byte) { ZERO <= b <= NINE }

  /** The error kinds of `src/error.rs` that the modelled code returns. */
  datatype ErrorType =
    | Syntax
    | NoStructure
    | ExpectedArray
    | ExpectedArrayContent
    | TapeError
    | InvalidNumber
    | InvalidEscape
    | InvalidUnicodeCodepoint
    | InvalidUtf8
    | Eof
    | InputTooLarge

  datatype Span = Span(start: nat, end: nat)

  /** Equal, or one behind the other. */
  predicate Apart(p: Span, q: Span) { p == q || p.end <= q.start || q.end <= p.start }

  /** A string on the tape: its bytes, and the token of the input that they were read from. */
  datatype Str = Str(bytes: Bytes, token: Span)

  datatype Option<+T> = None | Some(value: T)

  datatype Result<+T> = Ok(value: T) | Err(error: ErrorType) {
    predicate IsFailure() { Err? }

    function PropagateFailure<U>(): Result<U>
      requires Err?
    {
      Err(error)
    }

    function Extract(): T
      requires Ok?
    {
      value
    }
  }
}
