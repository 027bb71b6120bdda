/** The decode failure: a message kind and the character offset at which the
    problem was detected. */
module Errors {
  import opened Chars

  datatype ErrorKind =
    // raised by the tokenizer
    | UnexpectedChar(c: CodeUnit)
    | IncorrectNumberFormat
    | UnclosedString
    | IncorrectEscapeSequence
    | IncorrectUnicodeEscapeSequence
    | IncorrectKeyword
    // raised by the decoder
    | SyntaxError
    | UnexpectedToken
    | KeysMustBeStrings
    | ColonExpected
    | CommaOrBraceExpected
    | CommaOrBracketExpected

  /** The kinds a string token can fail with. */
  predicate IsStringError(k: ErrorKind) {
    k == UnclosedString || k == IncorrectEscapeSequence || k == IncorrectUnicodeEscapeSequence
  }

  datatype JsonError = JsonError(kind: ErrorKind, pos: nat)
}
