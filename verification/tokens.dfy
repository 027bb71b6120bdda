/** The tokens the tokenizer hands to the decoder. */
module Tokens {
  import opened Values

  /** The eleven token kinds, a closed enumeration. */
  datatype TokenKind =
    | Number
    | String
    | Boolean
    | LeftSquareBracket
    | RightSquareBracket
    | LeftCurlyBracket
    | RightCurlyBracket
    | Comma
    | Colon
    | Null
    | End

  /** An immutable token: its kind, the value it carries and its offset. */
  datatype Token = Token(kind: TokenKind, value: Value, pos: nat)

  /** Only number, string and boolean tokens carry a value; every other kind
      carries `null`. */
  predicate WellFormed(t: Token) {
    match t.kind
    case Number => t.value.Int? || t.value.Float?
    case String => t.value.Str?
    case Boolean => t.value.Bool?
    case _ => t.value == Values.Null
  }
}
