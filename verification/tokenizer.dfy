/** The tokenizer: reads one token at a time from a character sequence, with a
    cursor that counts the characters consumed so far. A call takes the input
    and the cursor and returns the token with the new cursor, or the failure
    with the offset it reports. */
module Tokenizer {
  import opened Results
  import opened Chars
  import opened Values
  import opened Tokens
  import opened Errors

  /** Space, carriage return, line feed and tab, and nothing else. */
  predicate IsWhiteSpace(c: CodeUnit) {
    c == SPACE || c == CR || c == LF || c == TAB
  }

  /** The characters a number run is made of: `+ - . e E` and the digits. */
  predicate IsNumberChar(c: CodeUnit) {
    c == PLUS || c == MINUS || c == DOT || c == LOWER_E || c == UPPER_E || IsDigit(c)
  }

  /** The characters that start a number token. */
  predicate StartsNumber(c: CodeUnit) {
    c == PLUS || c == MINUS || IsDigit(c)
  }

  /** The characters that start some token. */
  predicate StartsToken(c: CodeUnit) {
    || c == QUOTE || StartsNumber(c)
    || c == LBRACE || c == RBRACE || c == LBRACKET || c == RBRACKET || c == COLON || c == COMMA
    || c == LOWER_T || c == LOWER_F || c == LOWER_N
  }

  /** The end of the maximal run of white space starting at `i`. */
  function SkipWhiteSpace(s: Text, i: nat): (j: nat)
    requires i <= |s|
    ensures i <= j <= |s|
    ensures forall k | i <= k < j :: IsWhiteSpace(s[k])
    ensures j == |s| || !IsWhiteSpace(s[j])
    decreases |s| - i
  {
    if i < |s| && IsWhiteSpace(s[i]) then SkipWhiteSpace(s, i + 1) else i
  }

  /** The end of the maximal run of number characters starting at `i`. */
  function NumberRunEnd(s: Text, i: nat): (j: nat)
    requires i <= |s|
    ensures i <= j <= |s|
    ensures forall k | i <= k < j :: IsNumberChar(s[k])
    ensures j == |s| || !IsNumberChar(s[j])
    decreases |s| - i
  {
    if i < |s| && IsNumberChar(s[i]) then NumberRunEnd(s, i + 1) else i
  }

  /** `int.TryParse` on a run of number characters: an optional sign, then one
      or more digits, whose value fits in 32 bits. */
  function ParseInt32(t: Text): (r: Option<int>)
    ensures r.Some? ==> IsInt32(r.value)
    ensures r.Some? ==> |t| > 0 && (IsDigit(t[0]) || t[0] == PLUS || t[0] == MINUS)
  {
    var signed := |t| > 0 && (t[0] == PLUS || t[0] == MINUS);
    var digits := if signed then t[1..] else t;
    if |digits| == 0 || !AllDigits(digits) then None
    else
      var n: int := DecimalValue(digits);
      var v: int := if signed && t[0] == MINUS then -n else n;
      if IsInt32(v) then Some(v) else None
  }

  /** The end of the run of digits starting at `i`. */
  function DigitRunEnd(t: Text, i: nat): (j: nat)
    requires i <= |t|
    ensures i <= j <= |t|
    ensures forall k | i <= k < j :: IsDigit(t[k])
    ensures j == |t| || !IsDigit(t[j])
    decreases |t| - i
  {
    if i < |t| && IsDigit(t[i]) then DigitRunEnd(t, i + 1) else i
  }

  /** Whether `double.TryParse` (invariant culture) accepts a run of number
      characters: an optional sign, a mantissa with at least one digit and at
      most one decimal point, then optionally `e` or `E`, an optional sign and
      one or more digits, and nothing after. */
  predicate IsFloatLexeme(t: Text) {
    var i0 := if |t| > 0 && (t[0] == PLUS || t[0] == MINUS) then 1 else 0;
    var i1 := DigitRunEnd(t, i0);
    var i2 := if i1 < |t| && t[i1] == DOT then DigitRunEnd(t, i1 + 1) else i1;
    var mantissaDigits := (i1 - i0) + (if i2 > i1 then i2 - i1 - 1 else 0);
    && mantissaDigits > 0
    && (i2 == |t| || ((t[i2] == LOWER_E || t[i2] == UPPER_E) && IsExponentTail(t, i2 + 1)))
  }

  /** An optional sign followed by one or more digits that end the text. */
  predicate IsExponentTail(t: Text, j: nat)
    requires j <= |t|
  {
    var j1 := if j < |t| && (t[j] == PLUS || t[j] == MINUS) then j + 1 else j;
    var j2 := DigitRunEnd(t, j1);
    j2 > j1 && j2 == |t|
  }

  /** A number token: the maximal run of number characters at `p`, read as a
      32-bit integer if it is one, else as a floating-point number if it is
      one, else rejected. The token is stamped with its start offset. */
  function ReadNumber(s: Text, p: nat): (r: Result<(Token, nat), JsonError>)
    requires p < |s| && StartsNumber(s[p])
    ensures r.Success? ==> r.value.1 == NumberRunEnd(s, p) && r.value.0.pos == p
    ensures r.Success? ==> r.value.0.kind == Number && WellFormed(r.value.0)
    ensures r.Success? && r.value.0.value.Int? <==> ParseInt32(s[p..NumberRunEnd(s, p)]).Some?
    ensures r.Success? && r.value.0.value.Int? ==> ParseInt32(s[p..NumberRunEnd(s, p)]) == Some(r.value.0.value.i)
    ensures r.Success? && r.value.0.value.Float? ==>
      r.value.0.value.lexeme == s[p..NumberRunEnd(s, p)] && IsFloatLexeme(r.value.0.value.lexeme)
    ensures r.Failure? <==>
      ParseInt32(s[p..NumberRunEnd(s, p)]).None? && !IsFloatLexeme(s[p..NumberRunEnd(s, p)])
    ensures r.Failure? ==> r.error == JsonError(IncorrectNumberFormat, p)
  {
    var q := NumberRunEnd(s, p);
    var lexeme := s[p..q];
    match ParseInt32(lexeme)
    case Some(i) => Success((Token(Number, Int(i), p), q))
    case None =>
      if IsFloatLexeme(lexeme) then Success((Token(Number, Float(lexeme), p), q))
      else Failure(JsonError(IncorrectNumberFormat, p))
  }

  /** The character a one-letter escape stands for: `" \ / b f n r t`. */
  function Unescape(c: CodeUnit): Option<CodeUnit> {
    if c == QUOTE then Some(QUOTE)
    else if c == BACKSLASH then Some(BACKSLASH)
    else if c == SLASH then Some(SLASH)
    else if c == LOWER_B then Some(BACKSPACE)
    else if c == LOWER_F then Some(FORMFEED)
    else if c == LOWER_N then Some(LF)
    else if c == LOWER_R then Some(CR)
    else if c == LOWER_T then Some(TAB)
    else None
  }

  /** The escape sequence whose letter is at `i` (the backslash is already
      consumed): a one-letter escape, or `u` and exactly four hexadecimal
      digits giving one code unit. A failure is reported at the letter. */
  function ReadEscapeSequence(s: Text, i: nat): (r: Result<(CodeUnit, nat), JsonError>)
    requires i <= |s|
    ensures r.Success? ==> i < r.value.1 <= |s|
    ensures r.Success? ==>
      || (r.value.1 == i + 1 && Unescape(s[i]) == Some(r.value.0))
      || (r.value.1 == i + 5 && s[i] == LOWER_U && AllHexDigits(s[i + 1..i + 5])
          && r.value.0 == Hex4Value(s[i + 1..i + 5]))
    ensures r.Success? <==>
      i < |s| && (Unescape(s[i]).Some? || (s[i] == LOWER_U && i + 5 <= |s| && AllHexDigits(s[i + 1..i + 5])))
    ensures r.Failure? ==> r.error.pos == i
    ensures r.Failure? ==>
      r.error.kind == (if i < |s| && s[i] == LOWER_U then IncorrectUnicodeEscapeSequence else IncorrectEscapeSequence)
  {
    if i == |s| then Failure(JsonError(IncorrectEscapeSequence, i))
    else match Unescape(s[i])
      case Some(c) => Success((c, i + 1))
      case None =>
        if s[i] != LOWER_U then Failure(JsonError(IncorrectEscapeSequence, i))
        else if i + 5 <= |s| && AllHexDigits(s[i + 1..i + 5]) then
          Success((Hex4Value(s[i + 1..i + 5]), i + 5))
        else Failure(JsonError(IncorrectUnicodeEscapeSequence, i))
  }

  /** The next character of a string body at `i`, which is neither the
      closing quote nor a line break: an escape sequence after a backslash,
      else the character itself. */
  function StringChar(s: Text, i: nat): (r: Result<(CodeUnit, nat), JsonError>)
    requires i < |s|
    ensures r.Success? ==> i < r.value.1 <= |s|
    ensures s[i] != BACKSLASH ==> r == Success((s[i], i + 1))
    ensures r.Failure? ==> r.error.pos == i + 1 && IsStringError(r.error.kind)
  {
    if s[i] == BACKSLASH then ReadEscapeSequence(s, i + 1) else Success((s[i], i + 1))
  }

  /** The characters of a string whose opening quote is at `start`, read from
      offset `i` up to and including the first unescaped quote, with the
      offset after that quote. End of input, a raw CR or a raw LF first is an
      unclosed string, reported at the opening quote. */
  function ReadStringBody(s: Text, start: nat, i: nat): (r: Result<(Text, nat), JsonError>)
    requires start < i <= |s|
    ensures r.Success? ==> i < r.value.1 <= |s| && s[r.value.1 - 1] == QUOTE
    ensures r.Failure? ==> start <= r.error.pos <= |s|
    ensures r.Failure? ==> IsStringError(r.error.kind)
    ensures r.Failure? && r.error.kind == UnclosedString ==> r.error.pos == start
    decreases |s| - i
  {
    if i == |s| then Failure(JsonError(UnclosedString, start))
    else if s[i] == QUOTE then Success(([], i + 1))
    else if s[i] == CR || s[i] == LF then Failure(JsonError(UnclosedString, start))
    else
      var (c, j) :- StringChar(s, i);
      var (rest, k) :- ReadStringBody(s, start, j);
      Success(([c] + rest, k))
  }

  /** A string token starting at the opening quote at `p`, stamped with `p`. */
  function ReadString(s: Text, p: nat): (r: Result<(Token, nat), JsonError>)
    requires p < |s| && s[p] == QUOTE
    ensures r.Success? ==> r.value.0.kind == String && r.value.0.pos == p && r.value.0.value.Str?
    ensures r.Success? ==> p + 1 < r.value.1 <= |s| && s[r.value.1 - 1] == QUOTE
    ensures r.Failure? ==> p <= r.error.pos <= |s| && IsStringError(r.error.kind)
  {
    var (body, q) :- ReadStringBody(s, p, p + 1);
    Success((Token(String, Str(body), p), q))
  }

  /** The keyword `kw` at `p`: exactly its characters, else an incorrect
      keyword reported at `p`. A short read at the end of input is a
      mismatch. */
  function ReadKeyword(s: Text, p: nat, kw: Text): (r: Result<nat, JsonError>)
    requires p <= |s|
    ensures r.Success? <==> p + |kw| <= |s| && s[p..p + |kw|] == kw
    ensures r.Success? ==> r.value == p + |kw|
    ensures r.Failure? ==> r.error == JsonError(IncorrectKeyword, p)
  {
    if p + |kw| <= |s| && s[p..p + |kw|] == kw then Success(p + |kw|)
    else Failure(JsonError(IncorrectKeyword, p))
  }

  /** The kind of the one-character structural token `c`. */
  function StructuralKind(c: CodeUnit): Option<TokenKind> {
    if c == LBRACE then Some(LeftCurlyBracket)
    else if c == RBRACE then Some(RightCurlyBracket)
    else if c == LBRACKET then Some(LeftSquareBracket)
    else if c == RBRACKET then Some(RightSquareBracket)
    else if c == COLON then Some(Colon)
    else if c == COMMA then Some(Comma)
    else None
  }

  /** The token that starts with the non-white-space character at `p`:
      dispatch on that character. Structural tokens and keywords are stamped
      with the offset after them; an unknown character fails at `p`. */
  function TokenAt(s: Text, p: nat): (r: Result<(Token, nat), JsonError>)
    requires p < |s|
    ensures r.Success? ==> WellFormed(r.value.0) && p < r.value.1 <= |s| && r.value.0.kind != End
    ensures r.Failure? ==> p <= r.error.pos <= |s|
    ensures !StartsToken(s[p]) <==> r.Failure? && r.error.kind.UnexpectedChar?
    ensures !StartsToken(s[p]) ==> r == Failure(JsonError(UnexpectedChar(s[p]), p))
  {
    var c := s[p];
    if c == QUOTE then ReadString(s, p)
    else if StartsNumber(c) then ReadNumber(s, p)
    else if StructuralKind(c).Some? then
      Success((Token(StructuralKind(c).value, Values.Null, p + 1), p + 1))
    else if c == LOWER_T then
      var q :- ReadKeyword(s, p, TRUE_TEXT);
      Success((Token(Boolean, Bool(true), q), q))
    else if c == LOWER_F then
      var q :- ReadKeyword(s, p, FALSE_TEXT);
      Success((Token(Boolean, Bool(false), q), q))
    else if c == LOWER_N then
      var q :- ReadKeyword(s, p, NULL_TEXT);
      Success((Token(TokenKind.Null, Values.Null, q), q))
    else Failure(JsonError(UnexpectedChar(c), p))
  }

  /** Reads the next token at cursor `pos`, returning it with the new cursor:
      white space is skipped, and at the end of input the End token is
      returned without consuming anything. */
  function ReadToken(s: Text, pos: nat): (r: Result<(Token, nat), JsonError>)
    requires pos <= |s|
    ensures r.Success? ==> WellFormed(r.value.0) && pos <= r.value.1 <= |s|
    ensures r.Success? && r.value.0.kind != End ==> SkipWhiteSpace(s, pos) < r.value.1
    ensures r.Success? && r.value.0.kind == End <==> SkipWhiteSpace(s, pos) == |s|
    ensures r.Success? && r.value.0.kind == End ==> r.value == (Token(End, Values.Null, |s|), |s|)
    ensures r.Failure? ==> SkipWhiteSpace(s, pos) <= r.error.pos <= |s|
  {
    var p := SkipWhiteSpace(s, pos);
    if p == |s| then Success((Token(End, Values.Null, p), p)) else TokenAt(s, p)
  }
}
