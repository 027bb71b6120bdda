/** The tokenizer on the inputs its unit tests use, and the rules those tests
    rely on: an unclosed string is reported at its opening quote, a number run
    that is neither a 32-bit integer nor a floating-point number is rejected,
    and only space, CR, LF and tab are white space. */
module TokenizerFacts {
  import opened Results
  import opened Chars
  import opened Values
  import opened Tokens
  import opened Errors
  import opened Encoder
  import opened Tokenizer
  import opened TokenRoundTrip

  /** White space before a token is skipped. */
  lemma SkipOne(s: Text, p: nat)
    requires p < |s| && IsWhiteSpace(s[p])
    ensures ReadToken(s, p) == ReadToken(s, p + 1)
  {
  }

  /** The end is sticky: once only white space is left, the end token is
      read, stamped with the input's length, and the cursor is left at the
      end, so reading again gives the same token. */
  lemma EndOfInput(s: Text, pos: nat)
    requires pos <= |s| && SkipWhiteSpace(s, pos) == |s|
    ensures ReadToken(s, pos) == Success((Token(End, Values.Null, |s|), |s|))
    ensures ReadToken(s, |s|) == ReadToken(s, pos)
  {
  }

  /** A string body that reaches the end of the input, a raw CR or a raw LF
      before any quote or backslash is unclosed, and the failure is reported
      at the opening quote whatever the body held. */
  lemma {:induction false} UnclosedBody(s: Text, start: nat, i: nat, j: nat)
    requires start < i <= j <= |s| && (j == |s| || s[j] == CR || s[j] == LF)
    requires forall k | i <= k < j :: s[k] != QUOTE && s[k] != BACKSLASH
    ensures ReadStringBody(s, start, i) == Failure(JsonError(UnclosedString, start))
    decreases j - i
  {
    if i < j {
      assert s[i] != QUOTE && s[i] != BACKSLASH;
      UnclosedBody(s, start, i + 1, j);
    }
  }

  /** A quote whose string runs into the end of the input or a line break is
      an unclosed string at that quote. */
  lemma UnclosedStringAt(s: Text, p: nat, j: nat)
    requires p < j <= |s| && s[p] == QUOTE && !IsWhiteSpace(s[p])
    requires j == |s| || s[j] == CR || s[j] == LF
    requires forall k | p < k < j :: s[k] != QUOTE && s[k] != BACKSLASH
    ensures ReadToken(s, p) == Failure(JsonError(UnclosedString, p))
  {
    ReadTokenHere(s, p);
    UnclosedBody(s, p, p + 1, j);
  }

  /** A string body of characters other than a quote, a backslash, CR and
      LF, closed by a quote, is taken verbatim (control characters such as a
      raw tab included), and the first such quote ends it. */
  lemma {:induction false} PlainBody(s: Text, start: nat, i: nat, j: nat)
    requires start < i <= j < |s| && s[j] == QUOTE
    requires forall k | i <= k < j :: s[k] != QUOTE && s[k] != BACKSLASH && s[k] != CR && s[k] != LF
    ensures ReadStringBody(s, start, i) == Success((s[i..j], j + 1))
    decreases j - i
  {
    if i < j {
      assert s[i] != QUOTE && s[i] != BACKSLASH && s[i] != CR && s[i] != LF;
      PlainBody(s, start, i + 1, j);
      ReadBodyStep(s, start, i, s[i], i + 1, s[i + 1..j], j + 1);
      assert [s[i]] + s[i + 1..j] == s[i..j];
    }
  }

  /** A quote, then characters other than a quote, a backslash, CR and LF,
      then a quote: a string token holding those characters, stamped with
      the opening quote's offset, and the cursor after the closing quote. */
  lemma PlainStringAt(s: Text, p: nat, j: nat)
    requires p < j < |s| && s[p] == QUOTE && s[j] == QUOTE
    requires forall k | p < k < j :: s[k] != QUOTE && s[k] != BACKSLASH && s[k] != CR && s[k] != LF
    ensures ReadToken(s, p) == Success((Token(String, Str(s[p + 1..j]), p), j + 1))
  {
    PlainBody(s, p, p + 1, j);
    StringTokenHere(s, p, s[p + 1..j], j + 1);
  }

  /** A run of digits without a sign is read as its decimal value, leading
      zeros included, when that value fits in 32 bits, and rejected
      otherwise. */
  lemma ParseDigits(ds: Text)
    requires |ds| > 0 && AllDigits(ds)
    ensures ParseInt32(ds).Some? <==> IsInt32(DecimalValue(ds))
    ensures ParseInt32(ds).Some? ==> ParseInt32(ds).value == DecimalValue(ds)
  {
  }

  /** A `+` sign before a run of digits changes nothing. */
  lemma ParsePlusSign(ds: Text)
    requires AllDigits(ds)
    ensures ParseInt32([PLUS] + ds) == ParseInt32(ds)
  {
    assert ([PLUS] + ds)[1..] == ds;
  }

  /** A `-` sign before a run of digits negates its value, which is read
      when the negated value fits in 32 bits, down to -2147483648. */
  lemma ParseMinusSign(ds: Text)
    requires |ds| > 0 && AllDigits(ds)
    ensures ParseInt32([MINUS] + ds).Some? <==> IsInt32(-(DecimalValue(ds) as int))
    ensures ParseInt32([MINUS] + ds).Some? ==> ParseInt32([MINUS] + ds).value == -(DecimalValue(ds) as int)
  {
    var t := [MINUS] + ds;
    assert t[0] == MINUS && t[1..] == ds;
  }

  /** A leading zero changes nothing: `007` reads as `7`. */
  lemma ParseLeadingZero(ds: Text)
    requires |ds| > 0 && AllDigits(ds)
    ensures ParseInt32([0x30] + ds) == ParseInt32(ds)
  {
    LeadingZeroValue(ds);
  }

  /** `+5` reads as 5. */
  lemma ParsePlusFive()
    ensures ParseInt32([PLUS, 0x35]) == Some(5)
  {
    assert [PLUS, 0x35] == [PLUS] + [0x35];
    ParsePlusSign([0x35]);
    assert DecimalValue([0x35]) == 5;
  }

  /** `007` reads as 7. */
  lemma ParseZerosSeven()
    ensures ParseInt32([0x30, 0x30, 0x37]) == Some(7)
  {
    assert [0x30, 0x30, 0x37] == [0x30] + [0x30, 0x37] && [0x30, 0x37] == [0x30] + [0x37];
    ParseLeadingZero([0x30, 0x37]);
    ParseLeadingZero([0x37]);
    assert DecimalValue([0x37]) == 7;
  }

  /** `-0` reads as 0, while a sign followed by another sign, or by
      nothing, does not read. */
  lemma ParseSignEdges()
    ensures ParseInt32([MINUS, 0x30]) == Some(0)
    ensures ParseInt32([PLUS, MINUS, 0x35]) == None
    ensures ParseInt32([MINUS]) == None
  {
    assert [MINUS, 0x30][1..] == [0x30] && DecimalValue([0x30]) == 0;
    assert [PLUS, MINUS, 0x35][1..][0] == MINUS && !IsDigit(MINUS);
    assert [MINUS][1..] == [];
  }

  // The number test: "0.1234 1234 0.12e-5".

  const NUMBER_TEST: Text := Ascii("0.1234 1234 0.12e-5")

  lemma FirstLexeme()
    ensures IsFloatToken(NUMBER_TEST[0..6])
  {
    var t := NUMBER_TEST[0..6];
    assert DigitRunEnd(t, 0) == 1;
    assert DigitRunEnd(t, 2) == 6;
  }

  lemma ThirdLexeme()
    ensures IsFloatToken(NUMBER_TEST[12..19])
  {
    var t := NUMBER_TEST[12..19];
    assert DigitRunEnd(t, 0) == 1;
    assert DigitRunEnd(t, 3) == 4;
    assert DigitRunEnd(t, 2) == 4;
    assert DigitRunEnd(t, 6) == 7;
  }

  lemma SecondLexeme()
    ensures IsInt32(1234) && |IntText(1234)| == 4
    ensures At(NUMBER_TEST, 7, IntText(1234)) && Follows(NUMBER_TEST, 11)
  {
    assert IntText(1234) == [0x31, 0x32, 0x33, 0x34];
    assert NUMBER_TEST[7..11] == IntText(1234);
  }

  /** `0.1234` is not a 32-bit integer, so it is read as a floating-point
      number, stamped with its start. */
  lemma NumberTestFirst()
    ensures ReadToken(NUMBER_TEST, 0) == Success((Token(Number, Float(NUMBER_TEST[0..6]), 0), 6))
  {
    FirstLexeme();
    FloatRoundTrip(NUMBER_TEST, 0, NUMBER_TEST[0..6]);
  }

  /** `1234`, after one space, is read as an integer. */
  lemma NumberTestSecond()
    ensures ReadToken(NUMBER_TEST, 6) == Success((Token(Number, Int(1234), 7), 11))
  {
    SkipOne(NUMBER_TEST, 6);
    SecondLexeme();
    IntRoundTrip(NUMBER_TEST, 7, 1234);
  }

  /** `0.12e-5` is a floating-point number with an exponent. */
  lemma NumberTestThird()
    ensures ReadToken(NUMBER_TEST, 11) == Success((Token(Number, Float(NUMBER_TEST[12..19]), 12), 19))
  {
    var s := NUMBER_TEST;
    assert |s| == 19 && s[11] == SPACE;
    SkipOne(s, 11);
    ThirdLexeme();
    assert At(s, 12, s[12..19]) && Follows(s, 19);
    FloatRoundTrip(s, 12, s[12..19]);
  }

  const MALFORMED_NUMBER: Text := Ascii("12.12.12")

  lemma MalformedRun()
    ensures NumberRunEnd(MALFORMED_NUMBER, 0) == 8
  {
    var s := MALFORMED_NUMBER;
    assert NumberRunEnd(s, 4) == 8;
  }

  lemma MalformedLexeme()
    ensures !IsFloatLexeme(MALFORMED_NUMBER) && ParseInt32(MALFORMED_NUMBER).None?
  {
    var s := MALFORMED_NUMBER;
    assert DigitRunEnd(s, 3) == 5;
    assert DigitRunEnd(s, 0) == 2;
    assert !AllDigits(s);
  }

  /** `12.12.12` has two decimal points: neither an integer nor a
      floating-point number, so it is rejected at its start. */
  lemma MalformedNumber()
    ensures ReadToken(MALFORMED_NUMBER, 0) == Failure(JsonError(IncorrectNumberFormat, 0))
  {
    var s := MALFORMED_NUMBER;
    MalformedRun();
    MalformedLexeme();
    assert s[0..8] == s;
    ReadTokenHere(s, 0);
  }

  // The string test: "\"abc\\n\\u3042\"" reads as the five characters
  // a, b, c, line feed and U+3042.

  const STRING_TEST: Text := Ascii("\"abc\\n\\u3042\"")

  lemma StringTestEscapes()
    ensures StringChar(STRING_TEST, 6) == Success((0x3042, 12))
    ensures StringChar(STRING_TEST, 4) == Success((LF, 6))
  {
    var s := STRING_TEST;
    assert s[8] == 0x33 && s[9] == 0x30 && s[10] == 0x34 && s[11] == 0x32;
    assert s[8..12] == [0x33, 0x30, 0x34, 0x32];
  }

  lemma StringTestBody()
    ensures ReadStringBody(STRING_TEST, 0, 1) == Success(([0x61, 0x62, 0x63, LF, 0x3042], 13))
  {
    var s := STRING_TEST;
    StringTestEscapes();
    var r0: Text := [];
    assert ReadStringBody(s, 0, 12) == Success((r0, 13));
    ReadBodyStep(s, 0, 6, 0x3042, 12, r0, 13);
    var r1 := [0x3042] + r0;
    ReadBodyStep(s, 0, 4, LF, 6, r1, 13);
    var r2 := [LF] + r1;
    ReadBodyStep(s, 0, 3, 0x63, 4, r2, 13);
    var r3 := [0x63] + r2;
    ReadBodyStep(s, 0, 2, 0x62, 3, r3, 13);
    var r4 := [0x62] + r3;
    ReadBodyStep(s, 0, 1, 0x61, 2, r4, 13);
    assert [0x61] + r4 == [0x61, 0x62, 0x63, LF, 0x3042];
  }

  /** The escapes for line feed and U+3042 are replaced by the characters
      they stand for, and the token is stamped with its opening quote. */
  lemma StringTest()
    ensures ReadToken(STRING_TEST, 0) == Success((Token(String, Str([0x61, 0x62, 0x63, LF, 0x3042]), 0), 13))
  {
    StringTestBody();
    StringTokenHere(STRING_TEST, 0, [0x61, 0x62, 0x63, LF, 0x3042], 13);
  }

  /** `"unclosed string` has no closing quote. */
  lemma UnclosedStringTest()
    ensures ReadToken(Ascii("\"unclosed string"), 0) == Failure(JsonError(UnclosedString, 0))
  {
    var s := Ascii("\"unclosed string");
    UnclosedStringAt(s, 0, |s|);
  }

  /** A quote, a backslash and `uBADBAD`: the escape takes exactly the four
      hexadecimal digits `BADB`, and the string then runs into the end of the input. */
  lemma BadUnicodeTest()
    ensures ReadToken(Ascii("\"\\uBADBAD"), 0) == Failure(JsonError(UnclosedString, 0))
  {
    var s := Ascii("\"\\uBADBAD");
    assert AllHexDigits(s[3..7]);
    assert StringChar(s, 1).Success? && StringChar(s, 1).value.1 == 7;
    UnclosedBody(s, 0, 7, |s|);
    ReadTokenHere(s, 0);
  }

  // The keyword test: "[true,false,null,{}]".

  const KEYWORD_TEST: Text := Ascii("[true,false,null,{}]")

  /** `true`, `false` and `null` are keyword tokens, stamped with the
      offset after them. */
  lemma KeywordTestTrue()
    ensures ReadToken(KEYWORD_TEST, 1) == Success((Token(Boolean, Bool(true), 5), 5))
  {
    var s := KEYWORD_TEST;
    assert s[1] == LOWER_T && s[2] == LOWER_R && s[3] == LOWER_U && s[4] == LOWER_E;
    assert s[1..5] == TRUE_TEXT;
    ReadTokenHere(KEYWORD_TEST, 1);
  }

  lemma KeywordTestFalse()
    ensures ReadToken(KEYWORD_TEST, 6) == Success((Token(Boolean, Bool(false), 11), 11))
  {
    var s := KEYWORD_TEST;
    assert s[6] == LOWER_F && s[7] == 0x61 && s[8] == 0x6C && s[9] == 0x73 && s[10] == LOWER_E;
    assert s[6..11] == FALSE_TEXT;
    ReadTokenHere(KEYWORD_TEST, 6);
  }

  lemma KeywordTestNull()
    ensures ReadToken(KEYWORD_TEST, 12) == Success((Token(TokenKind.Null, Values.Null, 16), 16))
  {
    var s := KEYWORD_TEST;
    assert s[12] == LOWER_N && s[13] == LOWER_U && s[14] == 0x6C && s[15] == 0x6C;
    assert s[12..16] == NULL_TEXT;
    ReadTokenHere(KEYWORD_TEST, 12);
  }

  /** The separators and brackets of `[true,false,null,{}]`, each stamped
      with the offset after it, then the end. */
  lemma KeywordTestSeparators()
    ensures ReadToken(KEYWORD_TEST, 0) == Success((Token(LeftSquareBracket, Values.Null, 1), 1))
    ensures ReadToken(KEYWORD_TEST, 5) == Success((Token(Comma, Values.Null, 6), 6))
    ensures ReadToken(KEYWORD_TEST, 11) == Success((Token(Comma, Values.Null, 12), 12))
    ensures ReadToken(KEYWORD_TEST, 16) == Success((Token(Comma, Values.Null, 17), 17))
  {
    StructuralToken(KEYWORD_TEST, 0);
    StructuralToken(KEYWORD_TEST, 5);
    StructuralToken(KEYWORD_TEST, 11);
    StructuralToken(KEYWORD_TEST, 16);
  }

  lemma KeywordTestBrackets()
    ensures ReadToken(KEYWORD_TEST, 17) == Success((Token(LeftCurlyBracket, Values.Null, 18), 18))
    ensures ReadToken(KEYWORD_TEST, 18) == Success((Token(RightCurlyBracket, Values.Null, 19), 19))
    ensures ReadToken(KEYWORD_TEST, 19) == Success((Token(RightSquareBracket, Values.Null, 20), 20))
    ensures ReadToken(KEYWORD_TEST, 20) == Success((Token(End, Values.Null, 20), 20))
  {
    StructuralToken(KEYWORD_TEST, 17);
    StructuralToken(KEYWORD_TEST, 18);
    StructuralToken(KEYWORD_TEST, 19);
  }

  /** A keyword cut short by the end of input is an incorrect keyword, not an
      unexpected end of file. */
  lemma ShortKeyword()
    ensures ReadToken(Ascii("tru"), 0) == Failure(JsonError(IncorrectKeyword, 0))
  {
    var s := Ascii("tru");
    ReadTokenHere(s, 0);
  }

  /** A form feed is not white space: it is an unexpected character, reported
      at its own offset. */
  lemma FormFeedIsNotWhiteSpace()
    ensures ReadToken([SPACE, FORMFEED], 0) == Failure(JsonError(UnexpectedChar(FORMFEED), 1))
  {
    assert SkipWhiteSpace([SPACE, FORMFEED], 0) == 1;
  }
}
