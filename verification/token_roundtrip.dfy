/** What the tokenizer reads back from the encoder's output: one token per
    encoded primitive, carrying the original value. The escape table of the
    encoder is inverted by the unescape table of the tokenizer. */
module TokenRoundTrip {
  import opened Results
  import opened Chars
  import opened Values
  import opened Tokens
  import opened Errors
  import opened Tokenizer
  import opened Encoder

  /** `t` occurs in `s` at offset `p`. */
  predicate At(s: Text, p: nat, t: Text) {
    p + |t| <= |s| && s[p..p + |t|] == t
  }

  /** The character at `q`, if any, cannot extend a number run. */
  predicate Follows(s: Text, q: nat) {
    q >= |s| || !IsNumberChar(s[q])
  }

  /** A split of what occurs at `p` into `a` and `b`: `b` starts at `q`. */
  lemma AtSplit(s: Text, p: nat, a: Text, b: Text, q: nat)
    requires At(s, p, a + b) && q == p + |a|
    ensures At(s, p, a) && At(s, q, b)
  {
    assert s[p..q] == (a + b)[..|a|];
    assert s[q..q + |b|] == (a + b)[|a|..];
  }

  lemma AtIndex(s: Text, p: nat, t: Text, k: nat)
    requires At(s, p, t) && k < |t|
    ensures s[p + k] == t[k]
  {
    assert s[p..p + |t|][k] == t[k];
  }

  /** Every two-character escape the encoder writes is read back by the
      tokenizer's one-letter unescape table as the original character, and
      every six-character escape as `\u` and the four digits of its code. */
  lemma EscapeTableMirrorsUnescape(c: CodeUnit)
    ensures |EscapeChar(c)| == 2 ==> Unescape(EscapeChar(c)[1]) == Some(c)
    ensures |EscapeChar(c)| == 6 ==>
      && EscapeChar(c)[1] == LOWER_U && Unescape(LOWER_U).None?
      && AllHexDigits(EscapeChar(c)[2..6]) && Hex4Value(EscapeChar(c)[2..6]) == c
  {
    if |EscapeChar(c)| == 6 {
      assert EscapeChar(c)[2..6] == Hex4Lower(c);
    }
  }

  /** Conversely, every one-letter escape the tokenizer reads is the one the
      encoder writes for the character it stands for, except `\/`: the
      encoder writes `/` as itself. */
  lemma UnescapeInvertsEscape(c: CodeUnit, x: CodeUnit)
    requires Unescape(c) == Some(x)
    ensures c == SLASH ==> x == SLASH && EscapeChar(x) == [SLASH]
    ensures c != SLASH ==> EscapeChar(x) == [BACKSLASH, c]
  {
  }

  /** The escape the encoder writes for `c` is read back as `c`, and it
      starts with neither a quote nor a line break. */
  lemma ReadEscapedChar(s: Text, i: nat, c: CodeUnit, j: nat)
    requires At(s, i, EscapeChar(c)) && j == i + |EscapeChar(c)|
    ensures i < |s| && s[i] != QUOTE && s[i] != CR && s[i] != LF
    ensures StringChar(s, i) == Success((c, j))
  {
    var e := EscapeChar(c);
    AtIndex(s, i, e, 0);
    EscapeTableMirrorsUnescape(c);
    if |e| == 1 {
      assert j == i + 1;
    } else if |e| == 2 {
      AtIndex(s, i, e, 1);
      assert j == i + 1 + 1;
      assert ReadEscapeSequence(s, i + 1) == Success((c, i + 1 + 1));
    } else {
      AtIndex(s, i, e, 1);
      assert s[i + 2..i + 6] == e[2..6] by {
        assert s[i..i + 6] == e;
      }
      assert j == i + 1 + 5;
      assert ReadEscapeSequence(s, i + 1) == Success((c, i + 1 + 5));
    }
  }

  /** The escapes of a non-empty `x` are the escape of its first character,
      then the escapes of the rest. */
  lemma EscapedHead(s: Text, i: nat, x: Text, j: nat)
    requires |x| > 0 && At(s, i, EscapeText(x) + [QUOTE]) && j == i + |EscapeChar(x[0])|
    ensures At(s, i, EscapeChar(x[0]))
    ensures At(s, j, EscapeText(x[1..]) + [QUOTE])
    ensures |EscapeText(x)| == |EscapeChar(x[0])| + |EscapeText(x[1..])|
  {
    var e0, rest := EscapeChar(x[0]), EscapeText(x[1..]);
    assert EscapeText(x) + [QUOTE] == e0 + (rest + [QUOTE]);
    AtSplit(s, i, e0, rest + [QUOTE], j);
  }

  /** One step of the string reader: a character that is not a quote or a
      line break, read as `c`, followed by a body read as `rest`. */
  lemma ReadBodyStep(s: Text, start: nat, i: nat, c: CodeUnit, j: nat, rest: Text, k: nat)
    requires start < i < j <= |s| && s[i] != QUOTE && s[i] != CR && s[i] != LF
    requires StringChar(s, i) == Success((c, j))
    requires ReadStringBody(s, start, j) == Success((rest, k))
    ensures ReadStringBody(s, start, i) == Success(([c] + rest, k))
  {
  }

  /** The escapes of `x`, one character at a time, and then a closing quote
      occur in `s` from offset `i` on. */
  predicate EscapesAt(s: Text, i: nat, x: Text)
    decreases |x|
  {
    if |x| == 0 then i < |s| && s[i] == QUOTE
    else At(s, i, EscapeChar(x[0])) && EscapesAt(s, i + |EscapeChar(x[0])|, x[1..])
  }

  /** The offset just after the closing quote, when the escapes of `x` start
      at `i`. */
  function EscapedEnd(i: nat, x: Text): nat
    decreases |x|
  {
    if |x| == 0 then i + 1 else EscapedEnd(i + |EscapeChar(x[0])|, x[1..])
  }

  /** Reading the escapes of `x` and a closing quote gives back `x`. */
  lemma {:induction false} ReadEscapedText(s: Text, start: nat, i: nat, x: Text)
    requires start < i && EscapesAt(s, i, x)
    ensures i < EscapedEnd(i, x) <= |s|
    ensures ReadStringBody(s, start, i) == Success((x, EscapedEnd(i, x)))
    decreases |x|
  {
    if |x| == 0 {
      assert x == [];
    } else {
      var j := i + |EscapeChar(x[0])|;
      ReadEscapedText(s, start, j, x[1..]);
      ReadEscapedChar(s, i, x[0], j);
      ReadBodyStep(s, start, i, x[0], j, x[1..], EscapedEnd(j, x[1..]));
      assert [x[0]] + x[1..] == x;
    }
  }

  /** The escaped text of `x` followed by a quote is the escapes of `x`, one
      character at a time, ending right after the quote. */
  lemma {:induction false} EscapesAtText(s: Text, i: nat, x: Text)
    requires At(s, i, EscapeText(x) + [QUOTE])
    ensures EscapesAt(s, i, x)
    ensures EscapedEnd(i, x) == i + |EscapeText(x)| + 1
    decreases |x|
  {
    if |x| == 0 {
      assert EscapeText(x) + [QUOTE] == [QUOTE];
      AtIndex(s, i, [QUOTE], 0);
    } else {
      var j := i + |EscapeChar(x[0])|;
      EscapedHead(s, i, x, j);
      EscapesAtText(s, j, x[1..]);
    }
  }

  /** At a character that is not white space, reading a token starts right
      there. */
  lemma ReadTokenHere(s: Text, p: nat)
    requires p < |s| && !IsWhiteSpace(s[p])
    ensures ReadToken(s, p) == TokenAt(s, p)
  {
    assert SkipWhiteSpace(s, p) == p;
  }

  /** A quote starts a string token holding the body read after it. */
  lemma StringTokenHere(s: Text, p: nat, x: Text, q: nat)
    requires p < |s| && s[p] == QUOTE
    requires p + 1 < q <= |s| && ReadStringBody(s, p, p + 1) == Success((x, q))
    ensures ReadToken(s, p) == Success((Token(String, Str(x), p), q))
  {
    ReadTokenHere(s, p);
    assert ReadString(s, p) == Success((Token(String, Str(x), p), q));
  }

  /** The encoding of `x` at `p` is a quote, then the escapes of `x` and a
      quote. */
  lemma EncodedStringParts(s: Text, p: nat, x: Text)
    requires At(s, p, EncodeString(x))
    ensures p < |s| && s[p] == QUOTE && p + 1 < p + |EncodeString(x)| <= |s|
    ensures At(s, p + 1, EscapeText(x) + [QUOTE])
    ensures |EncodeString(x)| == |EscapeText(x)| + 2
  {
    var e := EncodeString(x);
    assert s[p..p + |e|][0] == e[0];
    assert e[1..] == EscapeText(x) + [QUOTE];
    assert s[p + 1..p + |e|] == s[p..p + |e|][1..];
  }

  /** The escapes of an encoded string end right after its closing quote. */
  lemma EncodedEscapes(s: Text, p: nat, x: Text)
    requires At(s, p, EncodeString(x))
    ensures EscapesAt(s, p + 1, x) && EscapedEnd(p + 1, x) == p + |EncodeString(x)|
  {
    EncodedStringParts(s, p, x);
    EscapesAtText(s, p + 1, x);
  }

  /** The body after the opening quote of an encoded string reads back as
      the original string and ends at `q`, right after the closing quote. */
  lemma EncodedBodyReads(s: Text, p: nat, x: Text, q: nat)
    requires At(s, p, EncodeString(x)) && q == p + |EncodeString(x)|
    ensures ReadStringBody(s, p, p + 1) == Success((x, q))
  {
    EncodedEscapes(s, p, x);
    ReadEscapedText(s, p, p + 1, x);
  }

  /** The string token read at an encoded string ends at `q`. */
  lemma EncodedStringToken(s: Text, p: nat, x: Text, q: nat)
    requires At(s, p, EncodeString(x)) && q == p + |EncodeString(x)|
    ensures ReadToken(s, p) == Success((Token(String, Str(x), p), q))
  {
    EncodedStringParts(s, p, x);
    EncodedBodyReads(s, p, x, q);
    StringTokenHere(s, p, x, q);
  }

  /** Tokenizing an encoded string gives back one string token holding exactly
      the original string, stamped with the offset of its opening quote, and
      consumes exactly the encoding. */
  lemma StringRoundTrip(s: Text, p: nat, x: Text)
    requires At(s, p, EncodeString(x))
    ensures ReadToken(s, p) == Success((Token(String, Str(x), p), p + |EncodeString(x)|))
  {
    EncodedStringToken(s, p, x, p + |EncodeString(x)|);
  }

  /** `int.TryParse` reads back what `Int64.ToString()` writes, for every
      32-bit integer. */
  lemma ParseIntText(i: int)
    requires IsInt32(i)
    ensures ParseInt32(IntText(i)) == Some(i)
  {
    var t := IntText(i);
    if i < 0 {
      assert t[1..] == DecimalText(-i);
      DecimalRoundTrip(-i);
    } else {
      DecimalRoundTrip(i);
    }
  }

  /** The number run starting at `p` ends at `q` when every character in
      between is a number character and the one at `q` is not. */
  lemma NumberRunIs(s: Text, p: nat, q: nat)
    requires p <= q <= |s| && Follows(s, q)
    requires forall k | p <= k < q :: IsNumberChar(s[k])
    ensures NumberRunEnd(s, p) == q
  {
  }

  /** Tokenizing an encoded 32-bit integer, followed by a character that cannot
      extend a number, gives back one integer token stamped with its start. */
  lemma IntRoundTrip(s: Text, p: nat, i: int)
    requires IsInt32(i) && At(s, p, IntText(i)) && Follows(s, p + |IntText(i)|)
    ensures ReadToken(s, p) == Success((Token(Number, Int(i), p), p + |IntText(i)|))
  {
    var t := IntText(i);
    var q := p + |t|;
    assert s[p..q] == t;
    forall k | p <= k < q ensures IsNumberChar(s[k]) {
      AtIndex(s, p, t, k - p);
      if i < 0 && k > p {
        assert t[k - p] == DecimalText(-i)[k - p - 1];
      }
    }
    NumberRunIs(s, p, q);
    ParseIntText(i);
    AtIndex(s, p, t, 0);
    ReadTokenHere(s, p);
  }

  /** A floating-point lexeme the tokenizer reads back as itself: it starts a
      number token, `double.TryParse` accepts it and `int.TryParse` does not. */
  predicate IsFloatToken(lexeme: Text) {
    |lexeme| > 0 && StartsNumber(lexeme[0]) && IsFloatLexeme(lexeme) && ParseInt32(lexeme).None?
  }

  /** Every character of an accepted floating-point lexeme is a number
      character, so the number run covers it. */
  lemma FloatLexemeChars(t: Text)
    requires IsFloatLexeme(t)
    ensures forall k | 0 <= k < |t| :: IsNumberChar(t[k])
  {
    var i0 := if |t| > 0 && (t[0] == PLUS || t[0] == MINUS) then 1 else 0;
    var i1 := DigitRunEnd(t, i0);
    var i2 := if i1 < |t| && t[i1] == DOT then DigitRunEnd(t, i1 + 1) else i1;
    if i2 < |t| {
      var j := i2 + 1;
      var j1 := if j < |t| && (t[j] == PLUS || t[j] == MINUS) then j + 1 else j;
      assert DigitRunEnd(t, j1) == |t|;
    }
  }

  /** Tokenizing a floating-point lexeme, followed by a character that cannot
      extend a number, gives back one floating-point token with that lexeme. */
  lemma FloatRoundTrip(s: Text, p: nat, lexeme: Text)
    requires IsFloatToken(lexeme) && At(s, p, lexeme) && Follows(s, p + |lexeme|)
    ensures ReadToken(s, p) == Success((Token(Number, Float(lexeme), p), p + |lexeme|))
  {
    var q := p + |lexeme|;
    FloatLexemeChars(lexeme);
    forall k | p <= k < q ensures IsNumberChar(s[k]) {
      AtIndex(s, p, lexeme, k - p);
    }
    NumberRunIs(s, p, q);
    AtIndex(s, p, lexeme, 0);
    ReadTokenHere(s, p);
  }

  /** Tokenizing `true` or `false` gives back the boolean, stamped with the
      offset after the keyword. */
  lemma BoolRoundTrip(s: Text, p: nat, b: bool)
    requires At(s, p, Encode(Bool(b)))
    ensures ReadToken(s, p) == Success((Token(Boolean, Bool(b), p + |Encode(Bool(b))|), p + |Encode(Bool(b))|))
  {
    AtIndex(s, p, Encode(Bool(b)), 0);
    ReadTokenHere(s, p);
  }

  /** Tokenizing `null` gives back a null token, stamped after the keyword. */
  lemma NullRoundTrip(s: Text, p: nat)
    requires At(s, p, NULL_TEXT)
    ensures ReadToken(s, p) == Success((Token(TokenKind.Null, Values.Null, p + 4), p + 4))
  {
    AtIndex(s, p, NULL_TEXT, 0);
    ReadTokenHere(s, p);
  }

  /** Each structural character consumes exactly itself and is stamped with
      the offset after it. */
  lemma StructuralToken(s: Text, p: nat)
    requires p < |s| && StructuralKind(s[p]).Some?
    ensures ReadToken(s, p) == Success((Token(StructuralKind(s[p]).value, Values.Null, p + 1), p + 1))
  {
    assert s[p] != QUOTE && !StartsNumber(s[p]) && !IsWhiteSpace(s[p]);
    ReadTokenHere(s, p);
  }
}
