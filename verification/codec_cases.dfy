/** `Json.Decode` with the collection mapper on small documents that show how
    the decoder and the mapper interact: a trailing comma is accepted, a key
    set twice is the mapper's error rather than a syntax error, and content
    after the document is a syntax error. */
module CodecCases {
  import opened Results
  import opened Chars
  import opened Values
  import opened Tokens
  import opened Errors
  import opened ObjectMapper
  import opened Tokenizer
  import opened Encoder
  import opened Decoder
  import CollectionMapper
  import opened TokenRoundTrip
  import opened BuildRoundTrip
  import opened DecoderFacts
  import opened TokenizerFacts
  import opened TokenWalk
  import opened EncoderFacts
  import opened Codec

  // `[1,]`: an array with a trailing comma.

  const TRAILING_COMMA: Text := Ascii("[1,]")

  lemma TrailingCommaTokens()
    ensures TokenReader(TRAILING_COMMA)(0) == Success((Token(LeftSquareBracket, Values.Null, 1), 1))
    ensures TokenReader(TRAILING_COMMA)(1) == Success((Token(Number, Int(1), 1), 2))
    ensures TokenReader(TRAILING_COMMA)(2) == Success((Token(Comma, Values.Null, 3), 3))
    ensures TokenReader(TRAILING_COMMA)(3) == Success((Token(RightSquareBracket, Values.Null, 4), 4))
    ensures TokenReader(TRAILING_COMMA)(4) == Success((Token(End, Values.Null, 4), 4))
  {
    var s := TRAILING_COMMA;
    StructuralToken(s, 0);
    assert IntText(1) == [0x31];
    IntRoundTrip(s, 1, 1);
    StructuralToken(s, 2);
    StructuralToken(s, 3);
    EndOfInput(s, 4);
  }

  lemma TrailingCommaDecodes()
    ensures DecodeText(TRAILING_COMMA)
         == Ok(Obj(0), Decoder(4, [CreateArray(None, None), AddElement(0, Lit(Int(1)))], None, None))
  {
    TrailingCommaTokens();
    var read := TokenReader(TRAILING_COMMA);
    TokenReaderValid(TRAILING_COMMA);
    var inner := Decoder(1, [CreateArray(None, None)], Some(0), None);
    ArrayTrailingComma(read, 4, inner.(cur := 1), 0, Token(Number, Int(1), 1), 2, Lit(Int(1)), inner.(cur := 2), 3, 4);
    assert DecodeElement(read, 4, START.(cur := 1), read(0).value.0)
        == Ok(Obj(0), START.(cur := 4, trace := [CreateArray(None, None), AddElement(0, Lit(Int(1)))]));
  }

  /** `[1,]` decodes to the list holding 1: the comma before `]` is
      accepted. */
  lemma TrailingCommaInArray()
    ensures Decode(TRAILING_COMMA) == Success(List([Int(1)]))
  {
    TrailingCommaDecodes();
    TrailingCommaHeap();
  }

  lemma TrailingCommaHeap()
    ensures HeapOf([CreateArray(None, None), AddElement(0, Lit(Int(1)))]) == Success(map[0 := List([Int(1)])])
  {
    ReplaySnoc([], CreateArray(None, None));
    assert [] + [CreateArray(None, None)] == [CreateArray(None, None)];
    var heap: CollectionMapper.Heap := map[0 := List([])];
    assert HeapOf([CreateArray(None, None)]) == Success(heap);
    ReplaySnoc([CreateArray(None, None)], AddElement(0, Lit(Int(1))));
    assert [CreateArray(None, None)] + [AddElement(0, Lit(Int(1)))] == [CreateArray(None, None), AddElement(0, Lit(Int(1)))];
    assert heap[0].items + [Int(1)] == [Int(1)];
    assert heap[0 := List([Int(1)])] == map[0 := List([Int(1)])];
    assert CollectionMapper.AddElement(heap, 0, Lit(Int(1))) == Success(map[0 := List([Int(1)])]);
    assert CollectionMapper.Apply(heap, 1, AddElement(0, Lit(Int(1)))) == Success(map[0 := List([Int(1)])]);
  }

  // `{"a":1,"a":2}`: an object that sets the same key twice.

  const DUPLICATE_KEY: Text := Ascii("{\"a\":1,\"a\":2}")

  /** The key `a`. */
  const KEY_A: Text := [0x61]

  lemma KeyAToken(p: nat)
    requires p == 1 || p == 7
    ensures TokenReader(DUPLICATE_KEY)(p) == Success((Token(String, Str(KEY_A), p), p + 3))
  {
    assert EncodeString(KEY_A) == [QUOTE, 0x61, QUOTE];
    var s := DUPLICATE_KEY;
    assert s[p] == QUOTE && s[p + 1] == 0x61 && s[p + 2] == QUOTE by {
      if p == 1 {
        assert s[1] == QUOTE && s[2] == 0x61 && s[3] == QUOTE;
      } else {
        assert s[7] == QUOTE && s[8] == 0x61 && s[9] == QUOTE;
      }
    }
    assert s[p..p + 3] == EncodeString(KEY_A);
    StringRoundTrip(DUPLICATE_KEY, p, KEY_A);
  }

  lemma IntToken(p: nat, i: int)
    requires (p == 5 && i == 1) || (p == 11 && i == 2)
    ensures TokenReader(DUPLICATE_KEY)(p) == Success((Token(Number, Int(i), p), p + 1))
  {
    var s := DUPLICATE_KEY;
    assert IntText(i) == [0x30 + i];
    assert s[p] == 0x30 + i by {
      if p == 5 {
        assert s[5] == 0x31;
      } else {
        assert s[11] == 0x32;
      }
    }
    assert s[p..p + 1] == IntText(i);
    IntRoundTrip(s, p, i);
  }

  lemma DuplicateKeyTokens()
    ensures TokenReader(DUPLICATE_KEY)(0) == Success((Token(LeftCurlyBracket, Values.Null, 1), 1))
    ensures Reads(TokenReader(DUPLICATE_KEY), 4, Colon, 5)
    ensures Reads(TokenReader(DUPLICATE_KEY), 6, Comma, 7)
    ensures Reads(TokenReader(DUPLICATE_KEY), 10, Colon, 11)
    ensures Reads(TokenReader(DUPLICATE_KEY), 12, RightCurlyBracket, 13)
  {
    var s := DUPLICATE_KEY;
    StructuralToken(s, 0);
    StructuralToken(s, 4);
    StructuralToken(s, 6);
    StructuralToken(s, 10);
    StructuralToken(s, 12);
  }

  /** The trace `{"a":1,"a":2}` issues: the object, then both entries. */
  function DuplicateKeyTrace(): seq<Event> {
    [CreateObject(None, None),
     SetProperty(Some(0), Some(KEY_A), Lit(Int(1))),
     SetProperty(Some(0), Some(KEY_A), Lit(Int(2)))]
  }

  lemma DuplicateKeyMembers()
    ensures ValidReader(TokenReader(DUPLICATE_KEY), 13)
    ensures ObjectMembers(TokenReader(DUPLICATE_KEY), 13, Decoder(1, [CreateObject(None, None)], Some(0), None))
         == Ok((), Decoder(13, DuplicateKeyTrace(), Some(0), Some(KEY_A)))
  {
    var read := TokenReader(DUPLICATE_KEY);
    TokenReaderValid(DUPLICATE_KEY);
    DuplicateKeyTokens();
    KeyAToken(1);
    KeyAToken(7);
    IntToken(5, 1);
    IntToken(11, 2);
    var tr := DuplicateKeyTrace();
    var d3 := Decoder(6, tr[..2], Some(0), Some(KEY_A));
    assert d3.trace + [SetProperty(Some(0), Some(KEY_A), Lit(Int(2)))] == tr;
    assert ObjectMembers(read, 13, d3.(cur := 7)) == Ok((), Decoder(13, tr, Some(0), Some(KEY_A)));
    assert [CreateObject(None, None)] + [SetProperty(Some(0), Some(KEY_A), Lit(Int(1)))] == tr[..2];
  }

  lemma DuplicateKeyElement()
    ensures ValidReader(TokenReader(DUPLICATE_KEY), 13)
    ensures DecodeElement(TokenReader(DUPLICATE_KEY), 13, START.(cur := 1), Token(LeftCurlyBracket, Values.Null, 1))
         == Ok(Obj(0), Decoder(13, DuplicateKeyTrace(), None, None))
  {
    TokenReaderValid(DUPLICATE_KEY);
    DuplicateKeyMembers();
    var d := START.(cur := 1);
    assert d.trace + [CreateObject(d.target, d.name)] == [CreateObject(None, None)];
    assert DecodeObject(TokenReader(DUPLICATE_KEY), 13, d) == Ok(Obj(0), Decoder(13, DuplicateKeyTrace(), None, None));
  }

  lemma DuplicateKeyDecodes()
    ensures DecodeText(DUPLICATE_KEY) == Ok(Obj(0), Decoder(13, DuplicateKeyTrace(), None, None))
  {
    DuplicateKeyTokens();
    DuplicateKeyElement();
    EndOfInput(DUPLICATE_KEY, 13);
    assert DecodeDocument(TokenReader(DUPLICATE_KEY), 13) == Ok(Obj(0), Decoder(13, DuplicateKeyTrace(), None, None));
  }

  lemma DuplicateKeyHeap()
    ensures HeapOf(DuplicateKeyTrace()) == Failure(CollectionMapper.DuplicateKey(KEY_A))
  {
    var tr := DuplicateKeyTrace();
    ReplaySnoc([], tr[0]);
    assert [] + [tr[0]] == tr[..1];
    assert HeapOf(tr[..1]) == Success(map[0 := Table([])]);
    ReplaySnoc(tr[..1], tr[1]);
    assert tr[..1] + [tr[1]] == tr[..2];
    var heap: CollectionMapper.Heap := map[0 := Table([])];
    assert tr[1] == SetProperty(Some(0), Some(KEY_A), Lit(Int(1)));
    assert !HasKey(heap[0].entries, KEY_A);
    assert heap[0].entries + [(KEY_A, Int(1))] == [(KEY_A, Int(1))];
    assert heap[0 := Table([(KEY_A, Int(1))])] == map[0 := Table([(KEY_A, Int(1))])];
    assert CollectionMapper.SetProperty(heap, Some(0), Some(KEY_A), Lit(Int(1))) == Success(map[0 := Table([(KEY_A, Int(1))])]);
    assert HeapOf(tr[..2]) == Success(map[0 := Table([(KEY_A, Int(1))])]);
    ReplaySnoc(tr[..2], tr[2]);
    assert tr[..2] + [tr[2]] == tr;
    assert [(KEY_A, Int(1))][0].0 == KEY_A;
  }

  /** `{"a":1,"a":2}` is well formed, but the mapper refuses to set `a` a
      second time: decoding fails with the mapper's duplicate-key error. */
  lemma DuplicateKeyRejected()
    ensures Decode(DUPLICATE_KEY) == Failure(Mapping(CollectionMapper.DuplicateKey(KEY_A)))
  {
    DuplicateKeyDecodes();
    DuplicateKeyHeap();
  }

  // `1 2`: a second value after the document.

  const TWO_VALUES: Text := Ascii("1 2")

  /** `1 2` is a syntax error reported at the cursor after `2`, before any
      mapper call. */
  lemma TrailingValue()
    ensures Decode(TWO_VALUES) == Failure(Syntax(JsonError(SyntaxError, 3)))
  {
    var s := TWO_VALUES;
    var read := TokenReader(s);
    TokenReaderValid(s);
    assert IntText(1) == [0x31] && IntText(2) == [0x32];
    IntRoundTrip(s, 0, 1);
    IntRoundTrip(s, 2, 2);
    assert ReadToken(s, 1) == ReadToken(s, 2);
    TrailingContent(read, 3, Token(Number, Int(1), 0), 1, Lit(Int(1)), START.(cur := 1), Token(Number, Int(2), 2), 3);
    assert HeapOf([]) == Success(map[]);
  }

  // The decoder's unit tests, obtained from the encoder's output through the
  // round trip.

  /** `0.12` decodes to the floating-point number it spells. */
  lemma DecodeFloatTest()
    ensures Decode(Ascii("0.12")) == Success(Float(Ascii("0.12")))
  {
    var t := Ascii("0.12");
    assert DigitRunEnd(t, 0) == 1;
    assert DigitRunEnd(t, 2) == 4;
    assert Decodable(Float(t));
    DecodeEncode(Float(t));
  }

  /** `1234` decodes to the integer 1234. */
  lemma DecodeIntTest()
    ensures Decode(Ascii("1234")) == Success(Int(1234))
  {
    EncodeInt();
    DecodeEncode(Int(1234));
  }

  /** `true`, `false` and `null` decode to themselves. */
  lemma DecodeTrueTest()
    ensures Decode(Ascii("true")) == Success(Bool(true))
  {
    EncodeKeywords();
    DecodeEncode(Bool(true));
  }

  lemma DecodeFalseTest()
    ensures Decode(Ascii("false")) == Success(Bool(false))
  {
    EncodeKeywords();
    DecodeEncode(Bool(false));
  }

  lemma DecodeNullTest()
    ensures Decode(Ascii("null")) == Success(Values.Null)
  {
    EncodeKeywords();
    DecodeEncode(Values.Null);
  }

  const XYZ_TEST: Text := Ascii("\"xyz\\t\\u1234\"")

  lemma XyzEncoded()
    ensures Encode(Str([0x78, 0x79, 0x7A, TAB, 0x1234])) == XYZ_TEST
  {
    assert [0x78, 0x79, 0x7A] + [TAB, 0x1234] == [0x78, 0x79, 0x7A, TAB, 0x1234];
    PlainThenEscapes([0x78, 0x79, 0x7A]);
  }

  /** The escaped string `xyz`, `\t`, `\u1234` decodes to `xyz`, a tab and
      U+1234. */
  lemma DecodeStringTest()
    ensures Decode(XYZ_TEST) == Success(Str([0x78, 0x79, 0x7A, TAB, 0x1234]))
  {
    XyzEncoded();
    DecodeEncode(Str([0x78, 0x79, 0x7A, TAB, 0x1234]));
  }

  /** `[0,1,2,3]` decodes to the list of those integers. */
  lemma DecodeIntListTest()
    ensures Decode(Ascii("[0,1,2,3]")) == Success(List([Int(0), Int(1), Int(2), Int(3)]))
  {
    EncodeIntList();
    DecodeEncode(List([Int(0), Int(1), Int(2), Int(3)]));
  }
}
