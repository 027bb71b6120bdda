/** The decoder's grammar on any tokenizer, stated on the tokens it reads:
    which comma placements it accepts, what it reports when a token is out
    of place, and the context in which it asks the mapper to create a
    container. */
module DecoderFacts {
  import opened Results
  import opened Chars
  import opened Values
  import opened Tokens
  import opened Errors
  import opened ObjectMapper
  import opened Decoder

  /** The token read at `p` has kind `kind` and the cursor after it is `q`. */
  predicate Reads(read: Reader, p: nat, kind: TokenKind, q: nat) {
    read(p).Success? && read(p).value.0.kind == kind && read(p).value.1 == q
  }

  /** `[` value `,` `]`: after any element, decoded by whatever its first
      token opens, a single trailing comma before the closing bracket is
      accepted, and the element is appended once, after everything its
      decoding asked of the mapper. */
  lemma ArrayTrailingComma(read: Reader, n: nat, d: Decoder, list: Handle, tok: Token, p1: nat,
                           value: Elem, d2: Decoder, p2: nat, p3: nat)
    requires ValidReader(read, n) && d.cur <= n
    requires read(d.cur) == Success((tok, p1)) && tok.kind != RightSquareBracket
    requires DecodeElement(read, n, d.(cur := p1), tok) == Ok(value, d2)
    requires Reads(read, d2.cur, Comma, p2) && Reads(read, p2, RightSquareBracket, p3)
    ensures ArrayElements(read, n, d, list) == Ok((), d2.(cur := p3, trace := d2.trace + [AddElement(list, value)]))
  {
    var d3 := d2.(trace := d2.trace + [AddElement(list, value)]);
    assert ArrayElements(read, n, d3.(cur := p2), list) == Ok((), d3.(cur := p3));
  }

  /** `[]`: a `]` where the first element is expected ends the array with
      no mapper call. */
  lemma ArrayEmpty(read: Reader, n: nat, d: Decoder, list: Handle, tok: Token, p1: nat)
    requires ValidReader(read, n) && d.cur <= n
    requires read(d.cur) == Success((tok, p1)) && tok.kind == RightSquareBracket
    ensures ArrayElements(read, n, d, list) == Ok((), d.(cur := p1))
  {
  }

  /** `[` `,`: a comma where the first element is expected is an unexpected
      token, reported at the comma, before any mapper call for the array's
      elements. */
  lemma ArrayLeadingComma(read: Reader, n: nat, d: Decoder, list: Handle, tok: Token, p1: nat)
    requires ValidReader(read, n) && d.cur <= n
    requires read(d.cur) == Success((tok, p1)) && tok.kind == Comma
    ensures ArrayElements(read, n, d, list) == Stop(JsonError(UnexpectedToken, tok.pos), d.trace)
  {
  }

  /** `[` value `,` `,`: a second comma where an element is expected is an
      unexpected token, reported at that comma, after the element before it,
      whatever it was, has been appended. */
  lemma ArrayDoubledComma(read: Reader, n: nat, d: Decoder, list: Handle, tok: Token, p1: nat,
                          value: Elem, d2: Decoder, p2: nat, comma: Token, p3: nat)
    requires ValidReader(read, n) && d.cur <= n
    requires read(d.cur) == Success((tok, p1)) && tok.kind != RightSquareBracket
    requires DecodeElement(read, n, d.(cur := p1), tok) == Ok(value, d2)
    requires Reads(read, d2.cur, Comma, p2) && read(p2) == Success((comma, p3)) && comma.kind == Comma
    ensures ArrayElements(read, n, d, list)
         == Stop(JsonError(UnexpectedToken, comma.pos), d2.trace + [AddElement(list, value)])
  {
    var d3 := d2.(trace := d2.trace + [AddElement(list, value)]);
    assert ArrayElements(read, n, d3.(cur := p2), list) == Stop(JsonError(UnexpectedToken, comma.pos), d3.trace);
  }

  /** After any element, anything but `,` or `]` is reported at that token,
      after the element has been appended. */
  lemma ArrayMissingSeparator(read: Reader, n: nat, d: Decoder, list: Handle, tok: Token, p1: nat,
                              value: Elem, d2: Decoder, sep: Token, p2: nat)
    requires ValidReader(read, n) && d.cur <= n
    requires read(d.cur) == Success((tok, p1)) && tok.kind != RightSquareBracket
    requires DecodeElement(read, n, d.(cur := p1), tok) == Ok(value, d2)
    requires read(d2.cur) == Success((sep, p2)) && sep.kind != Comma && sep.kind != RightSquareBracket
    ensures ArrayElements(read, n, d, list)
         == Stop(JsonError(CommaOrBracketExpected, sep.pos), d2.trace + [AddElement(list, value)])
  {
  }

  /** `{` key `:` value `,` `}`: after any value, a single trailing comma
      before the closing brace is accepted, and the entry is set once, under
      its key, on the enclosing object, after everything the value's
      decoding asked of the mapper. */
  lemma ObjectTrailingComma(read: Reader, n: nat, d: Decoder, key: Token, p1: nat, p2: nat, tok: Token, p3: nat,
                            value: Elem, d2: Decoder, p4: nat, p5: nat)
    requires ValidReader(read, n) && d.cur <= n
    requires read(d.cur) == Success((key, p1)) && key.kind == String && key.value.Str?
    requires Reads(read, p1, Colon, p2) && read(p2) == Success((tok, p3))
    requires DecodeElement(read, n, d.(cur := p3, name := Some(key.value.s)), tok) == Ok(value, d2)
    requires Reads(read, d2.cur, Comma, p4) && Reads(read, p4, RightCurlyBracket, p5)
    ensures ObjectMembers(read, n, d)
         == Ok((), d2.(cur := p5, trace := d2.trace + [SetProperty(d.target, Some(key.value.s), value)]))
    ensures d2.name == Some(key.value.s)
  {
    var d3 := d2.(trace := d2.trace + [SetProperty(d.target, Some(key.value.s), value)]);
    assert ObjectMembers(read, n, d3.(cur := p4)) == Ok((), d3.(cur := p5));
  }

  /** Where a key is expected, any token but a string or `}` is reported as
      a key that is not a string, at that token; a leading comma `{,` is one
      such token. */
  lemma ObjectKeyNotString(read: Reader, n: nat, d: Decoder, tok: Token, p1: nat)
    requires ValidReader(read, n) && d.cur <= n
    requires read(d.cur) == Success((tok, p1)) && tok.kind != String && tok.kind != RightCurlyBracket
    ensures ObjectMembers(read, n, d) == Stop(JsonError(KeysMustBeStrings, tok.pos), d.trace)
  {
  }

  /** `{}`: a `}` where the first key is expected ends the object with no
      mapper call. */
  lemma ObjectEmpty(read: Reader, n: nat, d: Decoder, tok: Token, p1: nat)
    requires ValidReader(read, n) && d.cur <= n
    requires read(d.cur) == Success((tok, p1)) && tok.kind == RightCurlyBracket
    ensures ObjectMembers(read, n, d) == Ok((), d.(cur := p1))
  {
  }

  /** A key followed by anything but `:` is reported at that token. */
  lemma ObjectMissingColon(read: Reader, n: nat, d: Decoder, key: Token, p1: nat, tok: Token, p2: nat)
    requires ValidReader(read, n) && d.cur <= n
    requires read(d.cur) == Success((key, p1)) && key.kind == String
    requires read(p1) == Success((tok, p2)) && tok.kind != Colon
    ensures ObjectMembers(read, n, d) == Stop(JsonError(ColonExpected, tok.pos), d.trace)
  {
  }

  /** After any member's value, anything but `,` or `}` is reported at that
      token, after the entry has been set. */
  lemma ObjectMissingSeparator(read: Reader, n: nat, d: Decoder, key: Token, p1: nat, p2: nat, tok: Token, p3: nat,
                               value: Elem, d2: Decoder, sep: Token, p4: nat)
    requires ValidReader(read, n) && d.cur <= n
    requires read(d.cur) == Success((key, p1)) && key.kind == String && key.value.Str?
    requires Reads(read, p1, Colon, p2) && read(p2) == Success((tok, p3))
    requires DecodeElement(read, n, d.(cur := p3, name := Some(key.value.s)), tok) == Ok(value, d2)
    requires read(d2.cur) == Success((sep, p4)) && sep.kind != Comma && sep.kind != RightCurlyBracket
    ensures ObjectMembers(read, n, d)
         == Stop(JsonError(CommaOrBraceExpected, sep.pos),
                 d2.trace + [SetProperty(d.target, Some(key.value.s), value)])
  {
  }

  /** A document whose top-level element, whatever it is, is followed by a
      token other than the end is a syntax error, reported at the cursor
      after that token, with the element's mapper calls kept. */
  lemma TrailingContent(read: Reader, n: nat, tok: Token, p: nat, value: Elem, d: Decoder, last: Token, q: nat)
    requires ValidReader(read, n)
    requires read(0) == Success((tok, p))
    requires DecodeElement(read, n, START.(cur := p), tok) == Ok(value, d)
    requires read(d.cur) == Success((last, q)) && last.kind != End
    ensures DecodeDocument(read, n) == Stop(JsonError(SyntaxError, q), d.trace)
  {
  }

  /** The container for the document's root is created with no target and
      no property name, before anything else. */
  lemma RootContext(read: Reader, n: nat, tok: Token, p: nat)
    requires ValidReader(read, n)
    requires read(0) == Success((tok, p)) && Opens(tok.kind)
    ensures |DecodeDocument(read, n).Trace()| > 0
    ensures DecodeDocument(read, n).Trace()[0]
         == (if tok.kind == LeftCurlyBracket then CreateObject(None, None) else CreateArray(None, None))
  {
    var r := DecodeElement(read, n, START.(cur := p), tok);
    assert r.Trace() <= DecodeDocument(read, n).Trace();
  }

  /** A container that is a member's value is created with the enclosing
      object as target and the member's key as property name. */
  lemma MemberContext(read: Reader, n: nat, d: Decoder, key: Token, p1: nat, p2: nat, tok: Token, p3: nat)
    requires ValidReader(read, n) && d.cur <= n
    requires read(d.cur) == Success((key, p1)) && key.kind == String && key.value.Str?
    requires Reads(read, p1, Colon, p2) && read(p2) == Success((tok, p3)) && Opens(tok.kind)
    ensures |ObjectMembers(read, n, d).Trace()| > |d.trace|
    ensures ObjectMembers(read, n, d).Trace()[|d.trace|]
         == (if tok.kind == LeftCurlyBracket then CreateObject(d.target, Some(key.value.s))
             else CreateArray(d.target, Some(key.value.s)))
  {
    var d1 := d.(cur := p3, name := Some(key.value.s));
    var r := DecodeElement(read, n, d1, tok);
    if r.Ok? {
      var d3 := r.d.(trace := r.d.trace + [SetProperty(r.d.target, r.d.name, r.value)]);
      assert r.Trace() <= d3.trace;
      assert d3.trace <= ObjectMembers(read, n, d).Trace();
    }
  }

  /** A container that is an element of an array, at any position, is
      created with the array as target and no property name: `DecodeArray`
      sets that context for its elements and every element read keeps it. */
  lemma ElementContext(read: Reader, n: nat, d: Decoder, list: Handle, tok: Token, p1: nat)
    requires ValidReader(read, n) && d.cur <= n && d.target == Some(list) && d.name.None?
    requires read(d.cur) == Success((tok, p1)) && Opens(tok.kind)
    ensures |ArrayElements(read, n, d, list).Trace()| > |d.trace|
    ensures ArrayElements(read, n, d, list).Trace()[|d.trace|]
         == (if tok.kind == LeftCurlyBracket then CreateObject(Some(list), None) else CreateArray(Some(list), None))
  {
    var r := DecodeElement(read, n, d.(cur := p1), tok);
    if r.Ok? {
      var d3 := r.d.(trace := r.d.trace + [AddElement(list, r.value)]);
      assert r.Trace() <= d3.trace;
      assert d3.trace <= ArrayElements(read, n, d, list).Trace();
    }
  }
}
