/** The recursive-descent decoder. It pulls tokens one at a time from a
    tokenizer and issues one mapper call per construction step; the calls it
    issues, in order, are its trace. Between calls it keeps a context: the
    current target (the container being filled) and the current property
    name. Every nested object or array saves the context, replaces it while
    its members are read, and restores it once it is complete. */
module Decoder {
  import opened Results
  import opened Chars
  import opened Values
  import opened Tokens
  import opened Errors
  import opened ObjectMapper
  import opened Tokenizer

  /** The tokenizer as the decoder sees it: reading at a cursor gives the next
      token and the cursor after it, or the tokenizer's error. */
  type Reader = nat -> Result<(Token, nat), JsonError>

  /** What the decoder relies on from its tokenizer, for an input of `n`
      characters: tokens are well formed, the cursor stays within the input,
      never moves back, and moves forward past every token but the end. */
  predicate ValidReader(read: Reader, n: nat) {
    forall p: nat | p <= n && read(p).Success? ::
      && WellFormed(read(p).value.0)
      && p <= read(p).value.1 <= n
      && (read(p).value.0.kind != End ==> p < read(p).value.1)
  }

  /** The decoder's state: the tokenizer cursor, the mapper calls issued so
      far, and the context. */
  datatype Decoder = Decoder(cur: nat, trace: seq<Event>, target: Option<Handle>, name: Option<Text>)

  /** The outcome of one decoding step: a result and the state after it, or
      the error that stopped decoding with the mapper calls issued before it. */
  datatype Step<T> = Ok(value: T, d: Decoder) | Stop(error: JsonError, trace: seq<Event>) {
    function Trace(): seq<Event> {
      if Ok? then d.trace else trace
    }
  }

  /** A step from `d` only moves the cursor forward within the input and only
      appends mapper calls. */
  predicate Progress<T>(d: Decoder, r: Step<T>, n: nat) {
    && d.trace <= r.Trace()
    && (r.Ok? ==> d.cur <= r.d.cur <= n)
  }

  /** The tokens that stand for themselves: a number, a string, a boolean or
      null. */
  predicate IsLiteral(kind: TokenKind) {
    kind == Number || kind == String || kind == Boolean || kind == TokenKind.Null
  }

  predicate Opens(kind: TokenKind) {
    kind == LeftCurlyBracket || kind == LeftSquareBracket
  }

  /** One element, starting with the token `tok` already read: a literal is
      its token's value with no mapper call, `{` an object and `[` an array;
      any other token is unexpected. A successful element leaves the context
      as it found it. */
  function DecodeElement(read: Reader, n: nat, d: Decoder, tok: Token): (r: Step<Elem>)
    requires ValidReader(read, n) && d.cur <= n
    ensures Progress(d, r, n)
    ensures r.Ok? ==> r.d.target == d.target && r.d.name == d.name
    ensures IsLiteral(tok.kind) ==> r == Ok(Lit(tok.value), d)
    ensures !IsLiteral(tok.kind) && !Opens(tok.kind) ==> r == Stop(JsonError(UnexpectedToken, tok.pos), d.trace)
    ensures Opens(tok.kind) ==>
      && |r.Trace()| > |d.trace|
      && r.Trace()[|d.trace|] == (if tok.kind == LeftCurlyBracket then CreateObject(d.target, d.name)
                                  else CreateArray(d.target, d.name))
      && (r.Ok? ==> r.value == Obj(|d.trace|))
    decreases n - d.cur, if Opens(tok.kind) then 3 else 0
  {
    if IsLiteral(tok.kind) then Ok(Lit(tok.value), d)
    else if tok.kind == LeftCurlyBracket then DecodeObject(read, n, d)
    else if tok.kind == LeftSquareBracket then DecodeArray(read, n, d)
    else Stop(JsonError(UnexpectedToken, tok.pos), d.trace)
  }

  /** An object, after its `{`: the mapper creates it for the current context
      before any key is read; it becomes the target while its members are
      read, and the context is restored afterwards. */
  function DecodeObject(read: Reader, n: nat, d: Decoder): (r: Step<Elem>)
    requires ValidReader(read, n) && d.cur <= n
    ensures Progress(d, r, n)
    ensures |r.Trace()| > |d.trace| && r.Trace()[|d.trace|] == CreateObject(d.target, d.name)
    ensures r.Ok? ==> r.value == Obj(|d.trace|) && r.d.target == d.target && r.d.name == d.name
    decreases n - d.cur, 2
  {
    var h := |d.trace|;
    var inner := Decoder(d.cur, d.trace + [CreateObject(d.target, d.name)], Some(h), d.name);
    match ObjectMembers(read, n, inner)
    case Stop(e, trace) => Stop(e, trace)
    case Ok(_, d') => Ok(Obj(h), Decoder(d'.cur, d'.trace, d.target, d.name))
  }

  /** The members of an object, up to and including its `}`: each is a string
      key, a `:`, a value and then `,` or `}`. The key becomes the current
      property name, and the value is set on the current target once it is
      fully read. A `}` where a key is expected ends the object, so `{}` and a
      trailing comma are accepted. */
  function ObjectMembers(read: Reader, n: nat, d: Decoder): (r: Step<()>)
    requires ValidReader(read, n) && d.cur <= n
    ensures Progress(d, r, n)
    ensures r.Ok? ==> r.d.target == d.target
    decreases n - d.cur, 1
  {
    match read(d.cur)
    case Failure(e) => Stop(e, d.trace)
    case Success((key, p1)) =>
      if key.kind == RightCurlyBracket then Ok((), d.(cur := p1))
      else if key.kind != String then Stop(JsonError(KeysMustBeStrings, key.pos), d.trace)
      else
        var d1 := d.(cur := p1, name := Some(key.value.s));
        match read(p1)
        case Failure(e) => Stop(e, d1.trace)
        case Success((colon, p2)) =>
          if colon.kind != Colon then Stop(JsonError(ColonExpected, colon.pos), d1.trace)
          else
            match read(p2)
            case Failure(e) => Stop(e, d1.trace)
            case Success((tok, p3)) =>
              match DecodeElement(read, n, d1.(cur := p3), tok)
              case Stop(e, trace) => Stop(e, trace)
              case Ok(value, d2) =>
                var d3 := d2.(trace := d2.trace + [SetProperty(d2.target, d2.name, value)]);
                match read(d3.cur)
                case Failure(e) => Stop(e, d3.trace)
                case Success((sep, p4)) =>
                  if sep.kind == RightCurlyBracket then Ok((), d3.(cur := p4))
                  else if sep.kind != Comma then Stop(JsonError(CommaOrBraceExpected, sep.pos), d3.trace)
                  else ObjectMembers(read, n, d3.(cur := p4))
  }

  /** An array, after its `[`: the mapper creates it for the current context;
      it becomes the target, with no property name, while its elements are
      read, and the context is restored afterwards. */
  function DecodeArray(read: Reader, n: nat, d: Decoder): (r: Step<Elem>)
    requires ValidReader(read, n) && d.cur <= n
    ensures Progress(d, r, n)
    ensures |r.Trace()| > |d.trace| && r.Trace()[|d.trace|] == CreateArray(d.target, d.name)
    ensures r.Ok? ==> r.value == Obj(|d.trace|) && r.d.target == d.target && r.d.name == d.name
    decreases n - d.cur, 2
  {
    var h := |d.trace|;
    var inner := Decoder(d.cur, d.trace + [CreateArray(d.target, d.name)], Some(h), None);
    match ArrayElements(read, n, inner, h)
    case Stop(e, trace) => Stop(e, trace)
    case Ok(_, d') => Ok(Obj(h), Decoder(d'.cur, d'.trace, d.target, d.name))
  }

  /** The elements of the array `list`, up to and including its `]`: each is
      a value, appended to the array once it is fully read, and then `,` or
      `]`. A `]` where an element is expected ends the array, so `[]` and a
      trailing comma are accepted; a comma there is an unexpected token. */
  function ArrayElements(read: Reader, n: nat, d: Decoder, list: Handle): (r: Step<()>)
    requires ValidReader(read, n) && d.cur <= n
    ensures Progress(d, r, n)
    ensures r.Ok? ==> r.d.target == d.target && r.d.name == d.name
    decreases n - d.cur, 1
  {
    match read(d.cur)
    case Failure(e) => Stop(e, d.trace)
    case Success((tok, p1)) =>
      if tok.kind == RightSquareBracket then Ok((), d.(cur := p1))
      else
        match DecodeElement(read, n, d.(cur := p1), tok)
        case Stop(e, trace) => Stop(e, trace)
        case Ok(value, d2) =>
          var d3 := d2.(trace := d2.trace + [AddElement(list, value)]);
          match read(d3.cur)
          case Failure(e) => Stop(e, d3.trace)
          case Success((sep, p2)) =>
            if sep.kind == RightSquareBracket then Ok((), d3.(cur := p2))
            else if sep.kind != Comma then Stop(JsonError(CommaOrBracketExpected, sep.pos), d3.trace)
            else ArrayElements(read, n, d3.(cur := p2), list)
  }

  /** The decoder's start: cursor at offset 0, no mapper calls yet, and no
      target or property name. */
  const START: Decoder := Decoder(0, [], None, None)

  /** A whole document: exactly one element, then the end of the input. Any
      other token after the element is a syntax error at the cursor after
      that token. On success the state is the one before the end token. */
  function DecodeDocument(read: Reader, n: nat): (r: Step<Elem>)
    requires ValidReader(read, n)
    ensures Progress(START, r, n)
    ensures r.Ok? ==> read(r.d.cur).Success? && read(r.d.cur).value.0.kind == End
    ensures r.Ok? ==> r.d.target.None? && r.d.name.None?
  {
    match read(0)
    case Failure(e) => Stop(e, [])
    case Success((tok, p)) =>
      match DecodeElement(read, n, START.(cur := p), tok)
      case Stop(e, trace) => Stop(e, trace)
      case Ok(value, d) =>
        match read(d.cur)
        case Failure(e) => Stop(e, d.trace)
        case Success((last, q)) =>
          if last.kind != End then Stop(JsonError(SyntaxError, q), d.trace)
          else Ok(value, d)
  }

  /** The tokenizer over the text `s`, as the decoder constructs it: a cursor
      past the end reads as the end. */
  function TokenReader(s: Text): Reader {
    (p: nat) => ReadToken(s, if p <= |s| then p else |s|)
  }

  /** The tokenizer over a text is a valid reader for it. */
  lemma TokenReaderValid(s: Text)
    ensures ValidReader(TokenReader(s), |s|)
  {
    var read := TokenReader(s);
    forall p: nat | p <= |s| && read(p).Success?
      ensures WellFormed(read(p).value.0) && p <= read(p).value.1 <= |s|
      ensures read(p).value.0.kind != End ==> p < read(p).value.1
    {
      assert read(p) == ReadToken(s, p);
    }
  }

  /** `Decode` on the text `s`: the document read by the tokenizer over `s`. */
  function DecodeText(s: Text): (r: Step<Elem>)
    ensures Progress(START, r, |s|)
    ensures r.Ok? ==> SkipWhiteSpace(s, r.d.cur) == |s|
  {
    TokenReaderValid(s);
    var r := DecodeDocument(TokenReader(s), |s|);
    assert r.Ok? ==> TokenReader(s)(r.d.cur) == ReadToken(s, r.d.cur);
    r
  }
}
