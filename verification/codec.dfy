/** `Json.Decode` with the collection mapper, and the round trip from the
    encoder through it. Decoding and the mapper calls are interleaved in the
    source, so a mapper call that throws ends decoding before any later
    syntax error is found: the trace the decoder issued before stopping is
    replayed first, and its failure, if any, is the outcome. */
module Codec {
  import opened Results
  import opened Chars
  import opened Values
  import opened Tokens
  import opened Errors
  import opened ObjectMapper
  import opened Tokenizer
  import opened Encoder
  import opened Decoder
  import CollectionMapper
  import opened TokenRoundTrip
  import opened TokenWalk
  import opened DecodeRoundTrip
  import opened BuildRoundTrip
  import opened LexRoundTrip

  /** Why decoding a text fails: the tokenizer or decoder rejected it, or a
      mapper call threw. */
  datatype DecodeError = Syntax(error: JsonError) | Mapping(failure: CollectionMapper.MapperError)

  /** `Json.Decode(s)`: the decoder over `s` driving the collection mapper. */
  function Decode(s: Text): (r: Result<Value, DecodeError>)
    ensures r.Success? ==> DecodeText(s).Ok? && SkipWhiteSpace(s, DecodeText(s).d.cur) == |s|
    ensures r.Success? ==> HeapOf(DecodeText(s).d.trace).Success?
    ensures DecodeText(s).Stop? && HeapOf(DecodeText(s).trace).Success? ==> r == Failure(Syntax(DecodeText(s).error))
    ensures HeapOf(DecodeText(s).Trace()).Failure? ==> r == Failure(Mapping(HeapOf(DecodeText(s).Trace()).error))
  {
    var d := DecodeText(s);
    match HeapOf(d.Trace())
    case Failure(e) => Failure(Mapping(e))
    case Success(heap) =>
      if d.Stop? then Failure(Syntax(d.error))
      else
        match CollectionMapper.Resolve(heap, d.value)
        case Failure(e) => Failure(Mapping(e))
        case Success(v) => Success(v)
  }

  /** Every value the collection mapper can give back is encoded and decoded
      to itself: its integers fit in 32 bits, its floating-point lexemes read
      back as themselves, its tables have distinct keys and it holds no
      record. */
  lemma {:induction false} DecodeEncode(v: Value)
    requires Decodable(v)
    ensures Decode(Encode(v)) == Success(v)
  {
    var s := Encode(v);
    var read := TokenReader(s);
    TokenReaderValid(s);
    TokenReaderReads(s);
    assert s[0..|s|] == s;
    WalkEncoded(read, s, 0, v, |s|);
    var (tok, p) := read(0).value;
    var d := START.(cur := p);
    DecodeElementWalk(read, |s|, d, 0, tok, v, |s|);
    assert read(|s|) == ReadToken(s, |s|);
    EmitBuilds(v, None, None, []);
  }
}
