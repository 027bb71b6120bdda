/** The token sequence of a value, read off a tokenizer: the tokens the
    encoding of a value is made of, with the cursor threaded through the
    reader. This is the interface between the text-level and the token-level
    halves of the round trip. */
module TokenWalk {
  import opened Results
  import opened Chars
  import opened Values
  import opened Tokens
  import opened Decoder
  import opened TokenRoundTrip

  /** The values that come back unchanged from the encoder through the
      decoder and the collection mapper: integers fit in 32 bits, floating-
      point lexemes are read back as themselves, no table repeats a key, and
      there is no record (a record comes back as a table). */
  predicate Decodable(v: Value)
    decreases v
  {
    match v
    case Null => true
    case Bool(_) => true
    case Int(i) => IsInt32(i)
    case Float(lexeme) => IsFloatToken(lexeme)
    case Str(_) => true
    case Table(es) => DistinctKeys(es) && forall k | 0 <= k < |es| :: Decodable(es[k].1)
    case List(xs) => forall k | 0 <= k < |xs| :: Decodable(xs[k])
    case Record(_, _) => false
  }

  /** The cursor after a token of kind `kind` read at `p`. */
  function Expect(read: Reader, p: nat, kind: TokenKind): (r: Option<nat>)
    ensures r.Some? <==> read(p).Success? && read(p).value.0.kind == kind
    ensures r.Some? ==> r.value == read(p).value.1
  {
    match read(p)
    case Success((t, q)) => if t.kind == kind then Some(q) else None
    case Failure(_) => None
  }

  /** The cursor after a token of kind `kind` carrying `value` read at `p`. */
  function ExpectValue(read: Reader, p: nat, kind: TokenKind, value: Value): (r: Option<nat>)
    ensures r.Some? <==> read(p).Success? && read(p).value.0.kind == kind && read(p).value.0.value == value
    ensures r.Some? ==> r.value == read(p).value.1
  {
    match read(p)
    case Success((t, q)) => if t.kind == kind && t.value == value then Some(q) else None
    case Failure(_) => None
  }

  /** The token kind a primitive value is written as. */
  function LiteralKind(v: Value): TokenKind
    requires !v.Table? && !v.List? && !v.Record?
  {
    match v
    case Null => TokenKind.Null
    case Bool(_) => Boolean
    case Int(_) => Number
    case Float(_) => Number
    case Str(_) => String
  }

  /** The cursor after the tokens of `v` read from `p`, when the reader yields
      exactly the tokens of the encoding of `v`: one token per primitive,
      `{`, `"key"`, `:`, value and `,` or `}` for a table, and `[`, value and
      `,` or `]` for a list. */
  function Walk(read: Reader, p: nat, v: Value): Option<nat>
    decreases v
  {
    match v
    case Table(es) =>
      var p1 :- Expect(read, p, LeftCurlyBracket);
      WalkMembers(read, p1, es, v)
    case List(xs) =>
      var p1 :- Expect(read, p, LeftSquareBracket);
      WalkItems(read, p1, xs, v)
    case Record(_, _) => None
    case _ => ExpectValue(read, p, LiteralKind(v), v)
  }

  /** The members of a table after its `{`, up to and including its `}`. */
  function WalkMembers(read: Reader, p: nat, es: seq<(Text, Value)>, ghost owner: Value): Option<nat>
    requires forall k | 0 <= k < |es| :: es[k].1 < owner
    decreases owner, |es|
  {
    if |es| == 0 then Expect(read, p, RightCurlyBracket)
    else
      var p1 :- ExpectValue(read, p, String, Str(es[0].0));
      var p2 :- Expect(read, p1, Colon);
      var p3 :- Walk(read, p2, es[0].1);
      if |es| == 1 then Expect(read, p3, RightCurlyBracket)
      else
        var p4 :- Expect(read, p3, Comma);
        WalkMembers(read, p4, es[1..], owner)
  }

  /** The items of a list after its `[`, up to and including its `]`. */
  function WalkItems(read: Reader, p: nat, xs: seq<Value>, ghost owner: Value): Option<nat>
    requires forall k | 0 <= k < |xs| :: xs[k] < owner
    decreases owner, |xs|
  {
    if |xs| == 0 then Expect(read, p, RightSquareBracket)
    else
      var p1 :- Walk(read, p, xs[0]);
      if |xs| == 1 then Expect(read, p1, RightSquareBracket)
      else
        var p2 :- Expect(read, p1, Comma);
        WalkItems(read, p2, xs[1..], owner)
  }
}
