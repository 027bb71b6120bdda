/** The tokenizer on the encoder's output: over the text of a value, the
    tokenizer yields exactly the tokens of that value, one per primitive and
    one per structural character, and nothing in between. */
module LexRoundTrip {
  import opened Results
  import opened Chars
  import opened Values
  import opened Tokens
  import opened Tokenizer
  import opened Encoder
  import opened Decoder
  import opened TokenRoundTrip
  import opened TokenWalk

  /** `read` reads the text `s` as its tokenizer does. The trigger keeps the
      tokenizer's definition out of every proof that only uses what a reader
      returns. */
  predicate ReadsText(read: Reader, s: Text) {
    forall p: nat {:trigger ReadToken(s, p)} | p <= |s| :: read(p) == ReadToken(s, p)
  }

  /** The tokenizer over a text reads that text. */
  lemma TokenReaderReads(s: Text)
    ensures ReadsText(TokenReader(s), s)
  {
    forall p: nat | p <= |s| ensures TokenReader(s)(p) == ReadToken(s, p) {
    }
  }

  /** A structural character at `p` is read as its own token, ending at
      `p + 1`. */
  lemma ExpectStructural(read: Reader, s: Text, p: nat, c: CodeUnit, q: nat)
    requires ReadsText(read, s)
    requires At(s, p, [c]) && StructuralKind(c).Some? && q == p + 1
    ensures Expect(read, p, StructuralKind(c).value) == Some(q)
  {
    AtIndex(s, p, [c], 0);
    StructuralToken(s, p);
  }

  /** An encoded string at `p` is read as a string token carrying it. */
  lemma ExpectString(read: Reader, s: Text, p: nat, x: Text, q: nat)
    requires ReadsText(read, s)
    requires At(s, p, EncodeString(x)) && q == p + |EncodeString(x)|
    ensures ExpectValue(read, p, String, Str(x)) == Some(q)
  {
    EncodedStringToken(s, p, x, q);
  }

  lemma WalkNull(read: Reader, s: Text, p: nat, q: nat)
    requires ReadsText(read, s) && At(s, p, Encode(Value.Null)) && q == p + |Encode(Value.Null)|
    ensures Walk(read, p, Value.Null) == Some(q)
  {
    NullRoundTrip(s, p);
  }

  lemma WalkBool(read: Reader, s: Text, p: nat, b: bool, q: nat)
    requires ReadsText(read, s) && At(s, p, Encode(Bool(b))) && q == p + |Encode(Bool(b))|
    ensures Walk(read, p, Bool(b)) == Some(q)
  {
    BoolRoundTrip(s, p, b);
  }

  lemma WalkInt(read: Reader, s: Text, p: nat, i: Int64, q: nat)
    requires ReadsText(read, s) && IsInt32(i)
    requires At(s, p, Encode(Int(i))) && q == p + |Encode(Int(i))| && Follows(s, q)
    ensures Walk(read, p, Int(i)) == Some(q)
  {
    assert Encode(Int(i)) == IntText(i);
    IntRoundTrip(s, p, i);
    assert read(p) == ReadToken(s, p);
  }

  lemma WalkFloat(read: Reader, s: Text, p: nat, lexeme: Text, q: nat)
    requires ReadsText(read, s) && IsFloatToken(lexeme)
    requires At(s, p, Encode(Float(lexeme))) && q == p + |Encode(Float(lexeme))| && Follows(s, q)
    ensures Walk(read, p, Float(lexeme)) == Some(q)
  {
    FloatRoundTrip(s, p, lexeme);
  }

  lemma WalkString(read: Reader, s: Text, p: nat, x: Text, q: nat)
    requires ReadsText(read, s) && At(s, p, Encode(Str(x))) && q == p + |Encode(Str(x))|
    ensures Walk(read, p, Str(x)) == Some(q)
  {
    ExpectString(read, s, p, x, q);
  }

  /** The tokens of an encoded decodable value at `p`, followed by a
      character that cannot extend a number, are the tokens of the value. */
  lemma {:induction false} WalkEncoded(read: Reader, s: Text, p: nat, v: Value, q: nat)
    requires ReadsText(read, s)
    requires Decodable(v) && At(s, p, Encode(v)) && q == p + |Encode(v)| && Follows(s, q)
    ensures Walk(read, p, v) == Some(q)
    decreases v, 2
  {
    match v
    case Table(es) => WalkTable(read, s, p, v, q);
    case List(xs) => WalkList(read, s, p, v, q);
    case Null => WalkNull(read, s, p, q);
    case Bool(b) => WalkBool(read, s, p, b, q);
    case Int(i) => WalkInt(read, s, p, i, q);
    case Float(lexeme) => WalkFloat(read, s, p, lexeme, q);
    case Str(x) => WalkString(read, s, p, x, q);
  }

  /** An encoded table is read as `{`, then its members. */
  lemma {:induction false} WalkTable(read: Reader, s: Text, p: nat, v: Value, q: nat)
    requires ReadsText(read, s) && v.Table?
    requires Decodable(v) && At(s, p, Encode(v)) && q == p + |Encode(v)|
    ensures Walk(read, p, v) == Some(q)
    decreases v, 1
  {
    var body := EncodeEntries(v.entries, v);
    Enclosed(read, s, p, LBRACE, body, RBRACE, q);
    WalkEncodedMembers(read, s, p + 1, v.entries, v, q);
  }

  /** An encoded list is read as `[`, then its items. */
  lemma {:induction false} WalkList(read: Reader, s: Text, p: nat, v: Value, q: nat)
    requires ReadsText(read, s) && v.List?
    requires Decodable(v) && At(s, p, Encode(v)) && q == p + |Encode(v)|
    ensures Walk(read, p, v) == Some(q)
    decreases v, 1
  {
    var body := EncodeItems(v.items, v);
    Enclosed(read, s, p, LBRACKET, body, RBRACKET, q);
    WalkEncodedItems(read, s, p + 1, v.items, v, q);
  }

  /** A body between an opening and a closing structural character at `p`:
      the opening one is read as its token, and the body and the closing one
      follow it. */
  lemma Enclosed(read: Reader, s: Text, p: nat, open: CodeUnit, body: Text, close: CodeUnit, q: nat)
    requires ReadsText(read, s) && StructuralKind(open).Some?
    requires At(s, p, [open] + body + [close]) && q == p + |body| + 2
    ensures Expect(read, p, StructuralKind(open).value) == Some(p + 1)
    ensures At(s, p + 1, body) && At(s, q - 1, [close])
  {
    AtSplit(s, p, [open] + body, [close], p + 1 + |body|);
    AtSplit(s, p, [open], body, p + 1);
    ExpectStructural(read, s, p, open, p + 1);
  }

  /** The text of one entry: its key, a colon and its value. */
  function EntryText(e: (Text, Value)): Text {
    EncodeString(e.0) + [COLON] + Encode(e.1)
  }


  /** The encoder's text for the entries `es`, followed by `}`, occurs at `p`
      and ends at `q`. */
  predicate EntriesText(s: Text, p: nat, es: seq<(Text, Value)>, owner: Value, q: nat)
    requires forall k | 0 <= k < |es| :: es[k].1 < owner
  {
    At(s, p, EncodeEntries(es, owner)) && q == p + |EncodeEntries(es, owner)| + 1 && At(s, q - 1, [RBRACE])
  }

  /** Non-empty entries at `p`: the first entry ends at `p3`, where either `}`
      follows it (the last entry) or a comma and the remaining entries. */
  lemma FirstEntry(s: Text, p: nat, es: seq<(Text, Value)>, owner: Value, p3: nat, q: nat)
    requires |es| > 0 && forall k | 0 <= k < |es| :: es[k].1 < owner
    requires EntriesText(s, p, es, owner, q) && p3 == p + |EntryText(es[0])|
    ensures At(s, p, EntryText(es[0]))
    ensures |es| == 1 ==> At(s, p3, [RBRACE]) && q == p3 + 1
    ensures |es| > 1 ==> At(s, p3, [COMMA]) && EntriesText(s, p3 + 1, es[1..], owner, q)
  {
    if |es| == 1 {
      assert EncodeEntries(es, owner) == EntryText(es[0]);
    } else {
      AtSplit(s, p, EntryText(es[0]) + [COMMA], EncodeEntries(es[1..], owner), p3 + 1);
      AtSplit(s, p, EntryText(es[0]), [COMMA], p3);
    }
  }

  /** A key and a colon at `p` are read as a string token and a colon token,
      and the value's encoding follows them. */
  lemma EntryAt(read: Reader, s: Text, p: nat, e: (Text, Value), p1: nat, p2: nat)
    requires ReadsText(read, s) && At(s, p, EntryText(e))
    requires p1 == p + |EncodeString(e.0)| && p2 == p1 + 1
    ensures ExpectValue(read, p, String, Str(e.0)) == Some(p1)
    ensures Expect(read, p1, Colon) == Some(p2) && At(s, p2, Encode(e.1))
  {
    AtSplit(s, p, EncodeString(e.0) + [COLON], Encode(e.1), p2);
    AtSplit(s, p, EncodeString(e.0), [COLON], p1);
    ExpectString(read, s, p, e.0, p1);
    ExpectStructural(read, s, p1, COLON, p2);
  }

  /** The encoder's text for entries, followed by `}`, is read as the members
      of the table. */
  lemma {:induction false} WalkEncodedMembers(read: Reader, s: Text, p: nat, es: seq<(Text, Value)>, owner: Value, q: nat)
    requires ReadsText(read, s)
    requires forall k | 0 <= k < |es| :: es[k].1 < owner && Decodable(es[k].1)
    requires EntriesText(s, p, es, owner, q)
    ensures WalkMembers(read, p, es, owner) == Some(q)
    decreases owner, 0, |es|, 1
  {
    if |es| == 0 {
      ExpectStructural(read, s, p, RBRACE, q);
    } else {
      var p1 := p + |EncodeString(es[0].0)|;
      var p2 := p1 + 1;
      var p3 := p + |EntryText(es[0])|;
      FirstEntry(s, p, es, owner, p3, q);
      AfterMember(read, s, p3, es, owner, q);
      MemberValue(read, s, p, es[0], p1, p2, p3);
      MembersStep(read, p, es, owner, p1, p2, p3, q);
    }
  }

  /** An entry at `p`, followed by a character that cannot extend a number,
      is read as its key, a colon and its value. */
  lemma {:induction false} MemberValue(read: Reader, s: Text, p: nat, e: (Text, Value), p1: nat, p2: nat, p3: nat)
    requires ReadsText(read, s) && Decodable(e.1)
    requires At(s, p, EntryText(e)) && p3 == p + |EntryText(e)| && Follows(s, p3)
    requires p1 == p + |EncodeString(e.0)| && p2 == p1 + 1
    ensures ExpectValue(read, p, String, Str(e.0)) == Some(p1)
    ensures Expect(read, p1, Colon) == Some(p2) && Walk(read, p2, e.1) == Some(p3)
    decreases e.1, 3
  {
    EntryAt(read, s, p, e, p1, p2);
    WalkEncoded(read, s, p2, e.1, p3);
  }

  /** What follows the first entry, at `p3`: `}` after the last entry, and
      otherwise a comma and the remaining members. */
  lemma {:induction false} AfterMember(read: Reader, s: Text, p3: nat, es: seq<(Text, Value)>, owner: Value, q: nat)
    requires ReadsText(read, s) && |es| > 0
    requires forall k | 0 <= k < |es| :: es[k].1 < owner && Decodable(es[k].1)
    requires |es| == 1 ==> At(s, p3, [RBRACE]) && q == p3 + 1
    requires |es| > 1 ==> At(s, p3, [COMMA]) && EntriesText(s, p3 + 1, es[1..], owner, q)
    ensures Follows(s, p3)
    ensures |es| == 1 ==> Expect(read, p3, RightCurlyBracket) == Some(q)
    ensures |es| > 1 ==> Expect(read, p3, Comma) == Some(p3 + 1) && WalkMembers(read, p3 + 1, es[1..], owner) == Some(q)
    decreases owner, 0, |es|, 0
  {
    if |es| == 1 {
      AtIndex(s, p3, [RBRACE], 0);
      ExpectStructural(read, s, p3, RBRACE, q);
    } else {
      AtIndex(s, p3, [COMMA], 0);
      ExpectStructural(read, s, p3, COMMA, p3 + 1);
      WalkEncodedMembers(read, s, p3 + 1, es[1..], owner, q);
    }
  }

  /** The members walk is made of the key, the colon, the value and then
      either `}` or a comma and the members walk of the remaining entries. */
  lemma MembersStep(read: Reader, p: nat, es: seq<(Text, Value)>, owner: Value, p1: nat, p2: nat, p3: nat, q: nat)
    requires |es| > 0 && forall k | 0 <= k < |es| :: es[k].1 < owner
    requires ExpectValue(read, p, String, Str(es[0].0)) == Some(p1)
    requires Expect(read, p1, Colon) == Some(p2) && Walk(read, p2, es[0].1) == Some(p3)
    requires |es| == 1 ==> Expect(read, p3, RightCurlyBracket) == Some(q)
    requires |es| > 1 ==> Expect(read, p3, Comma) == Some(p3 + 1) && WalkMembers(read, p3 + 1, es[1..], owner) == Some(q)
    ensures WalkMembers(read, p, es, owner) == Some(q)
  {
  }

  /** The encoder's text for the items `xs`, followed by `]`, occurs at `p`
      and ends at `q`. */
  predicate ItemsText(s: Text, p: nat, xs: seq<Value>, owner: Value, q: nat)
    requires forall k | 0 <= k < |xs| :: xs[k] < owner
  {
    At(s, p, EncodeItems(xs, owner)) && q == p + |EncodeItems(xs, owner)| + 1 && At(s, q - 1, [RBRACKET])
  }

  /** Non-empty items at `p`: the first item ends at `p1`, where either `]`
      follows it (the last item) or a comma and the remaining items. */
  lemma FirstItem(s: Text, p: nat, xs: seq<Value>, owner: Value, p1: nat, q: nat)
    requires |xs| > 0 && forall k | 0 <= k < |xs| :: xs[k] < owner
    requires ItemsText(s, p, xs, owner, q) && p1 == p + |Encode(xs[0])|
    ensures At(s, p, Encode(xs[0]))
    ensures |xs| == 1 ==> At(s, p1, [RBRACKET]) && q == p1 + 1
    ensures |xs| > 1 ==> At(s, p1, [COMMA]) && ItemsText(s, p1 + 1, xs[1..], owner, q)
  {
    if |xs| == 1 {
      assert EncodeItems(xs, owner) == Encode(xs[0]);
    } else {
      AtSplit(s, p, Encode(xs[0]) + [COMMA], EncodeItems(xs[1..], owner), p1 + 1);
      AtSplit(s, p, Encode(xs[0]), [COMMA], p1);
    }
  }

  /** The encoder's text for items, followed by `]`, is read as the items of
      the list. */
  lemma {:induction false} WalkEncodedItems(read: Reader, s: Text, p: nat, xs: seq<Value>, owner: Value, q: nat)
    requires ReadsText(read, s)
    requires forall k | 0 <= k < |xs| :: xs[k] < owner && Decodable(xs[k])
    requires ItemsText(s, p, xs, owner, q)
    ensures WalkItems(read, p, xs, owner) == Some(q)
    decreases owner, 0, |xs|, 1
  {
    if |xs| == 0 {
      ExpectStructural(read, s, p, RBRACKET, q);
    } else {
      var p1 := p + |Encode(xs[0])|;
      FirstItem(s, p, xs, owner, p1, q);
      AfterItem(read, s, p1, xs, owner, q);
      WalkEncoded(read, s, p, xs[0], p1);
      ItemsStep(read, p, xs, owner, p1, q);
    }
  }

  /** What follows the first item, at `p1`: `]` after the last item, and
      otherwise a comma and the remaining items. */
  lemma {:induction false} AfterItem(read: Reader, s: Text, p1: nat, xs: seq<Value>, owner: Value, q: nat)
    requires ReadsText(read, s) && |xs| > 0
    requires forall k | 0 <= k < |xs| :: xs[k] < owner && Decodable(xs[k])
    requires |xs| == 1 ==> At(s, p1, [RBRACKET]) && q == p1 + 1
    requires |xs| > 1 ==> At(s, p1, [COMMA]) && ItemsText(s, p1 + 1, xs[1..], owner, q)
    ensures Follows(s, p1)
    ensures |xs| == 1 ==> Expect(read, p1, RightSquareBracket) == Some(q)
    ensures |xs| > 1 ==> Expect(read, p1, Comma) == Some(p1 + 1) && WalkItems(read, p1 + 1, xs[1..], owner) == Some(q)
    decreases owner, 0, |xs|, 0
  {
    if |xs| == 1 {
      AtIndex(s, p1, [RBRACKET], 0);
      ExpectStructural(read, s, p1, RBRACKET, q);
    } else {
      AtIndex(s, p1, [COMMA], 0);
      ExpectStructural(read, s, p1, COMMA, p1 + 1);
      WalkEncodedItems(read, s, p1 + 1, xs[1..], owner, q);
    }
  }

  /** The items walk is made of the first item and then either `]` or a
      comma and the items walk of the remaining items. */
  lemma ItemsStep(read: Reader, p: nat, xs: seq<Value>, owner: Value, p1: nat, q: nat)
    requires |xs| > 0 && forall k | 0 <= k < |xs| :: xs[k] < owner
    requires Walk(read, p, xs[0]) == Some(p1)
    requires |xs| == 1 ==> Expect(read, p1, RightSquareBracket) == Some(q)
    requires |xs| > 1 ==> Expect(read, p1, Comma) == Some(p1 + 1) && WalkItems(read, p1 + 1, xs[1..], owner) == Some(q)
    ensures WalkItems(read, p, xs, owner) == Some(q)
  {
  }
}
