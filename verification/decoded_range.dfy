/** What `Json.Decode` can give back: every value it decodes is one that the
    round trip covers, so re-encoding a decoded document and decoding it
    again gives the same value. The tokenizer only yields 32-bit integers,
    accepted floating-point lexemes, strings, booleans and null; the decoder
    hands the mapper only those and containers; and the collection mapper
    never lets a table hold a key twice. */
module DecodedRange {
  import opened Results
  import opened Chars
  import opened Values
  import opened Tokens
  import opened Errors
  import opened ObjectMapper
  import opened Tokenizer
  import opened Encoder
  import opened Decoder
  import CollectionMapper
  import opened TokenRoundTrip
  import opened TokenWalk
  import opened BuildRoundTrip
  import opened Codec

  /** An element whose literal, if it is one, is decodable. */
  predicate DecodableElem(e: Elem) {
    e.Lit? ==> Decodable(e.v)
  }

  /** A mapper call that hands over only decodable literals. */
  predicate DecodableEvent(ev: Event) {
    match ev
    case SetProperty(_, _, value) => DecodableElem(value)
    case AddElement(_, element) => DecodableElem(element)
    case _ => true
  }

  predicate DecodableTrace(tr: seq<Event>) {
    forall i | 0 <= i < |tr| :: DecodableEvent(tr[i])
  }

  /** Every token the reader yields within the input carries a decodable
      value. */
  predicate ReadsDecodable(read: Reader, n: nat) {
    forall p: nat | p <= n && read(p).Success? :: Decodable(read(p).value.0.value)
  }

  /** Every container built so far is decodable. */
  predicate DecodableHeap(heap: CollectionMapper.Heap) {
    forall h | h in heap :: Decodable(heap[h])
  }

  lemma TraceSnoc(tr: seq<Event>, e: Event)
    requires DecodableTrace(tr) && DecodableEvent(e)
    ensures DecodableTrace(tr + [e])
  {
    forall i | 0 <= i < |tr| + 1 ensures DecodableEvent((tr + [e])[i]) {
      if i < |tr| {
        assert (tr + [e])[i] == tr[i];
      }
    }
  }

  /** A number run the tokenizer accepts as a floating-point number is a
      lexeme the round trip covers. */
  lemma NumberTokenDecodable(s: Text, p: nat)
    requires p < |s| && StartsNumber(s[p])
    ensures ReadNumber(s, p).Success? ==> Decodable(ReadNumber(s, p).value.0.value)
  {
    var q := NumberRunEnd(s, p);
    var lexeme := s[p..q];
    assert lexeme[0] == s[p];
  }

  /** Every token the tokenizer yields carries a decodable value: a 32-bit
      integer, an accepted floating-point lexeme, a string, a boolean or
      null. */
  lemma TokenDecodable(s: Text, pos: nat)
    requires pos <= |s|
    ensures ReadToken(s, pos).Success? ==> Decodable(ReadToken(s, pos).value.0.value)
  {
    var p := SkipWhiteSpace(s, pos);
    if p < |s| && StartsNumber(s[p]) && s[p] != QUOTE {
      NumberTokenDecodable(s, p);
    }
  }

  lemma TokenReaderDecodable(s: Text)
    ensures ReadsDecodable(TokenReader(s), |s|)
  {
    forall p: nat | p <= |s| && TokenReader(s)(p).Success?
      ensures Decodable(TokenReader(s)(p).value.0.value)
    {
      TokenDecodable(s, p);
    }
  }

  /** The decoder hands the mapper only the values of the tokens it reads,
      and containers. */
  lemma {:induction false} ElementDecodable(read: Reader, n: nat, d: Decoder, tok: Token)
    requires ValidReader(read, n) && d.cur <= n && ReadsDecodable(read, n)
    requires DecodableTrace(d.trace) && Decodable(tok.value)
    ensures DecodableTrace(DecodeElement(read, n, d, tok).Trace())
    ensures DecodeElement(read, n, d, tok).Ok? ==> DecodableElem(DecodeElement(read, n, d, tok).value)
    decreases n - d.cur, if Opens(tok.kind) then 3 else 0
  {
    if tok.kind == LeftCurlyBracket {
      ObjectDecodable(read, n, d);
    } else if tok.kind == LeftSquareBracket {
      ArrayDecodable(read, n, d);
    }
  }

  lemma {:induction false} ObjectDecodable(read: Reader, n: nat, d: Decoder)
    requires ValidReader(read, n) && d.cur <= n && ReadsDecodable(read, n) && DecodableTrace(d.trace)
    ensures DecodableTrace(DecodeObject(read, n, d).Trace())
    decreases n - d.cur, 2
  {
    TraceSnoc(d.trace, CreateObject(d.target, d.name));
    MembersDecodable(read, n, Decoder(d.cur, d.trace + [CreateObject(d.target, d.name)], Some(|d.trace|), d.name));
  }

  lemma {:induction false} ArrayDecodable(read: Reader, n: nat, d: Decoder)
    requires ValidReader(read, n) && d.cur <= n && ReadsDecodable(read, n) && DecodableTrace(d.trace)
    ensures DecodableTrace(DecodeArray(read, n, d).Trace())
    decreases n - d.cur, 2
  {
    var h := |d.trace|;
    TraceSnoc(d.trace, CreateArray(d.target, d.name));
    ElementsDecodable(read, n, Decoder(d.cur, d.trace + [CreateArray(d.target, d.name)], Some(h), None), h);
  }

  lemma {:induction false} MembersDecodable(read: Reader, n: nat, d: Decoder)
    requires ValidReader(read, n) && d.cur <= n && ReadsDecodable(read, n) && DecodableTrace(d.trace)
    ensures DecodableTrace(ObjectMembers(read, n, d).Trace())
    decreases n - d.cur, 1
  {
    if read(d.cur).Success? {
      var (key, p1) := read(d.cur).value;
      if key.kind == String && read(p1).Success? {
        var d1 := d.(cur := p1, name := Some(key.value.s));
        var (colon, p2) := read(p1).value;
        if colon.kind == Colon && read(p2).Success? {
          var (tok, p3) := read(p2).value;
          ElementDecodable(read, n, d1.(cur := p3), tok);
          var r := DecodeElement(read, n, d1.(cur := p3), tok);
          if r.Ok? {
            var d2 := r.d;
            var e := SetProperty(d2.target, d2.name, r.value);
            TraceSnoc(d2.trace, e);
            var d3 := d2.(trace := d2.trace + [e]);
            if read(d3.cur).Success? {
              var (sep, p4) := read(d3.cur).value;
              if sep.kind == Comma {
                MembersDecodable(read, n, d3.(cur := p4));
              }
            }
          }
        }
      }
    }
  }

  lemma {:induction false} ElementsDecodable(read: Reader, n: nat, d: Decoder, list: Handle)
    requires ValidReader(read, n) && d.cur <= n && ReadsDecodable(read, n) && DecodableTrace(d.trace)
    ensures DecodableTrace(ArrayElements(read, n, d, list).Trace())
    decreases n - d.cur, 1
  {
    if read(d.cur).Success? {
      var (tok, p1) := read(d.cur).value;
      if tok.kind != RightSquareBracket {
        ElementDecodable(read, n, d.(cur := p1), tok);
        var r := DecodeElement(read, n, d.(cur := p1), tok);
        if r.Ok? {
          var d2 := r.d;
          var e := AddElement(list, r.value);
          TraceSnoc(d2.trace, e);
          var d3 := d2.(trace := d2.trace + [e]);
          if read(d3.cur).Success? {
            var (sep, p2) := read(d3.cur).value;
            if sep.kind == Comma {
              ElementsDecodable(read, n, d3.(cur := p2), list);
            }
          }
        }
      }
    }
  }

  lemma DocumentDecodable(read: Reader, n: nat)
    requires ValidReader(read, n) && ReadsDecodable(read, n)
    ensures DecodableTrace(DecodeDocument(read, n).Trace())
    ensures DecodeDocument(read, n).Ok? ==> DecodableElem(DecodeDocument(read, n).value)
  {
    if read(0).Success? {
      var (tok, p) := read(0).value;
      ElementDecodable(read, n, START.(cur := p), tok);
    }
  }

  /** A table that gains an entry under a key it does not hold still has
      distinct keys. */
  lemma DistinctSnoc(es: seq<(Text, Value)>, key: Text, v: Value)
    requires DistinctKeys(es) && !HasKey(es, key)
    ensures DistinctKeys(es + [(key, v)])
  {
    var es' := es + [(key, v)];
    forall i, j | 0 <= i < j < |es'| ensures es'[i].0 != es'[j].0 {
      assert es'[i] == es[i];
      if j < |es| {
        assert es'[j] == es[j];
      }
    }
  }

  /** The collection mapper only builds decodable containers from decodable
      calls: a new entry is set only under a key the table does not hold. */
  lemma ApplyDecodable(heap: CollectionMapper.Heap, h: Handle, e: Event)
    requires CollectionMapper.Fresh(heap, h) && DecodableHeap(heap) && DecodableEvent(e)
    ensures CollectionMapper.Apply(heap, h, e).Success? ==> DecodableHeap(CollectionMapper.Apply(heap, h, e).value)
  {
    var r := CollectionMapper.Apply(heap, h, e);
    if r.Success? {
      match e
      case SetProperty(target, name, value) =>
        var t := target.value;
        var es := heap[t].entries;
        var v := CollectionMapper.Resolve(heap, value).value;
        DistinctSnoc(es, name.value, v);
        var es' := es + [(name.value, v)];
        forall k | 0 <= k < |es'| ensures Decodable(es'[k].1) {
          if k < |es| {
            assert es'[k] == es[k];
          }
        }
        assert Decodable(r.value[t]);
      case AddElement(list, element) =>
        var xs := heap[list].items;
        var xs' := xs + [CollectionMapper.Resolve(heap, element).value];
        forall k | 0 <= k < |xs'| ensures Decodable(xs'[k]) {
          if k < |xs| {
            assert xs'[k] == xs[k];
          }
        }
        assert Decodable(r.value[list]);
      case _ =>
    }
  }

  lemma {:induction false} ReplayDecodable(heap: CollectionMapper.Heap, events: seq<Event>, next: Handle)
    requires CollectionMapper.Fresh(heap, next) && DecodableHeap(heap) && DecodableTrace(events)
    ensures CollectionMapper.Replay(heap, events, next).Success? ==>
      DecodableHeap(CollectionMapper.Replay(heap, events, next).value)
    decreases |events|
  {
    if |events| > 0 {
      assert DecodableEvent(events[0]);
      ApplyDecodable(heap, next, events[0]);
      var r := CollectionMapper.Apply(heap, next, events[0]);
      if r.Success? {
        assert DecodableTrace(events[1..]) by {
          forall i | 0 <= i < |events| - 1 ensures DecodableEvent(events[1..][i]) {
            assert events[1..][i] == events[i + 1];
          }
        }
        ReplayDecodable(r.value, events[1..], next + 1);
      }
    }
  }

  /** Every value `Json.Decode` gives back is decodable: integers fit in 32
      bits, floating-point lexemes read back as themselves, no table holds a
      key twice, and there is no record. */
  lemma DecodedIsDecodable(s: Text)
    ensures Decode(s).Success? ==> Decodable(Decode(s).value)
  {
    var read := TokenReader(s);
    TokenReaderValid(s);
    TokenReaderDecodable(s);
    DocumentDecodable(read, |s|);
    var d := DecodeText(s);
    ReplayDecodable(map[], d.Trace(), 0);
  }

  /** Re-encoding a decoded document and decoding the result gives the same
      value back. */
  lemma ReencodeDecoded(s: Text)
    requires Decode(s).Success?
    ensures Decode(Encode(Decode(s).value)) == Decode(s)
  {
    DecodedIsDecodable(s);
    DecodeEncode(Decode(s).value);
  }
}
