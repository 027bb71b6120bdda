/** The encoder's layout rules and its unit tests: a record is written as the
    table of its fields followed by its properties, and the outputs the tests
    expect for numbers, keywords, strings, lists and tables. */
module EncoderFacts {
  import opened Chars
  import opened Values
  import opened Encoder

  /** The owner passed to `EncodeEntries` only bounds its recursion: any two
      owners give the same text. */
  lemma {:induction false} EntriesOwnerIrrelevant(es: seq<(Text, Value)>, a: Value, b: Value)
    requires forall k | 0 <= k < |es| :: es[k].1 < a
    requires forall k | 0 <= k < |es| :: es[k].1 < b
    ensures EncodeEntries(es, a) == EncodeEntries(es, b)
    decreases |es|
  {
    if |es| > 1 {
      EntriesOwnerIrrelevant(es[1..], a, b);
    }
  }

  /** A record is written exactly as the table of its fields followed by its
      properties, in that order. */
  lemma RecordEncodesAsTable(fields: seq<(Text, Value)>, properties: seq<(Text, Value)>)
    ensures Encode(Record(fields, properties)) == Encode(Table(fields + properties))
  {
    var es := fields + properties;
    var r := Record(fields, properties);
    forall k | 0 <= k < |es| ensures es[k].1 < r {
      if k < |fields| {
        assert es[k] == fields[k];
      } else {
        assert es[k] == properties[k - |fields|];
      }
    }
    EntriesOwnerIrrelevant(es, r, Table(es));
  }

  /** `Json.Encode(1234)`: decimal digits. */
  lemma EncodeInt()
    ensures Encode(Int(1234)) == Ascii("1234")
  {
    assert DecimalText(1234) == DecimalText(123) + [0x34];
    assert DecimalText(123) == DecimalText(12) + [0x33];
  }

  /** `true`, `false` and `null`. */
  lemma EncodeKeywords()
    ensures Encode(Bool(true)) == Ascii("true")
    ensures Encode(Bool(false)) == Ascii("false")
    ensures Encode(Values.Null) == Ascii("null")
  {
  }

  /** `[0,1,2,3]`: items in index order, separated by commas, with no white
      space. */
  lemma EncodeIntList()
    ensures Encode(List([Int(0), Int(1), Int(2), Int(3)])) == Ascii("[0,1,2,3]")
  {
    var xs := [Int(0), Int(1), Int(2), Int(3)];
    var v := List(xs);
    assert EncodeItems(xs[3..], v) == [0x33];
    assert EncodeItems(xs[2..], v) == [0x32, COMMA, 0x33];
    assert EncodeItems(xs[1..], v) == [0x31, COMMA, 0x32, COMMA, 0x33];
  }

  /** Escaping works character by character: the escape of a concatenation
      is the concatenation of the escapes. */
  lemma {:induction false} EscapeTextAppend(a: Text, b: Text)
    ensures EscapeText(a + b) == EscapeText(a) + EscapeText(b)
    decreases |a|
  {
    if |a| == 0 {
      assert a + b == b;
    } else {
      assert (a + b)[0] == a[0] && (a + b)[1..] == a[1..] + b;
      assert EscapeText(a + b) == EscapeChar(a[0]) + EscapeText(a[1..] + b);
      EscapeTextAppend(a[1..], b);
    }
  }

  /** The escaped part of the string test: the tab as a backslash and `t`,
      and U+1234 as a backslash, `u` and `1234`. */
  lemma EscapeTabAndU1234(x: Text)
    requires x == [TAB, 0x1234]
    ensures EscapeText(x) == [BACKSLASH, LOWER_T, BACKSLASH, LOWER_U, 0x31, 0x32, 0x33, 0x34]
  {
    assert Hex4Lower(0x1234) == [0x31, 0x32, 0x33, 0x34];
    assert EscapeText(x[1..]) == [BACKSLASH, LOWER_U, 0x31, 0x32, 0x33, 0x34];
  }

  /** A code unit whose hexadecimal digits include letters is escaped with
      lower-case letters, as the format `x4` writes them: U+ABCD as a
      backslash, `u` and `abcd`. */
  lemma EscapeLowerHex()
    ensures EscapeChar(0xABCD) == [BACKSLASH, LOWER_U, 0x61, 0x62, 0x63, 0x64]
  {
    var c := 0xABCD;
    assert c / 0x1000 == 10 && c % 0x1000 / 0x100 == 11 && c % 0x100 / 16 == 12 && c % 16 == 13;
    assert Hex4Lower(c) == [0x61, 0x62, 0x63, 0x64];
  }

  /** The four digits keep their leading zeros: U+001F is escaped as a
      backslash, `u` and `001f`. */
  lemma EscapeLeadingZeros()
    ensures EscapeChar(0x1F) == [BACKSLASH, LOWER_U, 0x30, 0x30, 0x31, 0x66]
  {
    var c := 0x1F;
    assert c / 0x1000 == 0 && c % 0x1000 / 0x100 == 0 && c % 0x100 / 16 == 1 && c % 16 == 15;
    assert Hex4Lower(c) == [0x30, 0x30, 0x31, 0x66];
  }

  /** Plain text followed by a tab and U+1234, as in the encoder's and the
      decoder's string tests: the text is copied, the tab written as a
      backslash and `t`, and U+1234 as a backslash, `u` and `1234`. */
  lemma PlainThenEscapes(x: Text)
    requires forall k | 0 <= k < |x| :: IsPrintableAscii(x[k]) && x[k] != QUOTE && x[k] != BACKSLASH
    ensures EncodeString(x + [TAB, 0x1234])
         == [QUOTE] + x + [BACKSLASH, LOWER_T, BACKSLASH, LOWER_U, 0x31, 0x32, 0x33, 0x34, QUOTE]
  {
    EscapeTextAppend(x, [TAB, 0x1234]);
    PlainText(x);
    EscapeTabAndU1234([TAB, 0x1234]);
  }

  /** `Json.Encode` of `abc`, a tab and U+1234: quoted, with the tab and the
      non-ASCII character escaped. */
  lemma EncodeStringTest()
    ensures Encode(Str([0x61, 0x62, 0x63, TAB, 0x1234])) == Ascii("\"abc\\t\\u1234\"")
  {
    assert [0x61, 0x62, 0x63] + [TAB, 0x1234] == [0x61, 0x62, 0x63, TAB, 0x1234];
    PlainThenEscapes([0x61, 0x62, 0x63]);
  }

  /** Text that needs no escape, printable ASCII other than `"` and `\`,
      is copied into a string body literally. */
  lemma {:induction false} PlainText(x: Text)
    requires forall k | 0 <= k < |x| :: IsPrintableAscii(x[k]) && x[k] != QUOTE && x[k] != BACKSLASH
    ensures EscapeText(x) == x
    decreases |x|
  {
    if |x| > 0 {
      PlainText(x[1..]);
    }
  }

  lemma PlainString(x: Text)
    requires forall k | 0 <= k < |x| :: IsPrintableAscii(x[k]) && x[k] != QUOTE && x[k] != BACKSLASH
    ensures EncodeString(x) == [QUOTE] + x + [QUOTE]
  {
    PlainText(x);
  }

  /** The dictionary of the table test, in enumeration order. */
  const ABC_TABLE: seq<(Text, Value)> := [([0x61], Int(1)), ([0x62], Int(2)), ([0x63], Int(3))]

  /** `"key":n` for a one-letter key and a one-digit number. */
  lemma EntryText(key: CodeUnit, n: nat)
    requires 0x61 <= key <= 0x7A && n < 10
    ensures EncodeString([key]) + [COLON] + Encode(Int(n)) == [QUOTE, key, QUOTE, COLON, 0x30 + n]
  {
    PlainString([key]);
  }

  lemma TableTail()
    ensures EncodeEntries(ABC_TABLE[1..], Table(ABC_TABLE))
         == [QUOTE, 0x62, QUOTE, COLON, 0x32, COMMA, QUOTE, 0x63, QUOTE, COLON, 0x33]
  {
    var v := Table(ABC_TABLE);
    EntryText(0x62, 2);
    EntryText(0x63, 3);
    assert ABC_TABLE[1..][1..] == ABC_TABLE[2..];
    assert EncodeEntries(ABC_TABLE[2..], v) == [QUOTE, 0x63, QUOTE, COLON, 0x33];
  }

  lemma TableBody()
    ensures EncodeEntries(ABC_TABLE, Table(ABC_TABLE))
         == [QUOTE, 0x61, QUOTE, COLON, 0x31, COMMA, QUOTE, 0x62, QUOTE, COLON, 0x32, COMMA, QUOTE, 0x63, QUOTE, COLON, 0x33]
  {
    EntryText(0x61, 1);
    TableTail();
  }

  /** `{"a":1,"b":2,"c":3}`: entries in enumeration order as `"key":value`,
      separated by commas. */
  lemma EncodeTableTest()
    ensures Encode(Table(ABC_TABLE)) == Ascii("{\"a\":1,\"b\":2,\"c\":3}")
  {
    TableBody();
  }

  /** Two items are written with one comma between them. */
  lemma TwoItems(xs: seq<Value>, owner: Value)
    requires |xs| == 2 && xs[0] < owner && xs[1] < owner
    ensures EncodeItems(xs, owner) == Encode(xs[0]) + [COMMA] + Encode(xs[1])
  {
    assert xs[1..][0] == xs[1];
    assert EncodeItems(xs[1..], owner) == Encode(xs[1]);
  }

  lemma StringListBody(xs: seq<Value>)
    requires xs == [Str([0x78, 0x78, 0x78]), Str([0x79, 0x79, 0x79])]
    ensures EncodeItems(xs, List(xs)) == [QUOTE, 0x78, 0x78, 0x78, QUOTE, COMMA, QUOTE, 0x79, 0x79, 0x79, QUOTE]
  {
    TwoItems(xs, List(xs));
    PlainString([0x78, 0x78, 0x78]);
    PlainString([0x79, 0x79, 0x79]);
  }

  /** `["xxx","yyy"]`: a list of strings. */
  lemma EncodeStringList()
    ensures Encode(List([Str([0x78, 0x78, 0x78]), Str([0x79, 0x79, 0x79])])) == Ascii("[\"xxx\",\"yyy\"]")
  {
    StringListBody([Str([0x78, 0x78, 0x78]), Str([0x79, 0x79, 0x79])]);
  }
}
