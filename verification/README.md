# ObjectPack JSON codec, modelled in Dafny

This project models the text-processing core of ObjectPack, a small C# JSON
library. The core has five parts.

- **Tokenizer.** `JsonTokenizer` turns characters into `JsonToken`s.
- **Decoder.** `JsonDecoder` is a recursive-descent parser that hands every
  construction step to an `IObjectMapper`.
- **Generic mapper.** `CollectionMapper` builds a `Hashtable` for every object
  and an `ArrayList` for every array.
- **Encoder.** `JsonEncoder` writes a value as compact JSON.
- **`Json.Decode`.** The decoder driving the collection mapper.

The model is functional. Tokens, values and the decoder state are immutable
datatypes, and every operation is a pure function that returns a `Result`
instead of throwing.

## How the model is organised

- `chars.dfy`: characters are UTF-16 code units (`CodeUnit`, 0 to 0xFFFF),
  and text is a sequence of them.
  - A `\uXXXX` escape yields one code unit, which may be a lone surrogate.
  - Also defines the decimal and hexadecimal digit helpers.
- `values.dfy`: `Value` is what a token carries, what the mapper builds and
  what the encoder accepts.
  - Its kinds: null, boolean, integer (the `Int64` range), floating-point
    number, string, table (an `IDictionary` with string keys, in
    enumeration order), list, and record.
  - A record is an object with public fields and properties, already listed
    in declaration order, fields first.
  - A floating-point number is kept as its decimal lexeme.
- `tokens.dfy`: the eleven token kinds and the token record (kind, value,
  offset). `WellFormed` says which kinds carry a value.
- `errors.dfy`: each `JsonException` the core raises becomes a message kind
  plus a character offset.
- `tokenizer.dfy`: `ReadToken(s, pos)` reads one token from text `s` at cursor
  `pos`, and returns the token with the new cursor. The cursor counts the
  characters consumed, as `ReadChars`/`NextChar` do.
- `object_mapper.dfy`: the four mapper calls, as events. One decoding is the
  sequence (trace) of events it issues.
  - The container a create call returns is named by its handle.
  - The handle is the index of that create event in the trace.
- `decoder.dfy`: the decoder over an abstract token reader.
  - The state is the cursor, the trace, the current target and the current
    property name.
  - Termination is by characters remaining; every token except End consumes
    at least one character.
  - `TokenReader(s)` instantiates the reader with the tokenizer.
- `collection_mapper.dfy`: the collection mapper as a fold of the trace over a
  heap of containers. A failing call stops the fold, as the exception
  `Hashtable.Add` throws does.
- `codec.dfy`: `Decode(s)` is `Json.Decode(s)`. `DecodeEncode` is the round
  trip from the encoder through the decoder and the collection mapper.
- `decoder_facts.dfy`: the decoder's grammar, stated on any reader.
  - Trailing, leading and doubled commas; missing colons and separators.
  - The context in which each container is created.
- `tokenizer_facts.dfy`, `encoder_facts.dfy`, `codec_cases.dfy`:
  - the unit tests of the source, as lemmas;
  - general facts about end of input, unclosed strings, escaping and
    records;
  - three edge cases: a trailing comma, a duplicated key, and a second
    top-level value.
- Proof layers of the round trip:
  - `token_roundtrip.dfy`: the tokenizer reads back each encoded primitive.
  - `walk.dfy` and `lex.dfy`: the tokenizer yields exactly the token
    sequence of an encoded value.
  - `decode_walk.dfy`: the decoder turns that sequence into the calls of
    the value.
  - `build.dfy`: the collection mapper rebuilds the value from those calls.
  - `decoded_range.dfy`: every decoded value is one this round trip covers,
    so decoding, re-encoding and decoding again is stable.

Four behaviours of the code worth knowing:

- **Token offsets.** Which offset a token carries depends on its kind.
  - String and number tokens carry the offset where they start.
  - Structural, boolean and null tokens carry the offset just after them.
  - The End token carries the end of the input.
- **Duplicate keys.** An object that repeats a key is an error.
  `CollectionMapper.SetProperty` uses `Hashtable.Add`, which throws; it is
  not last-write-wins.
- **Form feed.** It is not white space between tokens: it is an unexpected
  character.
- **Failure order.** Mapper calls are interleaved with reading, so a
  duplicate key is reported even when a syntax error follows it later in the
  text.

## Model

| member | source | states |
|---|---|---|
| Tokenizer.SkipWhiteSpace | ObjectPack/ObjectPack/JsonTokenizer.cs:72-82 | the cursor after the leading run of white space: every skipped character is white space and the next is not, or the input ends |
| Tokenizer.NumberRunEnd | ObjectPack/ObjectPack/JsonTokenizer.cs:157-160 | the end of the maximal run of `+ - . e E` and digits: every character in the run is a number character and the one after is not |
| Tokenizer.ParseInt32 | ObjectPack/ObjectPack/JsonTokenizer.cs:170-173 | `int.TryParse`: a parsed value always fits in 32 bits, and a run that parses starts with a digit or a sign |
| TokenizerFacts.ParseDigits | ObjectPack/ObjectPack/JsonTokenizer.cs:170-173 | an unsigned run of digits, leading zeros allowed, parses to its decimal value exactly when that value fits in 32 bits |
| TokenizerFacts.ParsePlusSign | ObjectPack/ObjectPack/JsonTokenizer.cs:170-173 | a `+` sign before digits changes nothing |
| TokenizerFacts.ParseMinusSign | ObjectPack/ObjectPack/JsonTokenizer.cs:170-173 | a `-` sign before digits negates their value, which parses exactly when the negation fits in 32 bits |
| TokenizerFacts.ParseLeadingZero | ObjectPack/ObjectPack/JsonTokenizer.cs:170-173 | a leading zero before digits changes nothing |
| TokenizerFacts.ParsePlusFive | ObjectPack/ObjectPack/JsonTokenizer.cs:170-173 | `+5` is 5 |
| TokenizerFacts.ParseZerosSeven | ObjectPack/ObjectPack/JsonTokenizer.cs:170-173 | `007` is 7 |
| TokenizerFacts.ParseSignEdges | ObjectPack/ObjectPack/JsonTokenizer.cs:170-173 | `-0` is 0, while `+-5` and a lone `-` do not parse |
| Tokenizer.ReadNumber | ObjectPack/ObjectPack/JsonTokenizer.cs:166-179 | a number token is the whole run, stamped at its start. It is an integer exactly when the run parses as Int32; otherwise it is a float, holding the run, exactly when the run is a float lexeme. Otherwise it fails with "Incorrect number format" at the start |
| Tokenizer.ReadEscapeSequence | ObjectPack/ObjectPack/JsonTokenizer.cs:211-242 | an escape succeeds exactly when its letter is one of `" \ / b f n r t` (one character consumed), or `u` followed by four hex digits (five consumed, giving their value). Otherwise it fails at the letter: an incorrect unicode escape after `u`, an incorrect escape otherwise |
| Tokenizer.StringChar | ObjectPack/ObjectPack/JsonTokenizer.cs:191-203 | any character but a backslash is taken literally, control characters included. A backslash starts an escape, whose failure is a string error reported after the backslash |
| Tokenizer.Unescape | ObjectPack/ObjectPack/JsonTokenizer.cs:216-232 | no contract of its own: the one-letter escape table, specified against the encoder's escapes by TokenRoundTrip.EscapeTableMirrorsUnescape and TokenRoundTrip.UnescapeInvertsEscape |
| Tokenizer.ReadStringBody | ObjectPack/ObjectPack/JsonTokenizer.cs:190-204 | a string body ends just after a quote. Any failure is a string error inside the token, and "Unclosed string" is always reported at the opening quote. Which text it returns is stated by TokenizerFacts.PlainBody and TokenRoundTrip.StringRoundTrip |
| Tokenizer.ReadString | ObjectPack/ObjectPack/JsonTokenizer.cs:185-205 | a string token is stamped at its opening quote, carries a string, and ends after a closing quote; any failure is a string error |
| Tokenizer.ReadKeyword | ObjectPack/ObjectPack/JsonTokenizer.cs:248-260 | a keyword is read exactly when the next characters are the keyword, consuming its length. Otherwise, a short read at the end of input included, it fails with "Incorrect keyword" at its start |
| Tokenizer.TokenAt | ObjectPack/ObjectPack/JsonTokenizer.cs:92-139 | the token at a non-white-space character is well formed, consumes at least one character and is never End. A character that starts no token fails with "Unexpected char" at its own offset, and only such a character does |
| Tokenizer.ReadToken | ObjectPack/ObjectPack/JsonTokenizer.cs:88-140 | tokens are well formed and the cursor never moves back. The token is End exactly when only white space remains; End sits at the end of the input, so repeated reads keep returning it there. Any other token consumes at least one character past the white space, and errors are reported at or after it |
| TokenizerFacts.EndOfInput | ObjectPack/ObjectPack/JsonTokenizer.cs:90-94 | after trailing white space, the token is End at the input's end, the same as a read at the end itself |
| TokenizerFacts.SkipOne | ObjectPack/ObjectPack/JsonTokenizer.cs:147-150 | a white-space character before a token changes nothing about the token read |
| TokenizerFacts.UnclosedBody | ObjectPack/ObjectPack/JsonTokenizer.cs:196-198 | plain characters followed by the end of input, a raw CR or a raw LF make the string unclosed, reported at its opening quote |
| TokenizerFacts.PlainBody | ObjectPack/ObjectPack/JsonTokenizer.cs:190-204 | a body of characters other than a quote, a backslash, CR and LF, closed by a quote, is taken verbatim, control characters included, and the first such quote ends it |
| TokenizerFacts.PlainStringAt | ObjectPack/ObjectPack/JsonTokenizer.cs:185-205 | a quoted run of such characters is one string token holding exactly them, stamped at the opening quote, with the cursor after the closing quote |
| TokenizerFacts.UnclosedStringAt | ObjectPack/ObjectPack/JsonTokenizer.cs:185-198 | a quote followed by plain characters and then a line break or the end of input fails with "Unclosed string" at the quote |
| TokenizerFacts.FormFeedIsNotWhiteSpace | ObjectPack/ObjectPack/JsonTokenizer.cs:137-150 | a form feed is not skipped: it fails with "Unexpected char" at its offset |
| TokenizerFacts.NumberTestFirst | ObjectPack/ObjectPackTest/JsonTokenizerTest.cs:14-17 | `0.1234` is a floating-point number token stamped at 0 |
| TokenizerFacts.NumberTestSecond | ObjectPack/ObjectPackTest/JsonTokenizerTest.cs:18-20 | after a space, `1234` is the integer 1234, stamped where it starts |
| TokenizerFacts.NumberTestThird | ObjectPack/ObjectPackTest/JsonTokenizerTest.cs:21-23 | `0.12e-5` is a floating-point number token holding its whole run |
| TokenizerFacts.MalformedNumber | ObjectPack/ObjectPackTest/JsonTokenizerTest.cs:25-28 | `12.12.12` fails with "Incorrect number format" at 0 |
| TokenizerFacts.StringTest | ObjectPack/ObjectPackTest/JsonTokenizerTest.cs:34-37 | the quoted `abc`, a backslash-n escape and a backslash-u escape of 3042 read as the five code units a, b, c, LF, U+3042 |
| TokenizerFacts.UnclosedStringTest | ObjectPack/ObjectPackTest/JsonTokenizerTest.cs:39-42 | `"unclosed string` fails as an unclosed string at 0 |
| TokenizerFacts.BadUnicodeTest | ObjectPack/ObjectPackTest/JsonTokenizerTest.cs:44-47 | a quote, then a backslash-u escape of BADB, then `AD` fails as an unclosed string at 0: the escape is valid and the input ends before a closing quote |
| TokenizerFacts.KeywordTestTrue | ObjectPack/ObjectPackTest/JsonTokenizerTest.cs:55 | `true` is a boolean token stamped after the keyword |
| TokenizerFacts.KeywordTestFalse | ObjectPack/ObjectPackTest/JsonTokenizerTest.cs:57 | `false` is a boolean token stamped after the keyword |
| TokenizerFacts.KeywordTestNull | ObjectPack/ObjectPackTest/JsonTokenizerTest.cs:59 | `null` is a null token stamped after the keyword |
| TokenizerFacts.KeywordTestSeparators | ObjectPack/ObjectPackTest/JsonTokenizerTest.cs:53-60 | `[` and each `,` consume one character and are stamped after it |
| TokenizerFacts.KeywordTestBrackets | ObjectPack/ObjectPackTest/JsonTokenizerTest.cs:61-63 | `{`, `}` and `]` each consume one character, and then End follows |
| TokenizerFacts.ShortKeyword | ObjectPack/ObjectPack/JsonTokenizer.cs:252-259 | `tru` at the end of input is an incorrect keyword at 0 |
| Decoder.DecodeElement | ObjectPack/ObjectPack/JsonDecoder.cs:57-72 | a number, string, boolean or null token is its own value, with no mapper call and no state change. `{` or `[` first creates an object or array in the current context, and returns that container with the context restored. Any other token is an unexpected token at its offset |
| Decoder.DecodeObject | ObjectPack/ObjectPack/JsonDecoder.cs:78-127 | the object is created in the current context before any key is read. It is returned with the target and property name restored, and the cursor and trace only move forward |
| Decoder.ObjectMembers | ObjectPack/ObjectPack/JsonDecoder.cs:88-120 | reading members only moves the cursor forward and only appends mapper calls, and leaves the target as it was |
| Decoder.DecodeArray | ObjectPack/ObjectPack/JsonDecoder.cs:133-173 | the array is created in the current context, and returned with the target and property name restored |
| Decoder.ArrayElements | ObjectPack/ObjectPack/JsonDecoder.cs:147-166 | reading elements only moves the cursor forward and only appends mapper calls, and leaves the context as it was |
| Decoder.DecodeDocument | ObjectPack/ObjectPack/JsonDecoder.cs:43-50 | a decoded document is followed by the End token, with the root context (no target, no name) restored |
| Decoder.TokenReaderValid | ObjectPack/ObjectPack/JsonTokenizer.cs:50-65 | the tokenizer's cursor stays within the input, never decreases, and advances past every token but End |
| Decoder.DecodeText | ObjectPack/ObjectPack/JsonDecoder.cs:22-50 | decoding a text leaves only white space after the cursor it stops at |
| DecoderFacts.TrailingContent | ObjectPack/ObjectPack/JsonDecoder.cs:43-48 | whatever the top-level element is, a token other than End after it is a syntax error at the tokenizer's position after that token, with the element's mapper calls kept |
| DecoderFacts.ArrayTrailingComma | ObjectPack/ObjectPack/JsonDecoder.cs:149-165 | after any element, literal or container, `,]` is accepted, and the element is appended exactly once, after all the mapper calls its decoding made |
| DecoderFacts.ArrayEmpty | ObjectPack/ObjectPack/JsonDecoder.cs:149-152 | `[]` is accepted with no mapper call for elements |
| DecoderFacts.ArrayLeadingComma | ObjectPack/ObjectPack/JsonDecoder.cs:149-153 | `[,` is an unexpected token at the comma |
| DecoderFacts.ArrayDoubledComma | ObjectPack/ObjectPack/JsonDecoder.cs:149-165 | after any element, `,,` is an unexpected token at the second comma, after that element was appended |
| DecoderFacts.ArrayMissingSeparator | ObjectPack/ObjectPack/JsonDecoder.cs:149-165 | after any element, anything but `,` or `]` is "',' or ']' expected" at that token, after the element was appended |
| DecoderFacts.ObjectTrailingComma | ObjectPack/ObjectPack/JsonDecoder.cs:88-120 | after any member value, literal or container, `,}` is accepted, and the entry is set exactly once, under its key, on the enclosing object, after all the mapper calls the value's decoding made |
| DecoderFacts.ObjectEmpty | ObjectPack/ObjectPack/JsonDecoder.cs:90-93 | `{}` is accepted with no mapper call for members |
| DecoderFacts.ObjectKeyNotString | ObjectPack/ObjectPack/JsonDecoder.cs:94-96 | where a key is expected, any token but a string or `}` is "JSON keys must be strings" at that token |
| DecoderFacts.ObjectMissingColon | ObjectPack/ObjectPack/JsonDecoder.cs:100-103 | a key not followed by `:` is "':' expected" at that token |
| DecoderFacts.ObjectMissingSeparator | ObjectPack/ObjectPack/JsonDecoder.cs:94-119 | after any member value, anything but `,` or `}` is "',' or '}' expected" at that token, after the entry has been set |
| DecoderFacts.RootContext | ObjectPack/ObjectPack/JsonDecoder.cs:26-27 | the root container is created first, with no target and no property name |
| DecoderFacts.MemberContext | ObjectPack/ObjectPack/JsonDecoder.cs:97-106 | a container that is a member's value is created with the enclosing object as target and the key as property name |
| DecoderFacts.ElementContext | ObjectPack/ObjectPack/JsonDecoder.cs:147-166 | a container that is an array element, at any position, is created with the array as target and no property name |
| CollectionMapper.CreateObject | ObjectPack/ObjectPack/CollectionMapper.cs:18-21 | whatever the target and name, a fresh empty table appears under the new handle, and every other container is unchanged |
| CollectionMapper.CreateArray | ObjectPack/ObjectPack/CollectionMapper.cs:40-43 | whatever the target and name, a fresh empty list appears under the new handle, and every other container is unchanged |
| CollectionMapper.SetProperty | ObjectPack/ObjectPack/CollectionMapper.cs:29-32 | it succeeds exactly when the target is a table, the name is present and new, and the value resolves. The entry is then appended verbatim and only the target changes. A key already present is a duplicate-key error, and a non-table target is an invalid target |
| CollectionMapper.AddElement | ObjectPack/ObjectPack/CollectionMapper.cs:50-53 | it succeeds exactly when the target is a list and the element resolves. The element is then appended verbatim at the end, earlier elements are kept in order, and only the target changes |
| CollectionMapper.Apply | ObjectPack/ObjectPack/IObjectMapper.cs:7-36 | one mapper call keeps every handle below the next fresh one and never removes a container; only a create call adds one, and a create call never fails |
| CollectionMapper.Replay | ObjectPack/ObjectPack/JsonDecoder.cs:85-156 | replaying the mapper calls in order keeps every existing container and uses only handles below the next fresh one |
| CollectionMapper.ReplayAppend | ObjectPack/ObjectPack/JsonDecoder.cs:85-156 | replaying two call sequences one after the other is replaying their concatenation; a failure in the first stops the second |
| Codec.Decode | ObjectPack/ObjectPack/Json.cs:33-36 | a decoded text was fully consumed, and its mapper calls all succeeded. A syntax error is reported only when every mapper call before it succeeded; a failing mapper call is reported first |
| Codec.DecodeEncode | ObjectPack/ObjectPack/JsonEncoder.cs:26-46 | every value the collection mapper can give back is encoded and decoded to itself |
| DecodedRange.DecodedIsDecodable | ObjectPack/ObjectPack/JsonDecoder.cs:43-173 | every decoded value has 32-bit integers, float lexemes the tokenizer accepts, tables with distinct keys and no record |
| DecodedRange.ReencodeDecoded | ObjectPack/ObjectPack/Json.cs:33-58 | encoding a decoded value and decoding the result gives the same value |
| DecodedRange.TokenDecodable | ObjectPack/ObjectPack/JsonTokenizer.cs:166-179 | every token value the tokenizer yields is a 32-bit integer, an accepted float lexeme, a string, a boolean or null |
| DecodedRange.ApplyDecodable | ObjectPack/ObjectPack/CollectionMapper.cs:29-32 | the mapper never lets a table hold a key twice, so containers built from decodable calls stay decodable |
| DecodedRange.ElementDecodable | ObjectPack/ObjectPack/JsonDecoder.cs:57-72 | the decoder hands the mapper only token values and containers it created |
| Encoder.EscapeChar | ObjectPack/ObjectPack/JsonEncoder.cs:105-125 | an escape is one, two or six printable ASCII characters, starting with a backslash unless it is one. A character is copied as itself exactly when it is printable ASCII other than `"` and `\`; it gets a two-character escape exactly when it is `"`, `\`, backspace, form feed, LF, CR or tab; any other is `\u` and its four lower-case hex digits |
| Encoder.EscapeText | ObjectPack/ObjectPack/JsonEncoder.cs:94-96 | an escaped string body is printable ASCII only, so it contains no raw CR or LF, and it is no shorter than the string |
| Encoder.EncodeString | ObjectPack/ObjectPack/JsonEncoder.cs:91-98 | an encoded string is wrapped in quotes and holds only characters from 0x20 to 0x7F |
| Encoder.IntText | ObjectPack/ObjectPack/JsonEncoder.cs:131-139 | an integer is written as its decimal digits, after a `-` when it is negative |
| Encoder.Encode | ObjectPack/ObjectPack/JsonEncoder.cs:26-46 | no contract of its own: what it writes is specified by reading it back, Codec.DecodeEncode, and by EncoderFacts.RecordEncodesAsTable and the encoder's unit tests |
| Encoder.EncodeEntries | ObjectPack/ObjectPack/JsonEncoder.cs:69-85 | no contract of its own: specified by Codec.DecodeEncode through LexRoundTrip.WalkEncoded, and by EncoderFacts.EncodeTableTest |
| Encoder.EncodeItems | ObjectPack/ObjectPack/JsonEncoder.cs:52-63 | no contract of its own: specified by Codec.DecodeEncode through LexRoundTrip.WalkEncoded, and by EncoderFacts.EncodeIntList |
| Chars.Hex4Lower | ObjectPack/ObjectPack/JsonEncoder.cs:123 | `ToString("x4")`: four hex digits, digits or lower-case letters only, whose value is the code unit |
| EncoderFacts.EscapeTextAppend | ObjectPack/ObjectPack/JsonEncoder.cs:94-96 | escaping works character by character: the escape of a concatenation is the concatenation of the escapes |
| EncoderFacts.PlainText | ObjectPack/ObjectPack/JsonEncoder.cs:122-123 | printable ASCII other than `"` and `\` is copied unchanged |
| EncoderFacts.RecordEncodesAsTable | ObjectPack/ObjectPack/JsonEncoder.cs:154-184 | an object is written exactly as the dictionary of its fields followed by its properties |
| EncoderFacts.EncodeInt | ObjectPack/ObjectPackTest/JsonEncoderTest.cs:13 | 1234 is written as `1234` |
| EncoderFacts.EncodeKeywords | ObjectPack/ObjectPackTest/JsonEncoderTest.cs:15-17 | true, false and null are written as `true`, `false` and `null` |
| EncoderFacts.EncodeStringTest | ObjectPack/ObjectPackTest/JsonEncoderTest.cs:14 | `abc`, a tab and U+1234 are written as the quoted `abc`, a backslash-t escape and a backslash-u escape of 1234 in lower-case hex |
| EncoderFacts.EscapeLowerHex | ObjectPack/ObjectPack/JsonEncoder.cs:123 | U+ABCD is escaped with lower-case letters as `\uabcd` |
| EncoderFacts.EscapeLeadingZeros | ObjectPack/ObjectPack/JsonEncoder.cs:123 | U+001F is escaped with its leading zeros as `\u001f` |
| EncoderFacts.EncodeIntList | ObjectPack/ObjectPackTest/JsonEncoderTest.cs:23 | a list is written as `[0,1,2,3]`: items in order, comma-separated, with no white space |
| EncoderFacts.EncodeStringList | ObjectPack/ObjectPackTest/JsonEncoderTest.cs:25 | a list of strings is written as `["xxx","yyy"]` |
| EncoderFacts.EncodeTableTest | ObjectPack/ObjectPackTest/JsonEncoderTest.cs:32-36 | a dictionary is written as `{"a":1,"b":2,"c":3}`: entries in enumeration order, keys as strings |
| TokenRoundTrip.EscapeTableMirrorsUnescape | ObjectPack/ObjectPack/JsonEncoder.cs:105-125 | every two-character escape the encoder writes is one the tokenizer unescapes to the original character, and every `\u` escape holds four hex digits of its value |
| TokenRoundTrip.UnescapeInvertsEscape | ObjectPack/ObjectPack/JsonTokenizer.cs:216-232 | conversely, every one-letter escape the tokenizer reads is the escape the encoder writes for the character it stands for, except `\/`, since the encoder writes `/` as itself |
| TokenRoundTrip.ReadEscapedChar | ObjectPack/ObjectPack/JsonTokenizer.cs:199-203 | the escape the encoder writes for a character is read back as that character, consuming exactly the escape |
| TokenRoundTrip.StringRoundTrip | ObjectPack/ObjectPack/JsonTokenizer.cs:185-205 | tokenizing an encoded string gives one string token holding exactly the original string, ending after the encoding |
| TokenRoundTrip.ParseIntText | ObjectPack/ObjectPack/JsonEncoder.cs:131-139 | `int.TryParse` reads back the decimal text `Int64.ToString` writes for every 32-bit integer |
| TokenRoundTrip.IntRoundTrip | ObjectPack/ObjectPack/JsonTokenizer.cs:166-173 | tokenizing an encoded 32-bit integer gives back that integer, stamped at its start |
| TokenRoundTrip.FloatRoundTrip | ObjectPack/ObjectPack/JsonTokenizer.cs:174-176 | tokenizing an accepted floating-point lexeme gives back that lexeme, stamped at its start |
| TokenRoundTrip.BoolRoundTrip | ObjectPack/ObjectPack/JsonTokenizer.cs:128-133 | tokenizing `true` or `false` gives back the boolean, stamped after the keyword |
| TokenRoundTrip.NullRoundTrip | ObjectPack/ObjectPack/JsonTokenizer.cs:134-136 | tokenizing `null` gives back a null token, stamped after the keyword |
| TokenRoundTrip.StructuralToken | ObjectPack/ObjectPack/JsonTokenizer.cs:110-127 | each of `{ } [ ] : ,` consumes exactly one character and is stamped after it, with no value |
| LexRoundTrip.WalkEncoded | ObjectPack/ObjectPack/JsonEncoder.cs:26-85 | over the encoding of a decodable value, the tokenizer yields exactly that value's tokens and stops at the end of the encoding |
| DecodeRoundTrip.DecodeElementWalk | ObjectPack/ObjectPack/JsonDecoder.cs:57-173 | on a value's tokens, the decoder returns that value (or its container), ends at its last token, keeps the context, and issues the value's calls in document order, one SetProperty per entry and one AddElement per item |
| BuildRoundTrip.EmitBuilds | ObjectPack/ObjectPack/CollectionMapper.cs:18-53 | replaying a value's calls rebuilds the value and leaves every earlier container unchanged |
| BuildRoundTrip.ReplaySnoc | ObjectPack/ObjectPack/JsonDecoder.cs:106-109 | one more mapper call is applied to the heap built so far, and a failure stays a failure |
| CodecCases.TrailingCommaInArray | ObjectPack/ObjectPack/JsonDecoder.cs:150-151 | `[1,]` decodes to the list holding 1 |
| CodecCases.DuplicateKeyRejected | ObjectPack/ObjectPack/CollectionMapper.cs:31 | `{"a":1,"a":2}` is well formed, but decoding fails with a duplicate-key error for `a` |
| CodecCases.TrailingValue | ObjectPack/ObjectPack/JsonDecoder.cs:46-48 | `1 2` fails with a syntax error at 3, the position after the second value |
| CodecCases.DecodeFloatTest | ObjectPack/ObjectPackTest/JsonDecoderTest.cs:13 | `0.12` decodes to the floating-point number `0.12` |
| CodecCases.DecodeIntTest | ObjectPack/ObjectPackTest/JsonDecoderTest.cs:14 | `1234` decodes to the integer 1234 |
| CodecCases.DecodeStringTest | ObjectPack/ObjectPackTest/JsonDecoderTest.cs:15 | the quoted `xyz`, a backslash-t escape and a backslash-u escape of 1234 decode to x, y, z, tab, U+1234 |
| CodecCases.DecodeTrueTest | ObjectPack/ObjectPackTest/JsonDecoderTest.cs:16 | `true` decodes to true |
| CodecCases.DecodeFalseTest | ObjectPack/ObjectPackTest/JsonDecoderTest.cs:17 | `false` decodes to false |
| CodecCases.DecodeNullTest | ObjectPack/ObjectPackTest/JsonDecoderTest.cs:18 | `null` decodes to null |
| CodecCases.DecodeIntListTest | ObjectPack/ObjectPack/JsonDecoder.cs:147-166 | `[0,1,2,3]` decodes with the collection mapper to the list of those four integers |

## Left out

- Reflection-driven mapping: `ReflectionMapper`, `ReflectionUtils` and
  `TypeUtils`. These are reflection and type-coercion glue, not part of the
  text core.
  - So `Json.Decode<T>` is left out, including the typed decode of a struct
    and of `List<int>` in the decoder tests.
  - `ReflectionMapper` also calls a `ReflectionUtils.SetProperty` that
    ReflectionUtils.cs does not define.
- Discovery of fields and properties by reflection. A record is given as its
  ordered list of (name, value) pairs, fields first.
- `TextReader`, `TextWriter` and `StringBuilder` plumbing. Text goes in and
  out as code-unit sequences.
- Tokenizer.ReadNumber: the floating-point branch uses a syntactic predicate
  for the lexemes `double.TryParse` accepts.
  - The predicate is: optional sign, digits with at most one decimal point,
    and an optional exponent. It assumes a culture whose decimal separator
    is `.`.
  - It does not compute the double itself.
  - It does not model whether an out-of-range exponent overflows to infinity
    or is rejected, which depends on the .NET version.
- Codec.DecodeEncode: stated for the values `Json.Decode` can return. Those
  have 32-bit integers, tokenizer-accepted float lexemes, tables with
  distinct keys and no record. A record comes back as a table with the same
  text (see EncoderFacts.RecordEncodesAsTable).
- Encoder.IntText: writes an ASCII `-` before a negative integer. This
  assumes the current culture's negative sign is `-`: `Int64.ToString()`
  (JsonEncoder.cs:137) uses that sign. Some ICU cultures on .NET 5 and
  later use U+2212 instead. There the program writes U+2212 before the
  digits, and its own tokenizer rejects that character as "Unexpected
  char". So the negative-integer case of Codec.DecodeEncode, and
  TokenRoundTrip.ParseIntText, hold only under this assumption.
- Tokenizer.ParseInt32: accepts an ASCII `-` or `+` sign, which assumes the
  same culture. `int.TryParse` (JsonTokenizer.cs:171) reads the current
  culture's signs.
- Encoder.EncodeEntries: a table stands for a dictionary whose keys are
  strings. `EncodeDictionary` casts every key to `string` (JsonEncoder.cs:80).
  So a dictionary with other keys, `Dictionary<int, int>` say, makes the
  encoder throw `InvalidCastException`. A `Value` cannot express such a
  dictionary, so that error path is not modelled.
- Codec.DecodeEncode: a float is written as its lexeme, so the round trip
  gives back the same float. The program writes `double.ToString()`
  instead: `1.0` is written as `1` and read back as the integer 1, and
  `0.12e-5` is written as `1.2E-06`. So for floats the program's round trip
  keeps at most the number's value, and an integral float becomes an
  integer. The model does not state that weaker property.
- DecodedRange.ReencodeDecoded: for the same reason, a decoded float is
  re-encoded as its own lexeme. In the program a decoded `1.0` is
  re-encoded as `1` and decodes again as the integer 1.
- Encoder.Encode: it writes a floating-point number as its lexeme, not
  through `double.ToString`. This is why the encoder test with `0.12` and
  the list of doubles are not stated, nor the float values in the record
  encoder test.
- `EncodeNumber` on an unsigned 64-bit value above the `Int64` range makes
  `Convert.ToInt64` throw. Integers are modelled in the `Int64` range only.
- .NET quirks:
  - `Convert.ToInt32(_, 16)` also accepts a `0x` prefix or a `+` sign inside a
    `\u` escape. The model demands exactly four hex digits.
  - `ReadBlock` pads a short read at the end of input with `'\0'`. The model
    treats a short keyword as a mismatch ("Incorrect keyword"), which is
    what the padding produces. The "Unexpected end of file" branch cannot be
    reached.
- `JsonException` message formatting. An error is a message kind and an
  offset.
- Hashtable enumeration order. A table keeps its entries in the order they
  were set, which stands for whatever order the dictionary enumerates.
- Sharing: a child container is attached to its parent by value. The decoder
  never addresses a container again once it is attached, so this cannot be
  told apart from the reference the source attaches.
- Token immutability and the token constructor (`JsonToken`) are datatype
  properties in Dafny. They need no separate contract.
- Encoder dispatch order: `Value`'s kinds are disjoint, so which check the
  encoder tries first (dictionary, list, string, number, boolean, object)
  cannot change the outcome. No separate member states it.
