/** The encoder: writes a value as compact JSON text, choosing the form by the
    value's kind and recursing into containers and records. */
module Encoder {
  import opened Chars
  import opened Values

  /** One character of a string body: the two-character escapes for `"`, `\`,
      backspace, form feed, LF, CR and tab; 0x20 to 0x7F (DEL included) as
      itself; anything else as `\u` and four lower-case hexadecimal digits. */
  function EscapeChar(c: CodeUnit): (t: Text)
    ensures |t| == 1 || |t| == 2 || |t| == 6
    ensures forall k | 0 <= k < |t| :: IsPrintableAscii(t[k])
    ensures |t| == 1 <==> IsPrintableAscii(c) && c != QUOTE && c != BACKSLASH
    ensures |t| == 1 ==> t[0] == c
    ensures |t| > 1 ==> t[0] == BACKSLASH
    ensures |t| == 2 <==>
      c == QUOTE || c == BACKSLASH || c == BACKSPACE || c == FORMFEED || c == LF || c == CR || c == TAB
    ensures |t| == 6 ==> t[1] == LOWER_U && t[2..] == Hex4Lower(c)
  {
    if c == QUOTE then [BACKSLASH, QUOTE]
    else if c == BACKSLASH then [BACKSLASH, BACKSLASH]
    else if c == BACKSPACE then [BACKSLASH, LOWER_B]
    else if c == FORMFEED then [BACKSLASH, LOWER_F]
    else if c == LF then [BACKSLASH, LOWER_N]
    else if c == CR then [BACKSLASH, LOWER_R]
    else if c == TAB then [BACKSLASH, LOWER_T]
    else if IsPrintableAscii(c) then [c]
    else [BACKSLASH, LOWER_U] + Hex4Lower(c)
  }

  /** The escaped characters of a string, in order. */
  function EscapeText(s: Text): (t: Text)
    ensures |t| >= |s|
    ensures forall k | 0 <= k < |t| :: IsPrintableAscii(t[k])
    decreases |s|
  {
    if |s| == 0 then [] else EscapeChar(s[0]) + EscapeText(s[1..])
  }

  /** A quoted string whose body holds only 0x20 to 0x7F, so no raw CR or LF. */
  function EncodeString(s: Text): (t: Text)
    ensures |t| >= 2 && t[0] == QUOTE && t[|t| - 1] == QUOTE
    ensures forall k | 0 <= k < |t| :: IsPrintableAscii(t[k])
  {
    [QUOTE] + EscapeText(s) + [QUOTE]
  }

  /** An integral number in decimal, as `Int64.ToString()` writes it. */
  function IntText(i: int): (t: Text)
    ensures |t| > 0
    ensures i >= 0 ==> AllDigits(t) && DecimalValue(t) == i
    ensures i < 0 ==> t[0] == MINUS && AllDigits(t[1..]) && DecimalValue(t[1..]) == -i
  {
    if i < 0 then
      var t := [MINUS] + DecimalText(-i);
      assert t[1..] == DecimalText(-i);
      DecimalRoundTrip(-i);
      t
    else
      DecimalRoundTrip(i);
      DecimalText(i)
  }

  /** A value as compact JSON: `null`, a table or record as `{"key":value,...}`,
      a list as `[value,...]`, a string quoted and escaped, a number, or
      `true`/`false`. A record writes its fields, then its properties. */
  function Encode(v: Value): Text
    decreases v
  {
    match v
    case Null => NULL_TEXT
    case Table(es) => [LBRACE] + EncodeEntries(es, v) + [RBRACE]
    case List(xs) => [LBRACKET] + EncodeItems(xs, v) + [RBRACKET]
    case Str(s) => EncodeString(s)
    case Int(i) => IntText(i)
    case Float(lexeme) => lexeme
    case Bool(b) => if b then TRUE_TEXT else FALSE_TEXT
    case Record(fields, properties) => [LBRACE] + EncodeEntries(fields + properties, v) + [RBRACE]
  }

  /** `"key":value` for each entry, separated by commas. The entries belong
      to `owner`, which only bounds the recursion. */
  function EncodeEntries(es: seq<(Text, Value)>, ghost owner: Value): Text
    requires forall k | 0 <= k < |es| :: es[k].1 < owner
    decreases owner, |es|
  {
    if |es| == 0 then []
    else
      var entry := EncodeString(es[0].0) + [COLON] + Encode(es[0].1);
      if |es| == 1 then entry else entry + [COMMA] + EncodeEntries(es[1..], owner)
  }

  /** Each item's encoding, separated by commas. The items belong to `owner`,
      which only bounds the recursion. */
  function EncodeItems(xs: seq<Value>, ghost owner: Value): Text
    requires forall k | 0 <= k < |xs| :: xs[k] < owner
    decreases owner, |xs|
  {
    if |xs| == 0 then []
    else if |xs| == 1 then Encode(xs[0])
    else Encode(xs[0]) + [COMMA] + EncodeItems(xs[1..], owner)
  }
}
