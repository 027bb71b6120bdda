/** Characters of a .NET string: UTF-16 code units, the character classes the
    codec tests for, and the decimal and hexadecimal digit conversions that
    `int.TryParse`, `Int64.ToString`, `Convert.ToInt32(_, 16)` and
    `ToString("x4")` perform. */
module Chars {

  /** One UTF-16 code unit. A lone surrogate is a legal code unit, which is why
      the model does not use Dafny's `char`. */
  type CodeUnit = c: int | 0 <= c < 0x1_0000

  /** The contents of a .NET `string`. */
  type Text = seq<CodeUnit>

  const BACKSPACE: CodeUnit := 0x08
  const TAB: CodeUnit := 0x09
  const LF: CodeUnit := 0x0A
  const FORMFEED: CodeUnit := 0x0C
  const CR: CodeUnit := 0x0D
  const SPACE: CodeUnit := 0x20
  const QUOTE: CodeUnit := 0x22
  const PLUS: CodeUnit := 0x2B
  const COMMA: CodeUnit := 0x2C
  const MINUS: CodeUnit := 0x2D
  const DOT: CodeUnit := 0x2E
  const SLASH: CodeUnit := 0x2F
  const COLON: CodeUnit := 0x3A
  const UPPER_E: CodeUnit := 0x45
  const LBRACKET: CodeUnit := 0x5B
  const BACKSLASH: CodeUnit := 0x5C
  const RBRACKET: CodeUnit := 0x5D
  const LOWER_B: CodeUnit := 0x62
  const LOWER_E: CodeUnit := 0x65
  const LOWER_F: CodeUnit := 0x66
  const LOWER_N: CodeUnit := 0x6E
  const LOWER_R: CodeUnit := 0x72
  const LOWER_T: CodeUnit := 0x74
  const LOWER_U: CodeUnit := 0x75
  const LBRACE: CodeUnit := 0x7B
  const RBRACE: CodeUnit := 0x7D
  const DEL: CodeUnit := 0x7F

  /** The keywords `true`, `false` and `null`. */
  const TRUE_TEXT: Text := [LOWER_T, LOWER_R, LOWER_U, LOWER_E]
  const FALSE_TEXT: Text := [LOWER_F, 0x61, 0x6C, 0x73, LOWER_E]
  const NULL_TEXT: Text := [LOWER_N, LOWER_U, 0x6C, 0x6C]

  /** An ASCII string literal as code units, for writing inputs and outputs
      of the codec in their usual notation. */
  function Ascii(s: string): (t: Text)
    requires forall k | 0 <= k < |s| :: s[k] < 128 as char
    ensures |t| == |s| && forall k | 0 <= k < |s| :: t[k] == s[k] as int
  {
    seq(|s|, k requires 0 <= k < |s| => s[k] as int)
  }

  /** The ASCII characters the encoder may copy literally (0x20 to 0x7F). */
  predicate IsPrintableAscii(c: CodeUnit) {
    SPACE <= c <= DEL
  }

  predicate IsDigit(c: CodeUnit) {
    0x30 <= c <= 0x39
  }

  predicate AllDigits(t: Text) {
    forall k | 0 <= k < |t| :: IsDigit(t[k])
  }

  function DigitValue(c: CodeUnit): nat
    requires IsDigit(c)
  {
    c - 0x30
  }

  function DigitChar(n: nat): (c: CodeUnit)
    requires n < 10
    ensures IsDigit(c) && DigitValue(c) == n
  {
    0x30 + n
  }

  predicate IsHexDigit(c: CodeUnit) {
    IsDigit(c) || 0x41 <= c <= 0x46 || 0x61 <= c <= 0x66
  }

  predicate AllHexDigits(t: Text) {
    forall k | 0 <= k < |t| :: IsHexDigit(t[k])
  }

  function HexDigitValue(c: CodeUnit): (v: nat)
    requires IsHexDigit(c)
    ensures v < 16
  {
    if IsDigit(c) then c - 0x30
    else if c <= 0x46 then c - 0x41 + 10
    else c - 0x61 + 10
  }

  /** The lower-case hexadecimal digit for `n`, as `ToString("x4")` writes it. */
  function LowerHexDigit(n: nat): (c: CodeUnit)
    requires n < 16
    ensures IsHexDigit(c) && HexDigitValue(c) == n
    ensures c < 0x30 + 10 || 0x61 <= c
  {
    if n < 10 then 0x30 + n else 0x61 + (n - 10)
  }

  /** The value of exactly four hexadecimal digits, as `Convert.ToInt32(_, 16)`
      reads them. */
  function Hex4Value(t: Text): (v: CodeUnit)
    requires |t| == 4 && AllHexDigits(t)
  {
    ((HexDigitValue(t[0]) * 16 + HexDigitValue(t[1])) * 16 + HexDigitValue(t[2])) * 16
      + HexDigitValue(t[3])
  }

  /** Four lower-case hexadecimal digits, most significant first. */
  function Hex4Lower(c: CodeUnit): (t: Text)
    ensures |t| == 4 && AllHexDigits(t)
    ensures forall k | 0 <= k < 4 :: IsPrintableAscii(t[k])
    ensures Hex4Value(t) == c
    ensures forall k | 0 <= k < 4 :: t[k] < 0x30 + 10 || 0x61 <= t[k]
  {
    var r0 := c % 0x1000;
    var r1 := r0 % 0x100;
    var d0, d1, d2, d3 := c / 0x1000, r0 / 0x100, r1 / 16, r1 % 16;
    assert c == d0 * 0x1000 + r0 && r0 == d1 * 0x100 + r1 && r1 == d2 * 16 + d3;
    var t := [LowerHexDigit(d0), LowerHexDigit(d1), LowerHexDigit(d2), LowerHexDigit(d3)];
    assert Hex4Value(t) == ((d0 * 16 + d1) * 16 + d2) * 16 + d3;
    t
  }

  /** The decimal digits of `n` without leading zeros, as `ToString()` writes
      a non-negative integer. */
  function DecimalText(n: nat): (t: Text)
    ensures |t| > 0 && AllDigits(t)
    decreases n
  {
    if n < 10 then [DigitChar(n)] else DecimalText(n / 10) + [DigitChar(n % 10)]
  }

  /** The value of a run of decimal digits; leading zeros are allowed. */
  function DecimalValue(t: Text): nat
    requires AllDigits(t)
    decreases |t|
  {
    if |t| == 0 then 0 else DecimalValue(t[..|t| - 1]) * 10 + DigitValue(t[|t| - 1])
  }

  /** Reading back the digits that `DecimalText` writes gives the number. */
  lemma {:induction false} DecimalRoundTrip(n: nat)
    ensures DecimalValue(DecimalText(n)) == n
    decreases n
  {
    if n >= 10 {
      var t := DecimalText(n);
      assert t[..|t| - 1] == DecimalText(n / 10);
      DecimalRoundTrip(n / 10);
    }
  }

  /** A leading zero does not change the value of a run of digits. */
  lemma {:induction false} LeadingZeroValue(t: Text)
    requires AllDigits(t)
    ensures AllDigits([0x30] + t) && DecimalValue([0x30] + t) == DecimalValue(t)
    decreases |t|
  {
    var z := [0x30] + t;
    if |t| > 0 {
      assert z[..|z| - 1] == [0x30] + t[..|t| - 1];
      assert z[|z| - 1] == t[|t| - 1];
      LeadingZeroValue(t[..|t| - 1]);
    }
  }
}
