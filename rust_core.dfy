/** The parts of Rust's `core` library that the firmware's command parser relies on, stated on
    the values they compute: `str::from_utf8`, `char::is_whitespace`, `u8::is_ascii_whitespace`,
    `str::trim`, `str::split_whitespace`, `str::eq_ignore_ascii_case`, `str::starts_with` and
    `<u8 as FromStr>::from_str`. Strings are sequences of Unicode scalar values. */
module RustCore {
  import opened Wrappers

  /** Rust's `u8`. */
  type uint8 = x: int | 0 <= x < 0x100

  // ------------------------------------------------------------------ UTF-8

  predicate IsContinuation(b: uint8) {
    0x80 <= b < 0xC0
  }

  /** Decodes the scalar value that `b` starts with and the number of bytes it takes, or None
      when `b` does not start with a well-formed UTF-8 sequence: no overlong forms, no
      surrogates, nothing above U+10FFFF (the table of well-formed byte sequences in
      section 3.9 of the Unicode Standard, which `str::from_utf8` enforces). */
  function DecodeFirst(b: seq<uint8>): (r: Option<(char, nat)>)
    requires |b| > 0
    ensures r.Some? ==> 1 <= r.value.1 <= |b| && r.value.1 <= 4
    ensures r.Some? && r.value.1 == 1 ==> b[0] < 0x80
    ensures b[0] < 0x80 ==> r == Some((b[0] as char, 1))
  {
    var b0, b1, b2, b3 := b[0] as int, if |b| > 1 then b[1] as int else 0,
                          if |b| > 2 then b[2] as int else 0, if |b| > 3 then b[3] as int else 0;
    if b0 < 0x80 then
      Some((b0 as char, 1))
    else if 0xC2 <= b0 < 0xE0 then
      if |b| >= 2 && IsContinuation(b[1])
      then Some((((b0 - 0xC0) * 0x40 + (b1 - 0x80)) as char, 2))
      else None
    else if 0xE0 <= b0 < 0xF0 then
      var lo := if b0 == 0xE0 then 0xA0 else 0x80;
      var hi := if b0 == 0xED then 0xA0 else 0xC0;
      if |b| >= 3 && lo <= b1 < hi && IsContinuation(b[2])
      then Some((((b0 - 0xE0) * 0x1000 + (b1 - 0x80) * 0x40 + (b2 - 0x80)) as char, 3))
      else None
    else if 0xF0 <= b0 < 0xF5 then
      var lo := if b0 == 0xF0 then 0x90 else 0x80;
      var hi := if b0 == 0xF4 then 0x90 else 0xC0;
      if |b| >= 4 && lo <= b1 < hi && IsContinuation(b[2]) && IsContinuation(b[3])
      then Some((((b0 - 0xF0) * 0x40000 + (b1 - 0x80) * 0x1000 + (b2 - 0x80) * 0x40 + (b3 - 0x80)) as char, 4))
      else None
    else
      None
  }

  /** `str::from_utf8`: the characters `b` encodes when it is well-formed UTF-8, otherwise None. */
  function FromUtf8(b: seq<uint8>): (r: Option<string>)
    ensures r.Some? ==> |r.value| <= |b|
    decreases |b|
  {
    if b == [] then Some([])
    else
      match DecodeFirst(b)
      case None => None
      case Some((c, n)) =>
        match FromUtf8(b[n..])
        case None => None
        case Some(rest) => Some([c] + rest)
  }

  predicate IsAscii(b: seq<uint8>) {
    forall i :: 0 <= i < |b| ==> b[i] < 0x80
  }

  predicate IsAsciiString(s: string) {
    forall i :: 0 <= i < |s| ==> s[i] < '\U{0080}'
  }

  /** Reads ASCII bytes as the characters with the same codes. */
  function AsciiChars(b: seq<uint8>): (s: string)
    requires IsAscii(b)
    ensures |s| == |b| && forall i :: 0 <= i < |b| ==> s[i] as int == b[i]
  {
    if b == [] then [] else [b[0] as char] + AsciiChars(b[1..])
  }

  /** The bytes of an ASCII string. */
  function AsciiBytes(s: string): (b: seq<uint8>)
    requires IsAsciiString(s)
    ensures |b| == |s| && IsAscii(b) && forall i :: 0 <= i < |s| ==> b[i] == s[i] as int
  {
    if s == [] then [] else [s[0] as int] + AsciiBytes(s[1..])
  }

  lemma AsciiCharsOfAsciiBytes(s: string)
    requires IsAsciiString(s)
    ensures AsciiChars(AsciiBytes(s)) == s
  {
    var t := AsciiChars(AsciiBytes(s));
    assert |t| == |s|;
    forall i | 0 <= i < |s| ensures t[i] == s[i] {
      assert t[i] as int == s[i] as int;
    }
  }

  /** Every ASCII byte sequence is well-formed UTF-8 and decodes to the same codes. */
  lemma {:induction false} AsciiIsUtf8(b: seq<uint8>)
    requires IsAscii(b)
    ensures FromUtf8(b) == Some(AsciiChars(b))
    decreases |b|
  {
    if b != [] {
      assert IsAscii(b[1..]) by {
        forall i | 0 <= i < |b[1..]| ensures b[1..][i] < 0x80 { assert b[1..][i] == b[i + 1]; }
      }
      AsciiIsUtf8(b[1..]);
    }
  }

  // ------------------------------------------------------------------ whitespace

  /** `u8::is_ascii_whitespace`: space, tab, line feed, form feed and carriage return.
      The vertical tab 0x0B is NOT included. */
  predicate IsAsciiWhitespace(b: uint8) {
    b == 0x20 || b == 0x09 || b == 0x0A || b == 0x0C || b == 0x0D
  }

  /** `char::is_whitespace`: the Unicode White_Space property. In the ASCII range it holds for
      0x09 to 0x0D (so the vertical tab 0x0B too) and for the space. */
  predicate IsWhitespace(c: char) {
    var n := c as int;
    n == 0x20 || (0x09 <= n <= 0x0D) || n == 0x85 || n == 0xA0 || n == 0x1680
    || (0x2000 <= n <= 0x200A) || n == 0x2028 || n == 0x2029 || n == 0x202F
    || n == 0x205F || n == 0x3000
  }

  predicate AllWhitespace(s: string) {
    forall i :: 0 <= i < |s| ==> IsWhitespace(s[i])
  }

  predicate NoWhitespace(s: string) {
    forall i :: 0 <= i < |s| ==> !IsWhitespace(s[i])
  }

  // ------------------------------------------------------------------ trimming

  /** `str::trim_start`: drops the leading whitespace. */
  function TrimStart(s: string): (r: string)
    ensures |r| <= |s| && r == s[|s| - |r|..]
    ensures r != [] ==> !IsWhitespace(r[0])
    ensures forall i :: 0 <= i < |s| - |r| ==> IsWhitespace(s[i])
    decreases |s|
  {
    if s != [] && IsWhitespace(s[0]) then TrimStart(s[1..]) else s
  }

  /** `str::trim_end`: drops the trailing whitespace. */
  function TrimEnd(s: string): (r: string)
    ensures |r| <= |s| && r == s[..|r|]
    ensures r != [] ==> !IsWhitespace(r[|r| - 1])
    ensures forall i :: |r| <= i < |s| ==> IsWhitespace(s[i])
    decreases |s|
  {
    if s != [] && IsWhitespace(s[|s| - 1]) then TrimEnd(s[..|s| - 1]) else s
  }

  /** `str::trim`: `s` without its leading and trailing whitespace. The result is empty exactly
      when `s` is all whitespace; otherwise it starts and ends with a non-whitespace character
      and is the part of `s` left between a whitespace prefix and a whitespace suffix. */
  function Trim(s: string): (r: string)
    ensures r == [] <==> AllWhitespace(s)
    ensures r != [] ==> !IsWhitespace(r[0]) && !IsWhitespace(r[|r| - 1])
    ensures exists from, to :: 0 <= from <= to <= |s| && r == s[from..to]
              && (forall i :: 0 <= i < from ==> IsWhitespace(s[i]))
              && (forall i :: to <= i < |s| ==> IsWhitespace(s[i]))
  {
    var t := TrimStart(s);
    var r := TrimEnd(t);
    var from := |s| - |t|;
    assert r == s[from..from + |r|];
    r
  }

  // ------------------------------------------------------------------ splitting

  /** The length of the longest whitespace-free prefix of `s`. */
  function WordLength(s: string): (n: nat)
    ensures n <= |s| && NoWhitespace(s[..n])
    ensures n < |s| ==> IsWhitespace(s[n])
    decreases |s|
  {
    if s == [] || IsWhitespace(s[0]) then 0 else 1 + WordLength(s[1..])
  }

  /** `str::split_whitespace`, collected: the maximal non-empty whitespace-free runs of `s`,
      in order. */
  function SplitWhitespace(s: string): seq<string>
    decreases |s|
  {
    var t := TrimStart(s);
    if t == [] then []
    else
      var n := WordLength(t);
      [t[..n]] + SplitWhitespace(t[n..])
  }

  // ------------------------------------------------------------------ comparisons

  /** `char::to_ascii_lowercase`. */
  function AsciiLower(c: char): char {
    if 'A' <= c <= 'Z' then (c as int + 32) as char else c
  }

  /** `str::eq_ignore_ascii_case`. Rust compares the UTF-8 bytes; since non-ASCII characters
      encode to bytes that ASCII lowering leaves alone, comparing characters is equivalent. */
  predicate EqIgnoreAsciiCase(s: string, t: string) {
    |s| == |t| && forall i :: 0 <= i < |s| ==> AsciiLower(s[i]) == AsciiLower(t[i])
  }

  /** `str::starts_with` with a string pattern (case-sensitive). */
  predicate StartsWith(s: string, prefix: string) {
    |prefix| <= |s| && s[..|prefix|] == prefix
  }

  // ------------------------------------------------------------------ u8 parsing

  predicate IsAsciiDigit(c: char) {
    '0' <= c <= '9'
  }

  predicate AllDigits(s: string) {
    forall i :: 0 <= i < |s| ==> IsAsciiDigit(s[i])
  }

  function DigitValue(c: char): (d: nat)
    requires IsAsciiDigit(c)
    ensures d < 10
  {
    c as int - '0' as int
  }

  function DigitChar(d: nat): (c: char)
    requires d < 10
    ensures IsAsciiDigit(c) && DigitValue(c) == d
  {
    ('0' as int + d) as char
  }

  /** The value of the decimal digits `digits` read after an accumulated `acc`, unbounded. */
  function FoldDigits(acc: nat, digits: string): nat
    requires AllDigits(digits)
    decreases |digits|
  {
    if digits == [] then acc else FoldDigits(acc * 10 + DigitValue(digits[0]), digits[1..])
  }

  /** The unbounded value of a string of decimal digits. */
  function DecimalValue(digits: string): nat
    requires AllDigits(digits)
  {
    FoldDigits(0, digits)
  }

  /** The digit loop of `u8::from_str_radix(_, 10)`: multiply by ten and add the next digit,
      failing on a non-digit and on any step that leaves the range of `u8`. */
  function AccumulateU8(acc: uint8, digits: string): Option<uint8>
    decreases |digits|
  {
    if digits == [] then Some(acc)
    else if !IsAsciiDigit(digits[0]) then None
    else if acc * 10 + DigitValue(digits[0]) > 0xFF then None
    else AccumulateU8(acc * 10 + DigitValue(digits[0]), digits[1..])
  }

  /** The digits `from_str_radix` reads: a single leading '+' is skipped. */
  function UnsignedDigits(s: string): string {
    if |s| > 0 && s[0] == '+' then s[1..] else s
  }

  /** `<u8 as FromStr>::from_str(s).ok()`: None for the empty string and for a lone sign;
      a leading '+' is skipped, while '-' is an invalid digit for an unsigned type. */
  function ParseU8(s: string): Option<uint8> {
    if s == [] then None
    else if (s[0] == '+' || s[0] == '-') && |s| == 1 then None
    else AccumulateU8(0, UnsignedDigits(s))
  }

  /** The decimal rendering of `n`, most significant digit first, with no leading zeros. */
  function NatToDecimal(n: nat): (s: string)
    ensures s != [] && AllDigits(s)
  {
    if n < 10 then [DigitChar(n)] else NatToDecimal(n / 10) + [DigitChar(n % 10)]
  }
}
