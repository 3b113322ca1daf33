/** Character classes and UTF-8 byte positions used by the lexer (src/lexer.rs).
    A Rust `&str` is UTF-8; the lexer walks it with `char_indices`, so every position it
    reports is the byte offset of a character. Here the text is a sequence of Unicode scalar
    values and `ByteOffset` gives the UTF-8 byte offset of each character index. */
module Chars {

  /** `char::is_whitespace`: the Unicode White_Space property. */
  predicate IsWhitespace(c: char)
  {
    ('\t' <= c <= '\r') || c == ' ' || c == '\U{0085}' || c == '\U{00A0}' || c == '\U{1680}'
    || ('\U{2000}' <= c <= '\U{200A}') || c == '\U{2028}' || c == '\U{2029}'
    || c == '\U{202F}' || c == '\U{205F}' || c == '\U{3000}'
  }

  /** `char::is_ascii_punctuation`: the 32 printable ASCII symbols. */
  predicate IsAsciiPunctuation(c: char)
  {
    ('!' <= c <= '/') || (':' <= c <= '@') || ('[' <= c <= '`') || ('{' <= c <= '~')
  }

  /** `char::is_digit(10)`. */
  predicate IsDecimalDigit(c: char)
  {
    '0' <= c <= '9'
  }

  /** `char::to_digit(36)`: the value of an ASCII digit or letter, letters in either case. */
  function DigitValue(c: char): (d: int)
    ensures -1 <= d < 36
    ensures d == -1 <==> !(IsDecimalDigit(c) || 'a' <= c <= 'z' || 'A' <= c <= 'Z')
  {
    if IsDecimalDigit(c) then c as int - '0' as int
    else if 'a' <= c <= 'z' then c as int - 'a' as int + 10
    else if 'A' <= c <= 'Z' then c as int - 'A' as int + 10
    else -1
  }

  /** `char::is_digit(radix)` for a radix between 2 and 36. */
  predicate IsDigit(c: char, radix: nat)
  {
    0 <= DigitValue(c) < radix
  }

  /** Number of bytes of `c` in UTF-8. */
  function Utf8Width(c: char): (w: nat)
    ensures 1 <= w <= 4
    ensures w == 1 <==> c as int < 0x80
  {
    if c as int < 0x80 then 1
    else if c as int < 0x800 then 2
    else if c as int < 0x10000 then 3
    else 4
  }

  /** Byte offset, in the UTF-8 encoding of `s`, of the character at index `i`;
      `ByteOffset(s, |s|)` is the byte length of `s` (`str::len`). */
  function ByteOffset(s: string, i: nat): nat
    requires i <= |s|
  {
    if i == 0 then 0 else ByteOffset(s, i - 1) + Utf8Width(s[i - 1])
  }

  /** Later characters start at later bytes, so character-index ranges map to byte ranges
      in the same order. */
  lemma {:induction false} ByteOffsetIncreasing(s: string, i: nat, j: nat)
    requires i < j <= |s|
    ensures ByteOffset(s, i) < ByteOffset(s, j)
    decreases j - i
  {
    if i + 1 < j {
      ByteOffsetIncreasing(s, i, j - 1);
    }
  }
}
