/** The two library parses the lexer applies to a scanned numeric literal (src/lexer.rs:82-86):
    `str::parse::<f64>` for decimal literals and `i64::from_str_radix` for `0x`/`0o`/`0b`
    literals. Only whether they succeed matters to the front half of the pipeline; the integer
    parse also yields its value. */
module Literals {
  import opened Wrappers
  import opened Chars

  predicate AllDecimalDigits(s: string)
  {
    forall i :: 0 <= i < |s| ==> IsDecimalDigit(s[i])
  }

  /** Index of the first `c` in `s`, or `|s|` when there is none. */
  function Find(s: string, c: char): (k: nat)
    ensures k <= |s|
    ensures k < |s| ==> s[k] == c
    ensures forall i :: 0 <= i < k ==> s[i] != c
  {
    if s == [] then 0 else if s[0] == c then 0 else 1 + Find(s[1..], c)
  }

  /** Index of the first exponent letter (`e` or `E`) in `s`, or `|s|`. */
  function FindExponent(s: string): (k: nat)
    ensures k <= |s|
    ensures k < |s| ==> s[k] == 'e' || s[k] == 'E'
    ensures forall i :: 0 <= i < k ==> s[i] != 'e' && s[i] != 'E'
  {
    if s == [] then 0 else if s[0] == 'e' || s[0] == 'E' then 0 else 1 + FindExponent(s[1..])
  }

  function DropSign(s: string): string
  {
    if |s| > 0 && (s[0] == '+' || s[0] == '-') then s[1..] else s
  }

  /** `Digit+ | Digit+ '.' Digit* | Digit* '.' Digit+` */
  predicate IsMantissa(m: string)
  {
    var d := Find(m, '.');
    AllDecimalDigits(m[..d])
    && (d == |m| ==> |m| > 0)
    && (d < |m| ==> |m| > 1 && AllDecimalDigits(m[d + 1..]))
  }

  /** Whether `str::parse::<f64>` accepts `s`, following the decimal grammar
      `Sign? Mantissa (('e' | 'E') Sign? Digit+)?`. The special words (`inf`, `NaN`) are not
      part of this model: the lexer only hands over slices that begin with a decimal digit. */
  predicate IsFloatLiteral(s: string)
  {
    var body := DropSign(s);
    var k := FindExponent(body);
    IsMantissa(body[..k])
    && (k < |body| ==> var exponent := DropSign(body[k + 1..]); |exponent| > 0 && AllDecimalDigits(exponent))
  }

  /** Value of a string of digits, each valid in `radix`, most significant first. */
  function DigitsValue(d: string, radix: nat): nat
  {
    if d == [] then 0
    else
      var last := DigitValue(d[|d| - 1]);
      DigitsValue(d[..|d| - 1], radix) * radix + (if last < 0 then 0 else last)
  }

  const I64_MIN: int := -0x8000_0000_0000_0000
  const I64_MAX: int := 0x7FFF_FFFF_FFFF_FFFF

  /** `i64::from_str_radix(s, radix)`: an optional sign, then at least one digit valid in
      `radix`; the value must fit in an `i64`. */
  function FromStrRadix(s: string, radix: nat): (r: Option<int>)
    ensures r.Some? ==> I64_MIN <= r.value <= I64_MAX
    ensures r.Some? ==> |s| > 0 && forall i :: 0 <= i < |DropSign(s)| ==> IsDigit(DropSign(s)[i], radix)
  {
    if |s| == 0 || s == "+" || s == "-" then None
    else
      var negative := s[0] == '-';
      var digits := DropSign(s);
      if exists i :: 0 <= i < |digits| && !IsDigit(digits[i], radix) then None
      else
        var v: int := DigitsValue(digits, radix);
        if negative then (if -v < I64_MIN then None else Some(-v))
        else (if v > I64_MAX then None else Some(v))
  }
}
