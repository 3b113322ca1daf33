/** The tokenizer (src/lexer.rs): a cursor over the characters of the input line that yields
    one spanned token, or one spanned error, per call of `Next`.

    The pure functions below say what one call of `next` produces from a cursor position; the
    class `Lexer` is the imperative cursor, and each of its methods is proved to do what the
    matching function says. Character positions are indices into `text`; every span is in
    UTF-8 bytes, via `ByteOffset`. */
module Lexing {
  import opened Wrappers
  import opened Chars
  import opened Spans
  import opened Errors
  import opened Items
  import opened Tokens
  import opened Literals

  /** What one call of `next` yields. */
  type Item = Result<Spanned<Token>, Spanned<Error>>

  function ItemSpan(item: Item): Span
  {
    match item
    case Ok(token) => token.span
    case Err(error) => error.span
  }

  /** One yielded item and the cursor position after it. */
  datatype Step = Step(item: Item, next: nat)

  // ---------------------------------------------------------------------------------------
  // The scanning loops, as functions of the cursor position

  /** `skip_whitespace`: the first position at or after `i` that is not whitespace. */
  function SkipSpace(text: string, i: nat): (j: nat)
    requires i <= |text|
    ensures i <= j <= |text|
    ensures forall k :: i <= k < j ==> IsWhitespace(text[k])
    ensures j == |text| || !IsWhitespace(text[j])
    decreases |text| - i
  {
    if i < |text| && IsWhitespace(text[i]) then SkipSpace(text, i + 1) else i
  }

  /** The characters `number` accepts: `.`, hexadecimal digits, and `-` once an `e` has been
      seen (`exponent` is the source's `exponent_divider`). */
  predicate NumberChar(c: char, exponent: bool)
  {
    c == '.' || c == 'e' || (c == '-' && exponent) || IsDigit(c, 16)
  }

  /** `number`: the position where the scan of a numeric literal stops. */
  function NumberEnd(text: string, i: nat, exponent: bool): (j: nat)
    requires i <= |text|
    ensures i <= j <= |text|
    decreases |text| - i
  {
    if i == |text| then i
    else if text[i] == '.' then NumberEnd(text, i + 1, exponent)
    else if text[i] == 'e' then NumberEnd(text, i + 1, true)
    else if text[i] == '-' && exponent then NumberEnd(text, i + 1, exponent)
    else if IsDigit(text[i], 16) then NumberEnd(text, i + 1, exponent)
    else i
  }

  /** `take_coalesce`: the end of a run of `;`. */
  function MarkerEnd(text: string, i: nat): (j: nat)
    requires i <= |text|
    ensures i <= j <= |text|
    ensures forall k :: i <= k < j ==> text[k] == ';'
    ensures j == |text| || text[j] != ';'
    decreases |text| - i
  {
    if i < |text| && text[i] == ';' then MarkerEnd(text, i + 1) else i
  }

  /** A character that ends a name: whitespace or ASCII punctuation other than `$`. */
  predicate NameStop(c: char)
  {
    c != '$' && (IsWhitespace(c) || IsAsciiPunctuation(c))
  }

  /** `take_identifier`: the end of a name. */
  function NameEnd(text: string, i: nat): (j: nat)
    requires i <= |text|
    ensures i <= j <= |text|
    ensures forall k :: i <= k < j ==> !NameStop(text[k])
    ensures j == |text| || NameStop(text[j])
    decreases |text| - i
  {
    if i < |text| && !NameStop(text[i]) then NameEnd(text, i + 1) else i
  }

  // ---------------------------------------------------------------------------------------
  // One token

  /** The radix a literal starting at `s` is read in: a `0` followed by `x`, `o` or `b`
      selects 16, 8 or 2. */
  function Radix(text: string, s: nat): (radix: nat)
    requires s < |text|
    ensures radix in {2, 8, 10, 16}
    ensures radix == 16 <==> text[s] == '0' && s + 1 < |text| && text[s + 1] == 'x'
    ensures radix == 8 <==> text[s] == '0' && s + 1 < |text| && text[s + 1] == 'o'
    ensures radix == 2 <==> text[s] == '0' && s + 1 < |text| && text[s + 1] == 'b'
  {
    if text[s] == '0' && s + 1 < |text| then
      if text[s + 1] == 'x' then 16
      else if text[s + 1] == 'o' then 8
      else if text[s + 1] == 'b' then 2
      else 10
    else 10
  }

  /** Whether the library parse accepts the scanned slice (src/lexer.rs:82-85). */
  predicate LiteralParses(slice: string, radix: nat)
  {
    if radix == 10 then IsFloatLiteral(slice) else FromStrRadix(slice, radix).Some?
  }

  /** `parse_number`, for a literal whose first digit is at `s`. With a radix prefix, the
      character right after the prefix is taken without being examined (the source calls
      `next` to learn its index), and the scan resumes after it. */
  function NumberItem(text: string, s: nat): Step
    requires s < |text| && IsDecimalDigit(text[s])
  {
    var radix := Radix(text, s);
    var numberStart := if radix == 10 then s else s + 2;
    var scanFrom := if radix == 10 then s + 1 else if s + 3 <= |text| then s + 3 else |text|;
    var j := NumberEnd(text, scanFrom, false);
    var slice := text[numberStart..j];
    var span := Span(ByteOffset(text, s), ByteOffset(text, j));
    if LiteralParses(slice, radix) then Step(Ok(Spanned(Terminal(Literal(slice, radix)), span)), j)
    else Step(Err(Spanned(InvalidTerminal, span)), j)
  }

  /** `NumberItem` in terms of where the prefix handling leaves the cursor. */
  lemma NumberItemFrom(text: string, s: nat, scanFrom: nat, numberStart: nat)
    requires s < |text| && IsDecimalDigit(text[s])
    requires scanFrom == if Radix(text, s) == 10 then s + 1 else if s + 3 <= |text| then s + 3 else |text|
    requires numberStart == if Radix(text, s) == 10 then s else s + 2
    ensures var j := NumberEnd(text, scanFrom, false);
      var slice := text[numberStart..j];
      var span := Span(ByteOffset(text, s), ByteOffset(text, j));
      NumberItem(text, s) ==
        if LiteralParses(slice, Radix(text, s)) then Step(Ok(Spanned(Terminal(Literal(slice, Radix(text, s))), span)), j)
        else Step(Err(Spanned(InvalidTerminal, span)), j)
  {
  }

  /** What `parse_number` promises for a literal whose first digit is at `s`: the literal is
      the text from the first digit after any radix prefix up to where the number scan
      stops; the item spans the literal's bytes including the prefix; and it is a literal
      token in that radix exactly when the library parse accepts the text, otherwise an
      `InvalidTerminal` error over the same span. */
  lemma NumberToken(text: string, s: nat)
    requires s < |text| && IsDecimalDigit(text[s])
    ensures var step := NumberItem(text, s);
      var radix := Radix(text, s);
      var numberStart := if radix == 10 then s else s + 2;
      var scanFrom := if radix == 10 then s + 1 else if s + 3 <= |text| then s + 3 else |text|;
      && scanFrom <= step.next <= |text|
      && (forall k :: scanFrom <= k < step.next ==> NumberChar(text[k], 'e' in text[scanFrom..k]))
      && (step.next == |text| || !NumberChar(text[step.next], 'e' in text[scanFrom..step.next]))
      && ItemSpan(step.item) == Span(ByteOffset(text, s), ByteOffset(text, step.next))
      && (step.item.Err? <==> !LiteralParses(text[numberStart..step.next], radix))
      && (step.item.Err? ==> step.item.error.node == InvalidTerminal)
      && (step.item.Ok? ==> step.item.value.node == Terminal(Literal(text[numberStart..step.next], radix)))
  {
    var radix := Radix(text, s);
    var scanFrom := if radix == 10 then s + 1 else if s + 3 <= |text| then s + 3 else |text|;
    NumberEndScan(text, scanFrom, false);
  }

  /** The keyword table of function and constant names. */
  function Keyword(word: string): Option<Token>
  {
    match word
    case "sin" => Some(Function(Sine))
    case "cos" => Some(Function(Cosine))
    case "tan" => Some(Function(Tangent))
    case "asin" => Some(Function(InverseSine))
    case "acos" => Some(Function(InverseCosine))
    case "atan" => Some(Function(InverseTangent))
    case "abs" => Some(Function(AbsoluteValue))
    case "sqrt" => Some(Function(SquareRoot))
    case "cbrt" => Some(Function(CubeRoot))
    case "ln" => Some(Function(NaturalLogarithm))
    case "log2" => Some(Function(BinaryLogarithm))
    case "log10" => Some(Function(DecimalLogarithm))
    case "e" => Some(Constant(E))
    case "pi" => Some(Constant(Pi))
    case _ => None
  }

  /** The one-character tokens. */
  function Punctuation(c: char): Option<Token>
  {
    match c
    case '(' => Some(ParenthesisOpen)
    case ')' => Some(ParenthesisClose)
    case '+' => Some(Operator(Add))
    case '-' => Some(Operator(Minus))
    case '*' => Some(Operator(Multiply))
    case '/' => Some(Operator(Divide))
    case '%' => Some(Operator(Modulo))
    case '^' => Some(Operator(Power))
    case _ => None
  }

  /** The token or error that starts at the non-whitespace character `i`. Its span runs from
      that character to the position the cursor stops at, which is past at least one
      character. */
  function TokenAt(text: string, i: nat): (step: Step)
    requires i < |text| && !IsWhitespace(text[i])
    ensures i < step.next <= |text|
    ensures ItemSpan(step.item) == Span(ByteOffset(text, i), ByteOffset(text, step.next))
  {
    var c := text[i];
    if IsDecimalDigit(c) then NumberItem(text, i)
    else if c == ';' then
      var j := MarkerEnd(text, i + 1);
      Step(Ok(Spanned(Coalesce(j - i), Span(ByteOffset(text, i), ByteOffset(text, j)))), j)
    else if c == '$' then
      var j := NameEnd(text, i + 1);
      Step(Ok(Spanned(Variable(text[i + 1..j]), Span(ByteOffset(text, i), ByteOffset(text, j)))), j)
    else if !IsAsciiPunctuation(c) then
      var j := NameEnd(text, i + 1);
      var span := Span(ByteOffset(text, i), ByteOffset(text, j));
      match Keyword(text[i..j])
      case Some(token) => Step(Ok(Spanned(token, span)), j)
      case None => Step(Err(Spanned(InvalidItem, span)), j)
    else
      var span := Span(ByteOffset(text, i), ByteOffset(text, i + 1));
      match Punctuation(c)
      case Some(token) => Step(Ok(Spanned(token, span)), i + 1)
      case None => Step(Err(Spanned(InvalidCharacter(c), span)), i + 1)
  }

  /** `next`: the item produced from cursor position `i`, or `None` at the end of the text.
      Whitespace is skipped first, so the item starts at the first non-whitespace character. */
  function NextItem(text: string, i: nat): (r: Option<Step>)
    requires i <= |text|
    ensures r.None? <==> SkipSpace(text, i) == |text|
    ensures r.Some? ==> r.value == TokenAt(text, SkipSpace(text, i))
    decreases |text| - i
  {
    if i == |text| then None
    else if IsWhitespace(text[i]) then NextItem(text, SkipSpace(text, i + 1))
    else Some(TokenAt(text, i))
  }

  /** A whitespace character at `i` is skipped together with the run that follows it. */
  lemma NextItemAfterSpace(text: string, i: nat)
    requires i < |text| && IsWhitespace(text[i])
    ensures NextItem(text, i) == NextItem(text, SkipSpace(text, i + 1))
  {
  }

  /** Every item the lexer yields from position `i` on, errors included. */
  function Lex(text: string, i: nat): seq<Item>
    requires i <= |text|
    decreases |text| - i
  {
    match NextItem(text, i)
    case None => []
    case Some(step) => [step.item] + Lex(text, step.next)
  }

  // ---------------------------------------------------------------------------------------
  // Properties of the token functions

  /** The token stream after one item is the rest of the stream. */
  lemma LexStep(text: string, i: nat, j: nat, item: Item)
    requires i <= |text| && NextItem(text, i) == Some(Step(item, j))
    ensures j <= |text| && i < j
    ensures Lex(text, i) != [] && Lex(text, i)[0] == item && Lex(text, i)[1..] == Lex(text, j)
  {
  }

  /** The number scan accepts exactly `.`, hexadecimal digits, and `-` after an `e` already
      scanned; it stops at the first other character. */
  lemma {:induction false} NumberEndScan(text: string, i: nat, exponent: bool)
    requires i <= |text|
    ensures var j := NumberEnd(text, i, exponent);
      && (forall k :: i <= k < j ==> NumberChar(text[k], exponent || 'e' in text[i..k]))
      && (j == |text| || !NumberChar(text[j], exponent || 'e' in text[i..j]))
    decreases |text| - i
  {
    var j := NumberEnd(text, i, exponent);
    if i < |text| && NumberChar(text[i], exponent) {
      var exponent' := exponent || text[i] == 'e';
      NumberEndScan(text, i + 1, exponent');
      assert j == NumberEnd(text, i + 1, exponent');
      forall k | i + 1 <= k <= j
        ensures (exponent || 'e' in text[i..k]) == (exponent' || 'e' in text[i + 1..k])
      {
        assert text[i..k] == [text[i]] + text[i + 1..k];
      }
      assert text[i..i] == [];
    } else {
      assert text[i..i] == [];
    }
  }

  /** Byte offsets never decrease along the text. */
  lemma ByteOffsetMonotone(text: string, i: nat, j: nat)
    requires i <= j <= |text|
    ensures ByteOffset(text, i) <= ByteOffset(text, j)
  {
    if i < j {
      ByteOffsetIncreasing(text, i, j);
    }
  }

  /** The items of a line have non-empty spans inside the text, in increasing order and
      pairwise disjoint. */
  lemma {:induction false} LexSpansIncrease(text: string, i: nat)
    requires i <= |text|
    ensures forall t :: 0 <= t < |Lex(text, i)| ==>
      ByteOffset(text, i) <= ItemSpan(Lex(text, i)[t]).start < ItemSpan(Lex(text, i)[t]).end <= ByteOffset(text, |text|)
    ensures forall t :: 0 <= t < |Lex(text, i)| - 1 ==>
      ItemSpan(Lex(text, i)[t]).end <= ItemSpan(Lex(text, i)[t + 1]).start
    decreases |text| - i
  {
    match NextItem(text, i)
    case None =>
    case Some(step) =>
      var k := SkipSpace(text, i);
      LexSpansIncrease(text, step.next);
      ByteOffsetMonotone(text, i, k);
      ByteOffsetIncreasing(text, k, step.next);
      ByteOffsetMonotone(text, step.next, |text|);
      assert Lex(text, i) == [step.item] + Lex(text, step.next);
  }

  /** Collecting the stream: once `next` yields nothing, the items collected are the whole
      stream. */
  lemma LexEnd(text: string, i: nat, items: seq<Item>, from: nat)
    requires from <= i <= |text| && NextItem(text, i).None?
    requires items + Lex(text, i) == Lex(text, from)
    ensures items == Lex(text, from)
  {
    assert Lex(text, i) == [];
    assert items + [] == items;
  }

  /** Collecting the stream: one more item collected, the rest starts where it stopped. */
  lemma LexCollect(text: string, i: nat, j: nat, item: Item, items: seq<Item>, from: nat)
    requires from <= i <= |text| && NextItem(text, i) == Some(Step(item, j))
    requires items + Lex(text, i) == Lex(text, from)
    ensures i < j <= |text| && (items + [item]) + Lex(text, j) == Lex(text, from)
  {
    LexStep(text, i, j, item);
    assert Lex(text, i) == [item] + Lex(text, j);
    assert (items + [item]) + Lex(text, j) == items + ([item] + Lex(text, j));
  }

  /** A run of `n` semicolons is one `Coalesce(n)` token spanning exactly the run. */
  lemma MarkerRunToken(text: string, i: nat, n: nat)
    requires 1 <= n && i + n <= |text|
    requires forall k :: i <= k < i + n ==> text[k] == ';'
    requires i + n == |text| || text[i + n] != ';'
    ensures NextItem(text, i)
            == Some(Step(Ok(Spanned(Coalesce(n), Span(ByteOffset(text, i), ByteOffset(text, i + n)))), i + n))
  {
  }

  /** A `$` starts a variable whose name is everything after it up to the first whitespace
      or ASCII punctuation other than `$`; a bare `$` names the empty string. */
  lemma VariableName(text: string, i: nat)
    requires i < |text| && text[i] == '$'
    ensures var step := TokenAt(text, i);
      && step.item.Ok? && step.item.value.node.Variable?
      && step.item.value.node.name == text[i + 1..step.next]
      && (forall k :: i + 1 <= k < step.next ==> !NameStop(text[k]))
      && (step.next == |text| || NameStop(text[step.next]))
  {
  }

  /** A word that is not in the keyword table fails `InvalidItem` over the whole word, and
      only such a word fails. */
  lemma UnknownWord(text: string, i: nat)
    requires i < |text| && !IsWhitespace(text[i]) && !IsAsciiPunctuation(text[i]) && !IsDecimalDigit(text[i])
    ensures var step := TokenAt(text, i);
      && (forall k :: i < k < step.next ==> !NameStop(text[k]))
      && (step.next == |text| || NameStop(text[step.next]))
      && (step.item.Err? <==> Keyword(text[i..step.next]).None?)
      && (step.item.Err? ==> step.item.error.node == InvalidItem)
  {
  }

  /** ASCII punctuation other than `;` and `$` is a one-character token: a bracket or an
      operator, or `InvalidCharacter` carrying the character. */
  lemma PunctuationToken(text: string, i: nat)
    requires i < |text| && IsAsciiPunctuation(text[i]) && text[i] != ';' && text[i] != '$'
    ensures var step := TokenAt(text, i);
      && step.next == i + 1
      && (step.item.Err? <==> text[i] !in "()+-*/%^")
      && (step.item.Err? ==> step.item.error.node == InvalidCharacter(text[i]))
  {
  }

  // ---------------------------------------------------------------------------------------
  // The imperative cursor

  /** The lexer: a text and a peekable cursor over its characters. `pos` is the index of the
      next character and `front` its byte offset, which is what `Peekable<CharIndices>`
      reports. */
  class Lexer {
    const text: string
    var pos: nat
    var front: nat
    var lastCoalesce: bool
    const byteEnd: nat

    ghost predicate Valid()
      reads this
    {
      pos <= |text| && front == ByteOffset(text, pos) && byteEnd == ByteOffset(text, |text|)
    }

    /** `Lexer::new`: a cursor at the first character. */
    constructor (text: string)
      ensures Valid() && this.text == text && pos == 0 && !lastCoalesce
    {
      this.text := text;
      pos := 0;
      front := 0;
      lastCoalesce := false;
      byteEnd := ByteOffset(text, |text|);
    }

    /** `characters.peek()`. */
    method Peek() returns (r: Option<(nat, char)>)
      requires Valid()
      ensures r == if pos < |text| then Some((front, text[pos])) else None
    {
      if pos < |text| {
        r := Some((front, text[pos]));
      } else {
        r := None;
      }
    }

    /** `characters.next()`. */
    method Advance() returns (r: Option<(nat, char)>)
      requires Valid()
      modifies this`pos, this`front
      ensures Valid()
      ensures r == if old(pos) < |text| then Some((old(front), text[old(pos)])) else None
      ensures pos == if old(pos) < |text| then old(pos) + 1 else old(pos)
    {
      if pos < |text| {
        r := Some((front, text[pos]));
        front := front + Utf8Width(text[pos]);
        pos := pos + 1;
      } else {
        r := None;
      }
    }

    method SkipWhitespace()
      requires Valid()
      modifies this`pos, this`front
      ensures Valid() && pos == SkipSpace(text, old(pos))
    {
      while true
        invariant Valid() && old(pos) <= pos
        invariant SkipSpace(text, pos) == SkipSpace(text, old(pos))
        decreases |text| - pos
      {
        var peeked := Peek();
        match peeked
        case None => return;
        case Some((_, character)) =>
          if IsWhitespace(character) {
            var _ := Advance();
          } else {
            return;
          }
      }
    }

    method Number() returns (end: nat)
      requires Valid()
      modifies this`pos, this`front
      ensures Valid() && pos == NumberEnd(text, old(pos), false) && end == ByteOffset(text, pos)
    {
      var exponent := false;
      while true
        invariant Valid() && old(pos) <= pos
        invariant NumberEnd(text, pos, exponent) == NumberEnd(text, old(pos), false)
        decreases |text| - pos
      {
        var peeked := Peek();
        match peeked
        case None => return byteEnd;
        case Some((index, character)) =>
          if character == '.' {
          } else if character == 'e' {
            exponent := true;
            var _ := Advance();
            continue;
          } else if character == '-' && exponent {
          } else if IsDigit(character, 16) {
          } else {
            return index;
          }
          var _ := Advance();
      }
    }

    method ParseNumber(start: nat, character: char, byteStart: nat) returns (r: Item)
      requires Valid() && pos == start + 1 <= |text| && text[start] == character
      requires IsDecimalDigit(character) && byteStart == ByteOffset(text, start)
      modifies this`pos, this`front
      ensures Valid() && NumberItem(text, start) == Step(r, pos)
    {
      var radix := 10;
      if character == '0' {
        var peeked := Peek();
        match peeked
        case Some((_, prefix)) =>
          if prefix == 'x' {
            radix := 16;
          } else if prefix == 'o' {
            radix := 8;
          } else if prefix == 'b' {
            radix := 2;
          }
        case None =>
      }
      assert radix == Radix(text, start);
      var numberStart := start;
      if radix != 10 {
        var _ := Advance();
        numberStart := pos;
        var _ := Advance();
      }
      ghost var scanFrom := pos;
      var end := Number();
      var slice := text[numberStart..pos];
      var span := Span(byteStart, end);
      if LiteralParses(slice, radix) {
        r := Ok(Spanned(Terminal(Literal(slice, radix)), span));
      } else {
        r := Err(Spanned(InvalidTerminal, span));
      }
      NumberItemFrom(text, start, scanFrom, numberStart);
    }

    method TakeCoalesce() returns (end: nat, counter: nat)
      requires Valid()
      modifies this`pos, this`front
      ensures Valid() && pos == MarkerEnd(text, old(pos))
      ensures end == ByteOffset(text, pos) && counter == pos - old(pos) + 1
    {
      counter := 1;
      while true
        invariant Valid() && old(pos) <= pos
        invariant MarkerEnd(text, pos) == MarkerEnd(text, old(pos))
        invariant counter == pos - old(pos) + 1
        decreases |text| - pos
      {
        var peeked := Peek();
        match peeked
        case None => return byteEnd, counter;
        case Some((index, character)) =>
          if character == ';' {
            var _ := Advance();
          } else {
            return index, counter;
          }
        counter := counter + 1;
      }
    }

    method TakeIdentifier() returns (end: nat)
      requires Valid()
      modifies this`pos, this`front
      ensures Valid() && pos == NameEnd(text, old(pos)) && end == ByteOffset(text, pos)
    {
      while true
        invariant Valid() && old(pos) <= pos
        invariant NameEnd(text, pos) == NameEnd(text, old(pos))
        decreases |text| - pos
      {
        var peeked := Peek();
        match peeked
        case None => return byteEnd;
        case Some((index, character)) =>
          var invalidCharacter := IsWhitespace(character) || IsAsciiPunctuation(character);
          if character != '$' && invalidCharacter {
            return index;
          }
          var _ := Advance();
      }
    }

    /** `Iterator::next`: yields what `NextItem` says and leaves the cursor where it says. */
    method Next() returns (r: Option<Item>)
      requires Valid()
      modifies this`pos, this`front
      ensures Valid()
      ensures NextItem(text, old(pos)) == if r.None? then None else Some(Step(r.value, pos))
      ensures r.None? ==> pos == |text|
      decreases |text| - pos
    {
      var start := pos;
      var taken := Advance();
      if taken.None? {
        return None;
      }
      var (byteStart, character) := taken.value;
      if IsWhitespace(character) {
        NextItemAfterSpace(text, start);
        SkipWhitespace();
        r := Next();
      } else {
        var item := Token(start, byteStart, character);
        r := Some(item);
      }
    }

    /** Iterating the lexer to exhaustion, as `while let Some(item) = lexer.next()` does:
        the items collected are exactly `Lex` from the starting position. */
    method Drain() returns (items: seq<Item>)
      requires Valid()
      modifies this`pos, this`front
      ensures Valid() && pos == |text|
      ensures items == Lex(text, old(pos))
    {
      items := [];
      while true
        invariant Valid() && old(pos) <= pos
        invariant items + Lex(text, pos) == Lex(text, old(pos))
        decreases |text| - pos
      {
        ghost var before := pos;
        var next := Next();
        if next.None? {
          LexEnd(text, before, items, old(pos));
          return;
        }
        LexCollect(text, before, pos, next.value, items, old(pos));
        items := items + [next.value];
      }
    }

    /** The body of `next` once the first character of an item has been taken: the item
        starting at `start`, by the kind of that character. */
    method Token(start: nat, byteStart: nat, character: char) returns (item: Item)
      requires Valid() && pos == start + 1 <= |text| && text[start] == character
      requires !IsWhitespace(character) && byteStart == ByteOffset(text, start)
      modifies this`pos, this`front
      ensures Valid() && NextItem(text, start) == Some(Step(item, pos))
    {
      if IsDecimalDigit(character) {
        item := ParseNumber(start, character, byteStart);
      } else if character == ';' {
        var end, counter := TakeCoalesce();
        item := Ok(Spanned(Coalesce(counter), Span(byteStart, end)));
      } else if character == '$' {
        var end := TakeIdentifier();
        item := Ok(Spanned(Variable(text[start + 1..pos]), Span(byteStart, end)));
      } else if !IsAsciiPunctuation(character) {
        var end := TakeIdentifier();
        var span := Span(byteStart, end);
        item := match Keyword(text[start..pos])
          case Some(token) => Ok(Spanned(token, span))
          case None => Err(Spanned(InvalidItem, span));
      } else {
        var span := Span(byteStart, front);
        item := match Punctuation(character)
          case Some(token) => Ok(Spanned(token, span))
          case None => Err(Spanned(InvalidCharacter(character), span));
      }
    }
  }
}
