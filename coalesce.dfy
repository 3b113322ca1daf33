/** The coalescer (src/coalesce.rs): a recursive state machine over the token stream that
    resolves brackets, inserts implicit multiplications, reads a `-` in operand position as
    unary minus and applies the `;` marker, producing one `Multiple` per bracket level.

    `Level` says what one call of `coalesce` returns for the tokens still to come, and which
    tokens it leaves unread; the method `Coalesce` drives a `Lexer` and is proved to agree
    with it. `Level` carries one extra switch, `strict`: the source, `strict == false`, lets a
    `;` marker through in operand position, which produces groups the parser cannot handle;
    with `strict == true` such a marker fails `InvalidCoalesce` instead (see the findings in
    README.md). */
module Coalescing {
  import opened Wrappers
  import opened Spans
  import opened Items
  import opened Errors
  import Tokens
  import opened Coalescences
  import opened Lexing

  /** What a call of `coalesce` returns, and the tokens it has not read. */
  datatype Run = Run(result: Result<Coalescence, Spanned<Error>>, rest: seq<Item>)

  /** The unit a terminal, variable or constant token becomes. */
  function ValueUnit(token: Tokens.Token, span: Span): (u: Coalescence)
    requires token.Terminal? || token.Variable? || token.Constant?
    ensures IsAtom(u) && !u.Multiple? && u.span == span
  {
    match token
    case Terminal(value) => Coalescence.Terminal(value, span)
    case Variable(name) => Coalescence.Variable(name, span)
    case Constant(constant) => Coalescence.Terminal(Tokens.ConstantValue(constant), span)
  }

  /** `value`: an operand after an operator, a function or nothing is pushed; after a group it
      is preceded by an implicit multiplication spanned on the operand's first byte; after any
      other operand it fails `ExpectedOperator` at the token's span. */
  function Value(units: seq<Coalescence>, lastValued: bool, value: Coalescence, span: Span)
    : Result<seq<Coalescence>, Spanned<Error>>
    requires !value.Multiple?
  {
    if !lastValued then Ok(units + [value])
    else if |units| > 0 && units[|units| - 1].Multiple? then
      var start := value.span.start;
      Ok(units + [Coalescence.Operator(Tokens.Multiply, Span(start, start + 1)), value])
    else Err(Spanned(ExpectedOperator, span))
  }

  /** The back scan of a `;` marker: the position of the `need`-th unit, counting from `hi`
      towards the front, that is not a binary operator. */
  function SpliceIndex(units: seq<Coalescence>, hi: nat, need: nat): (r: Option<nat>)
    requires hi <= |units| && need >= 1
    ensures r.Some? ==> r.value < hi && !units[r.value].Operator?
    decreases hi
  {
    if hi == 0 then None
    else if units[hi - 1].Operator? then SpliceIndex(units, hi - 1, need)
    else if need == 1 then Some(hi - 1)
    else SpliceIndex(units, hi - 1, need - 1)
  }

  /** `Coalesce(count)`: the units from the (count + 1)-th valued unit from the back onwards
      become one group, or `None` when the level has fewer valued units. */
  function Splice(units: seq<Coalescence>, count: nat): Option<seq<Coalescence>>
  {
    match SpliceIndex(units, |units|, count + 1)
    case None => None
    case Some(index) => Some(units[..index] + [Multiple(units[index..])])
  }

  /** One token other than a bracket, as a transition of the state machine: the new units and
      the new `last_valued`, or the error the token raises (src/coalesce.rs:35-79). */
  function Shift(token: Tokens.Token, span: Span, units: seq<Coalescence>, lastValued: bool, strict: bool)
    : Result<(seq<Coalescence>, bool), Spanned<Error>>
    requires !token.ParenthesisOpen? && !token.ParenthesisClose?
  {
    match token
    case Operator(operator) =>
      if lastValued then Ok((units + [Coalescence.Operator(operator, span)], false))
      else if operator == Tokens.Minus then Ok((units + [Coalescence.Function(UnaryMinus, span)], lastValued))
      else Err(Spanned(ExpectedValued, span))
    case Function(kind) =>
      if lastValued then Err(Spanned(ExpectedOperator, span))
      else Ok((units + [Coalescence.Function(kind, span)], lastValued))
    case Coalesce(count) =>
      if strict && !lastValued then Err(Spanned(InvalidCoalesce, span))
      else
        (match Splice(units, count)
         case None => Err(Spanned(InvalidCoalesce, span))
         case Some(spliced) => Ok((spliced, lastValued)))
    case Terminal(_) | Variable(_) | Constant(_) =>
      match Value(units, lastValued, ValueUnit(token, span), span)
      case Err(error) => Err(error)
      case Ok(pushed) => Ok((pushed, true))
  }

  /** One level of `coalesce`, from the token stream `items`. `units` are the units
      accumulated so far, `lastValued` says whether the last one gave a value,
      `lastByteEnd` is the end of the last token read and `expectClose` says whether the level was
      opened by `(`. */
  function Level(items: seq<Item>, units: seq<Coalescence>, lastValued: bool, lastByteEnd: nat,
                 expectClose: bool, strict: bool): (run: Run)
    ensures |run.rest| <= |items|
    decreases |items|
  {
    if items == [] then
      Run(if lastValued then Ok(Multiple(units))
          else Err(Spanned(ExpectedValued, Span(lastByteEnd, lastByteEnd + 1))), [])
    else
      var rest := items[1..];
      match items[0]
      case Err(error) => Run(Err(error), rest)
      case Ok(token) =>
        var span := token.span;
        var end := span.end;
        match token.node
        case ParenthesisClose =>
          if !expectClose then Run(Err(Spanned(MismatchedBracket, span)), rest)
          else if units == [] then Run(Err(Spanned(EmptyBrackets, span)), rest)
          else if lastValued then Run(Ok(Multiple(units)), rest)
          else Run(Err(Spanned(ExpectedValued, Span(end, end + 1))), rest)
        case ParenthesisOpen =>
          var before := if lastValued then units + [Coalescence.Operator(Tokens.Multiply, span)] else units;
          var inner := Level(rest, [], false, 0, true, strict);
          if inner.result.Err? then inner
          else Level(inner.rest, before + [inner.result.value], true, end, expectClose, strict)
        case _ =>
          match Shift(token.node, span, units, lastValued, strict)
          case Err(error) => Run(Err(error), rest)
          case Ok((pushed, valued)) => Level(rest, pushed, valued, end, expectClose, strict)
  }

  /** One step of `Level` on a token that is not a bracket is one `Shift`. */
  lemma LevelShift(items: seq<Item>, units: seq<Coalescence>, lastValued: bool, lastByteEnd: nat,
                   expectClose: bool, strict: bool)
    requires items != [] && items[0].Ok?
    requires !items[0].value.node.ParenthesisOpen? && !items[0].value.node.ParenthesisClose?
    ensures var token := items[0].value;
      Level(items, units, lastValued, lastByteEnd, expectClose, strict) ==
        match Shift(token.node, token.span, units, lastValued, strict)
        case Err(error) => Run(Err(error), items[1..])
        case Ok((pushed, valued)) => Level(items[1..], pushed, valued, token.span.end, expectClose, strict)
  {
  }

  /** One step of `Level` on `)`. */
  lemma LevelClose(items: seq<Item>, units: seq<Coalescence>, lastValued: bool, lastByteEnd: nat,
                   expectClose: bool, strict: bool)
    requires items != [] && items[0].Ok? && items[0].value.node.ParenthesisClose?
    ensures var span := items[0].value.span;
      Level(items, units, lastValued, lastByteEnd, expectClose, strict) ==
        if !expectClose then Run(Err(Spanned(MismatchedBracket, span)), items[1..])
        else if units == [] then Run(Err(Spanned(EmptyBrackets, span)), items[1..])
        else if lastValued then Run(Ok(Multiple(units)), items[1..])
        else Run(Err(Spanned(ExpectedValued, Span(span.end, span.end + 1))), items[1..])
  {
  }

  /** One step of `Level` on `(`. */
  lemma LevelOpen(items: seq<Item>, units: seq<Coalescence>, lastValued: bool, lastByteEnd: nat,
                  expectClose: bool, strict: bool)
    requires items != [] && items[0].Ok? && items[0].value.node.ParenthesisOpen?
    ensures var span := items[0].value.span;
      var before := if lastValued then units + [Coalescence.Operator(Tokens.Multiply, span)] else units;
      var inner := Level(items[1..], [], false, 0, true, strict);
      Level(items, units, lastValued, lastByteEnd, expectClose, strict) ==
        if inner.result.Err? then inner
        else Level(inner.rest, before + [inner.result.value], true, span.end, expectClose, strict)
  {
  }

  /** `coalesce_root`: the whole token stream as one level that no `(` opened. */
  function Root(items: seq<Item>, strict: bool): Result<Coalescence, Spanned<Error>>
  {
    Level(items, [], false, 0, false, strict).result
  }

  // ---------------------------------------------------------------------------------------
  // The imperative coalescer

  /** The reverse scan of a `;` marker (src/coalesce.rs:60-78): walk back over the units,
      skip binary operators, count down the others, and split off the tail at the unit that
      brings the count to zero. */
  method SpliceTail(units: seq<Coalescence>, count: nat) returns (r: Option<seq<Coalescence>>)
    ensures r == Splice(units, count)
  {
    var need := count + 1;
    var index := |units|;
    while index > 0
      invariant 0 <= index <= |units| && need >= 1
      invariant SpliceIndex(units, index, need) == SpliceIndex(units, |units|, count + 1)
    {
      index := index - 1;
      if units[index].Operator? {
        continue;
      }
      need := need - 1;
      if need == 0 {
        return Some(units[..index] + [Multiple(units[index..])]);
      }
    }
    return None;
  }

  /** The arms of `coalesce` for a token that is not a bracket (src/coalesce.rs:35-79):
      the new units and `last_valued`, or the error. */
  method ShiftToken(token: Tokens.Token, span: Span, units: seq<Coalescence>, lastValued: bool)
    returns (r: Result<(seq<Coalescence>, bool), Spanned<Error>>)
    requires !token.ParenthesisOpen? && !token.ParenthesisClose?
    ensures r == Shift(token, span, units, lastValued, false)
  {
    match token
    case Operator(operator) =>
      if !lastValued {
        if operator == Tokens.Minus {
          return Ok((units + [Coalescence.Function(UnaryMinus, span)], lastValued));
        }
        return Err(Spanned(ExpectedValued, span));
      }
      return Ok((units + [Coalescence.Operator(operator, span)], false));
    case Function(kind) =>
      if lastValued {
        return Err(Spanned(ExpectedOperator, span));
      }
      return Ok((units + [Coalescence.Function(kind, span)], lastValued));
    case Coalesce(count) =>
      var spliced := SpliceTail(units, count);
      if spliced.None? {
        return Err(Spanned(InvalidCoalesce, span));
      }
      return Ok((spliced.value, lastValued));
    case Terminal(_) | Variable(_) | Constant(_) =>
      var pushed := Value(units, lastValued, ValueUnit(token, span), span);
      if pushed.Err? {
        return Err(pushed.error);
      }
      return Ok((pushed.value, true));
  }

  /** The coalescer's side of the lexer: the items `next` will yield, in order, and how many
      have been taken. `Lexing.Lexer.Drain` proves that `Lexing.Lexer.Next` yields exactly the
      items of `Lex`, one per call. */
  class Stream {
    const items: seq<Item>
    var index: nat

    ghost predicate Valid()
      reads this
    {
      index <= |items|
    }

    /** The items not taken yet. */
    ghost function Rest(): seq<Item>
      reads this
      requires Valid()
    {
      items[index..]
    }

    constructor (items: seq<Item>)
      ensures Valid() && this.items == items && index == 0 && Rest() == items
    {
      this.items := items;
      index := 0;
    }

    /** `Iterator::next`: the first item not taken yet, or `None` at the end. */
    method Next() returns (r: Option<Item>)
      requires Valid()
      modifies this`index
      ensures Valid() && old(index) <= index
      ensures r.None? ==> old(Rest()) == [] && Rest() == []
      ensures r.Some? ==> old(Rest()) != [] && old(Rest())[0] == r.value && old(Rest())[1..] == Rest()
      ensures r.Some? ==> index == old(index) + 1
    {
      if index == |items| {
        return None;
      }
      r := Some(items[index]);
      index := index + 1;
    }
  }

  /** What the loop of `coalesce` does after one item: go on with new units, `last_valued`
      and `last_byte_end`, or leave the level with a result. */
  datatype Outcome =
    | Continue(units: seq<Coalescence>, valued: bool, lastByteEnd: nat)
    | Finish(result: Result<Coalescence, Spanned<Error>>)

  /** `coalesce`: read items from `stream` until the end of the input or, when `expectClose`,
      the closing bracket of this level (src/coalesce.rs:12-90). */
  method Coalesce(stream: Stream, lastValued: bool, expectClose: bool)
    returns (r: Result<Coalescence, Spanned<Error>>)
    requires stream.Valid()
    modifies stream
    ensures stream.Valid() && old(stream.index) <= stream.index
    ensures Level(old(stream.Rest()), [], lastValued, 0, expectClose, false) == Run(r, stream.Rest())
    decreases |stream.items| - stream.index, 0
  {
    var valued := lastValued;
    var lastByteEnd := 0;
    var coalesces: seq<Coalescence> := [];
    ghost var goal := Level(stream.Rest(), [], lastValued, 0, expectClose, false);
    while true
      invariant stream.Valid() && old(stream.index) <= stream.index
      invariant Level(stream.Rest(), coalesces, valued, lastByteEnd, expectClose, false) == goal
      decreases |stream.items| - stream.index
    {
      ghost var items := stream.Rest();
      var next := stream.Next();
      if next.None? {
        break;
      }
      var outcome := Handle(stream, next.value, coalesces, valued, lastByteEnd, expectClose, items);
      if outcome.Finish? {
        return outcome.result;
      }
      coalesces, valued, lastByteEnd := outcome.units, outcome.valued, outcome.lastByteEnd;
    }
    if valued {
      r := Ok(Multiple(coalesces));
    } else {
      r := Err(Spanned(ExpectedValued, Span(lastByteEnd, lastByteEnd + 1)));
    }
  }

  /** The body of the loop of `coalesce` for the item just taken from `items`: the match on
      the token (src/coalesce.rs:17-85). A `)` that closes the level finishes it with the
      result the code after the loop computes. */
  method Handle(stream: Stream, item: Item, coalesces: seq<Coalescence>, valued: bool,
                lastEnd: nat, expectClose: bool, ghost items: seq<Item>)
    returns (outcome: Outcome)
    requires stream.Valid()
    requires items != [] && items[0] == item && items[1..] == stream.Rest()
    modifies stream
    ensures stream.Valid() && old(stream.index) <= stream.index
    ensures outcome.Finish? ==>
      Level(items, coalesces, valued, lastEnd, expectClose, false) == Run(outcome.result, stream.Rest())
    ensures outcome.Continue? ==>
      Level(items, coalesces, valued, lastEnd, expectClose, false)
      == Level(stream.Rest(), outcome.units, outcome.valued, outcome.lastByteEnd, expectClose, false)
    decreases |stream.items| - stream.index, 2
  {
    match item
    case Err(error) =>
      return Finish(Err(error));
    case Ok(token) =>
      var span := token.span;
      match token.node
      case ParenthesisClose =>
        LevelClose(items, coalesces, valued, lastEnd, expectClose, false);
        if !expectClose {
          return Finish(Err(Spanned(MismatchedBracket, span)));
        }
        if coalesces == [] {
          return Finish(Err(Spanned(EmptyBrackets, span)));
        }
        if valued {
          return Finish(Ok(Multiple(coalesces)));
        }
        return Finish(Err(Spanned(ExpectedValued, Span(span.end, span.end + 1))));
      case ParenthesisOpen =>
        var group := Open(stream, span, coalesces, valued, lastEnd, expectClose, items);
        if group.Err? {
          return Finish(Err(group.error));
        }
        return Continue(group.value, true, span.end);
      case _ =>
        LevelShift(items, coalesces, valued, lastEnd, expectClose, false);
        var shifted := ShiftToken(token.node, span, coalesces, valued);
        if shifted.Err? {
          return Finish(Err(shifted.error));
        }
        return Continue(shifted.value.0, shifted.value.1, span.end);
  }

  /** The `(` arm of `coalesce` (src/coalesce.rs:26-34), once the `(` at `span` has been
      taken from `items`: an implicit multiplication after an operand, then the group read
      by a nested `coalesce`, which becomes one operand. */
  method Open(stream: Stream, span: Span, coalesces: seq<Coalescence>, valued: bool,
              ghost lastEnd: nat, ghost expectClose: bool, ghost items: seq<Item>)
    returns (r: Result<seq<Coalescence>, Spanned<Error>>)
    requires stream.Valid()
    requires items != [] && items[0] == Ok(Spanned(Tokens.ParenthesisOpen, span)) && items[1..] == stream.Rest()
    modifies stream
    ensures stream.Valid() && old(stream.index) <= stream.index
    ensures r.Err? ==> Level(items, coalesces, valued, lastEnd, expectClose, false) == Run(Err(r.error), stream.Rest())
    ensures r.Ok? ==> Level(items, coalesces, valued, lastEnd, expectClose, false)
                      == Level(stream.Rest(), r.value, true, span.end, expectClose, false)
    decreases |stream.items| - stream.index, 1
  {
    LevelOpen(items, coalesces, valued, lastEnd, expectClose, false);
    var before := coalesces;
    if valued {
      before := before + [Coalescence.Operator(Tokens.Multiply, span)];
    }
    var inner := Coalesce(stream, false, true);
    if inner.Err? {
      return Err(inner.error);
    }
    r := Ok(before + [inner.value]);
  }

  /** `coalesce_root` (src/coalesce.rs:8-10): the whole line as one level that no `(`
      opened. */
  method CoalesceRoot(lexer: Lexer) returns (r: Result<Coalescence, Spanned<Error>>)
    requires lexer.Valid()
    modifies lexer
    ensures lexer.Valid() && r == Root(Lex(lexer.text, old(lexer.pos)), false)
  {
    var items := lexer.Drain();
    var stream := new Stream(items);
    r := Coalesce(stream, false, false);
  }
}
