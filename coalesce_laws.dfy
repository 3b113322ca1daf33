/** What the coalescer guarantees (src/coalesce.rs): the `;` marker groups exactly the units
    from the (count + 1)-th operand from the back; every group it returns is non-empty, so its
    span is defined; with markers confined to operand positions (`strict`), every group has
    the alternating shape the parser relies on; and where the strict reading succeeds the
    source's reading gives the same result. */
module CoalesceLaws {
  import opened Wrappers
  import opened Spans
  import opened Errors
  import opened Items
  import Tokens
  import opened Coalescences
  import opened Lexing
  import opened Coalescing

  // ---------------------------------------------------------------------------------------
  // The `;` marker

  /** The number of units in `units[lo..hi]` that are not binary operators. */
  function ValuedCount(units: seq<Coalescence>, lo: nat, hi: nat): nat
    requires lo <= hi <= |units|
    decreases hi - lo
  {
    if lo == hi then 0 else ValuedCount(units, lo, hi - 1) + (if units[hi - 1].Operator? then 0 else 1)
  }

  lemma {:induction false} ValuedCountIsValuedUnits(units: seq<Coalescence>, lo: nat, hi: nat)
    requires lo <= hi <= |units|
    ensures ValuedCount(units, lo, hi) == |ValuedUnits(units[lo..hi])|
    decreases hi - lo
  {
    if lo < hi {
      ValuedCountIsValuedUnits(units, lo, hi - 1);
      assert units[lo..hi][..hi - 1 - lo] == units[lo..hi - 1];
    }
  }

  /** The back scan stops at the unit that makes `need` valued units up to `hi`, and finds
      nothing exactly when there are fewer. */
  lemma {:induction false} SpliceIndexCounts(units: seq<Coalescence>, hi: nat, need: nat)
    requires hi <= |units| && need >= 1
    ensures SpliceIndex(units, hi, need).None? <==> ValuedCount(units, 0, hi) < need
    ensures SpliceIndex(units, hi, need).Some? ==>
      ValuedCount(units, SpliceIndex(units, hi, need).value, hi) == need
    decreases hi
  {
    if hi > 0 {
      if units[hi - 1].Operator? {
        SpliceIndexCounts(units, hi - 1, need);
      } else if need > 1 {
        SpliceIndexCounts(units, hi - 1, need - 1);
      }
    }
  }

  /** `Coalesce(count)` fails exactly when the level holds at most `count` valued units;
      otherwise the level is cut before a unit that is not a binary operator, and the group
      split off holds exactly `count + 1` valued units (src/coalesce.rs:60-78). */
  lemma SpliceGroups(units: seq<Coalescence>, count: nat)
    ensures Splice(units, count).None? <==> |ValuedUnits(units)| <= count
    ensures Splice(units, count).Some? ==>
      exists index :: 0 <= index < |units|
        && !units[index].Operator?
        && |ValuedUnits(units[index..])| == count + 1
        && Splice(units, count).value == units[..index] + [Multiple(units[index..])]
  {
    SpliceIndexCounts(units, |units|, count + 1);
    ValuedCountIsValuedUnits(units, 0, |units|);
    assert units[0..|units|] == units;
    match SpliceIndex(units, |units|, count + 1)
    case None =>
    case Some(index) =>
      ValuedCountIsValuedUnits(units, index, |units|);
      assert units[index..|units|] == units[index..];
  }

  // ---------------------------------------------------------------------------------------
  // Every group is non-empty

  /** What holds of a level between two items: its units are non-empty trees, and once an
      operand has been read there is at least one unit. */
  predicate Filled(units: seq<Coalescence>, lastValued: bool)
  {
    (forall k :: 0 <= k < |units| ==> NonEmpty(units[k])) && (lastValued ==> |units| > 0)
  }

  lemma SpliceFilled(units: seq<Coalescence>, count: nat)
    requires forall k :: 0 <= k < |units| ==> NonEmpty(units[k])
    requires Splice(units, count).Some?
    ensures var spliced := Splice(units, count).value;
      |spliced| > 0 && forall k :: 0 <= k < |spliced| ==> NonEmpty(spliced[k])
  {
    var index := SpliceIndex(units, |units|, count + 1).value;
    var spliced := Splice(units, count).value;
    assert spliced == units[..index] + [Multiple(units[index..])];
    assert NonEmpty(Multiple(units[index..]));
  }

  lemma ShiftFilled(token: Tokens.Token, span: Span, units: seq<Coalescence>, lastValued: bool, strict: bool)
    requires !token.ParenthesisOpen? && !token.ParenthesisClose?
    requires Filled(units, lastValued)
    ensures Shift(token, span, units, lastValued, strict).Ok? ==>
      var (pushed, valued) := Shift(token, span, units, lastValued, strict).value;
      Filled(pushed, valued)
  {
    if token.Coalesce? && Splice(units, token.count).Some? {
      SpliceFilled(units, token.count);
    }
  }

  /** A level that `coalesce` closes successfully is a non-empty `Multiple`, so
      `byte_start` and `byte_end` are defined on everything the coalescer returns. */
  lemma {:induction false} LevelNonEmpty(items: seq<Item>, units: seq<Coalescence>, lastValued: bool,
                                         lastByteEnd: nat, expectClose: bool, strict: bool)
    requires Filled(units, lastValued)
    ensures var run := Level(items, units, lastValued, lastByteEnd, expectClose, strict);
      run.result.Ok? ==> run.result.value.Multiple? && NonEmpty(run.result.value)
    decreases |items|, 1
  {
    if items != [] && items[0].Ok? {
      var token := items[0].value;
      match token.node
      case ParenthesisClose =>
        LevelClose(items, units, lastValued, lastByteEnd, expectClose, strict);
      case ParenthesisOpen =>
        OpenNonEmpty(items, units, lastValued, lastByteEnd, expectClose, strict);
      case _ =>
        LevelShift(items, units, lastValued, lastByteEnd, expectClose, strict);
        ShiftFilled(token.node, token.span, units, lastValued, strict);
        var shifted := Shift(token.node, token.span, units, lastValued, strict);
        if shifted.Ok? {
          LevelNonEmpty(items[1..], shifted.value.0, shifted.value.1, token.span.end, expectClose, strict);
        }
    }
  }

  lemma {:induction false} OpenNonEmpty(items: seq<Item>, units: seq<Coalescence>, lastValued: bool,
                                        lastByteEnd: nat, expectClose: bool, strict: bool)
    requires Filled(units, lastValued)
    requires items != [] && items[0].Ok? && items[0].value.node.ParenthesisOpen?
    ensures var run := Level(items, units, lastValued, lastByteEnd, expectClose, strict);
      run.result.Ok? ==> run.result.value.Multiple? && NonEmpty(run.result.value)
    decreases |items|, 0
  {
    var span := items[0].value.span;
    LevelOpen(items, units, lastValued, lastByteEnd, expectClose, strict);
    var before := if lastValued then units + [Coalescence.Operator(Tokens.Multiply, span)] else units;
    var inner := Level(items[1..], [], false, 0, true, strict);
    LevelNonEmpty(items[1..], [], false, 0, true, strict);
    if inner.result.Ok? {
      LevelNonEmpty(inner.rest, before + [inner.result.value], true, span.end, expectClose, strict);
    }
  }

  /** `coalesce_root` returns a non-empty `Multiple` whenever it succeeds. */
  lemma RootNonEmpty(items: seq<Item>, strict: bool)
    ensures Root(items, strict).Ok? ==> Root(items, strict).value.Multiple? && NonEmpty(Root(items, strict).value)
  {
    LevelNonEmpty(items, [], false, 0, false, strict);
  }

  // ---------------------------------------------------------------------------------------
  // With markers confined to operand positions, every group is well formed

  /** What holds of a level between two items in the strict reading: the units alternate,
      are non-empty trees, and `last_valued` says exactly that the last unit is an operand. */
  predicate Shaped(units: seq<Coalescence>, lastValued: bool)
  {
    Alternates(units)
    && (forall k :: 0 <= k < |units| ==> NonEmpty(units[k]))
    && (lastValued <==> |units| > 0 && IsAtom(units[|units| - 1]))
  }

  lemma AlternatesPush(units: seq<Coalescence>, u: Coalescence)
    requires Alternates(units) && WellFormed(u)
    requires if units == [] then !u.Operator? else (IsAtom(units[|units| - 1]) <==> u.Operator?)
    ensures Alternates(units + [u])
  {
    var pushed := units + [u];
    forall k | 0 <= k < |pushed| - 1
      ensures IsAtom(pushed[k]) <==> pushed[k + 1].Operator?
    {
      if k < |units| - 1 {
        assert pushed[k] == units[k] && pushed[k + 1] == units[k + 1];
      }
    }
  }

  /** The group a marker splits off is well formed, and so is what remains in front of it. */
  lemma AlternatesSplice(units: seq<Coalescence>, index: nat)
    requires Alternates(units) && index < |units| && !units[index].Operator?
    requires IsAtom(units[|units| - 1])
    ensures WellFormed(Multiple(units[index..]))
    ensures Alternates(units[..index] + [Multiple(units[index..])])
  {
    var tail := units[index..];
    assert tail[|tail| - 1] == units[|units| - 1];
    forall k | 0 <= k < |tail| - 1
      ensures IsAtom(tail[k]) <==> tail[k + 1].Operator?
    {
      assert tail[k] == units[index + k] && tail[k + 1] == units[index + k + 1];
    }
    assert Alternates(tail);
    if index > 0 {
      assert IsAtom(units[index - 1]) <==> units[index].Operator?;
    }
    AlternatesPush(units[..index], Multiple(tail));
  }

  lemma ShiftShaped(token: Tokens.Token, span: Span, units: seq<Coalescence>, lastValued: bool)
    requires !token.ParenthesisOpen? && !token.ParenthesisClose?
    requires Shaped(units, lastValued)
    ensures Shift(token, span, units, lastValued, true).Ok? ==>
      var (pushed, valued) := Shift(token, span, units, lastValued, true).value;
      Shaped(pushed, valued)
  {
    match token
    case Operator(operator) =>
      if lastValued {
        AlternatesPush(units, Coalescence.Operator(operator, span));
      } else if operator == Tokens.Minus {
        AlternatesPush(units, Coalescence.Function(UnaryMinus, span));
      }
    case Function(kind) =>
      if !lastValued {
        AlternatesPush(units, Coalescence.Function(kind, span));
      }
    case Coalesce(count) =>
      if lastValued && Splice(units, count).Some? {
        var index := SpliceIndex(units, |units|, count + 1).value;
        AlternatesSplice(units, index);
        SpliceFilled(units, count);
      }
    case Terminal(_) | Variable(_) | Constant(_) =>
      ValueShaped(units, lastValued, ValueUnit(token, span), span);
  }

  lemma ValueShaped(units: seq<Coalescence>, lastValued: bool, value: Coalescence, span: Span)
    requires Shaped(units, lastValued) && IsAtom(value) && !value.Multiple?
    ensures Value(units, lastValued, value, span).Ok? ==> Shaped(Value(units, lastValued, value, span).value, true)
  {
    if !lastValued {
      AlternatesPush(units, value);
    } else if units[|units| - 1].Multiple? {
      var times := Coalescence.Operator(Tokens.Multiply, Span(value.span.start, value.span.start + 1));
      AlternatesPush(units, times);
      AlternatesPush(units + [times], value);
      assert units + [times, value] == units + [times] + [value];
    }
  }

  /** In the strict reading, a level that closes successfully is a well-formed, non-empty
      `Multiple`: functions* operand (operator functions* operand)*, at every depth. */
  lemma {:induction false} LevelWellFormed(items: seq<Item>, units: seq<Coalescence>, lastValued: bool,
                                           lastByteEnd: nat, expectClose: bool)
    requires Shaped(units, lastValued)
    ensures var run := Level(items, units, lastValued, lastByteEnd, expectClose, true);
      run.result.Ok? ==> run.result.value.Multiple? && WellFormed(run.result.value) && NonEmpty(run.result.value)
    decreases |items|, 1
  {
    if items != [] && items[0].Ok? {
      var token := items[0].value;
      match token.node
      case ParenthesisClose =>
        LevelClose(items, units, lastValued, lastByteEnd, expectClose, true);
      case ParenthesisOpen =>
        OpenWellFormed(items, units, lastValued, lastByteEnd, expectClose);
      case _ =>
        LevelShift(items, units, lastValued, lastByteEnd, expectClose, true);
        ShiftShaped(token.node, token.span, units, lastValued);
        var shifted := Shift(token.node, token.span, units, lastValued, true);
        if shifted.Ok? {
          LevelWellFormed(items[1..], shifted.value.0, shifted.value.1, token.span.end, expectClose);
        }
    }
  }

  lemma {:induction false} OpenWellFormed(items: seq<Item>, units: seq<Coalescence>, lastValued: bool,
                                          lastByteEnd: nat, expectClose: bool)
    requires Shaped(units, lastValued)
    requires items != [] && items[0].Ok? && items[0].value.node.ParenthesisOpen?
    ensures var run := Level(items, units, lastValued, lastByteEnd, expectClose, true);
      run.result.Ok? ==> run.result.value.Multiple? && WellFormed(run.result.value) && NonEmpty(run.result.value)
    decreases |items|, 0
  {
    var span := items[0].value.span;
    LevelOpen(items, units, lastValued, lastByteEnd, expectClose, true);
    var times := Coalescence.Operator(Tokens.Multiply, span);
    var before := if lastValued then units + [times] else units;
    var inner := Level(items[1..], [], false, 0, true, true);
    LevelWellFormed(items[1..], [], false, 0, true);
    if inner.result.Ok? {
      if lastValued {
        AlternatesPush(units, times);
      }
      AlternatesPush(before, inner.result.value);
      LevelWellFormed(inner.rest, before + [inner.result.value], true, span.end, expectClose);
    }
  }

  /** The strict `coalesce_root` returns only well-formed, non-empty groups. */
  lemma RootWellFormed(items: seq<Item>)
    ensures Root(items, true).Ok? ==>
      Root(items, true).value.Multiple? && WellFormed(Root(items, true).value) && NonEmpty(Root(items, true).value)
  {
    LevelWellFormed(items, [], false, 0, false);
  }

  // ---------------------------------------------------------------------------------------
  // The strict reading only adds failures

  lemma ShiftAgrees(token: Tokens.Token, span: Span, units: seq<Coalescence>, lastValued: bool)
    requires !token.ParenthesisOpen? && !token.ParenthesisClose?
    ensures Shift(token, span, units, lastValued, true).Ok? ==>
      Shift(token, span, units, lastValued, false) == Shift(token, span, units, lastValued, true)
  {
  }

  /** Where the strict reading closes a level successfully, the source's reading returns the
      same group and leaves the same items unread. */
  lemma {:induction false} StrictAgrees(items: seq<Item>, units: seq<Coalescence>, lastValued: bool,
                                        lastByteEnd: nat, expectClose: bool)
    ensures Level(items, units, lastValued, lastByteEnd, expectClose, true).result.Ok? ==>
      Level(items, units, lastValued, lastByteEnd, expectClose, false)
      == Level(items, units, lastValued, lastByteEnd, expectClose, true)
    decreases |items|, 1
  {
    if items != [] && items[0].Ok? {
      var token := items[0].value;
      match token.node
      case ParenthesisClose =>
        LevelClose(items, units, lastValued, lastByteEnd, expectClose, true);
        LevelClose(items, units, lastValued, lastByteEnd, expectClose, false);
      case ParenthesisOpen =>
        OpenAgrees(items, units, lastValued, lastByteEnd, expectClose);
      case _ =>
        LevelShift(items, units, lastValued, lastByteEnd, expectClose, true);
        LevelShift(items, units, lastValued, lastByteEnd, expectClose, false);
        ShiftAgrees(token.node, token.span, units, lastValued);
        var shifted := Shift(token.node, token.span, units, lastValued, true);
        if shifted.Ok? {
          StrictAgrees(items[1..], shifted.value.0, shifted.value.1, token.span.end, expectClose);
        }
    }
  }

  lemma {:induction false} OpenAgrees(items: seq<Item>, units: seq<Coalescence>, lastValued: bool,
                                      lastByteEnd: nat, expectClose: bool)
    requires items != [] && items[0].Ok? && items[0].value.node.ParenthesisOpen?
    ensures Level(items, units, lastValued, lastByteEnd, expectClose, true).result.Ok? ==>
      Level(items, units, lastValued, lastByteEnd, expectClose, false)
      == Level(items, units, lastValued, lastByteEnd, expectClose, true)
    decreases |items|, 0
  {
    var span := items[0].value.span;
    LevelOpen(items, units, lastValued, lastByteEnd, expectClose, true);
    LevelOpen(items, units, lastValued, lastByteEnd, expectClose, false);
    var before := if lastValued then units + [Coalescence.Operator(Tokens.Multiply, span)] else units;
    var inner := Level(items[1..], [], false, 0, true, true);
    StrictAgrees(items[1..], [], false, 0, true);
    if inner.result.Ok? {
      StrictAgrees(inner.rest, before + [inner.result.value], true, span.end, expectClose);
    }
  }

  /** `coalesce_root` in both readings, where the strict one succeeds. */
  lemma RootAgrees(items: seq<Item>)
    ensures Root(items, true).Ok? ==> Root(items, false) == Root(items, true)
  {
    StrictAgrees(items, [], false, 0, false);
  }

  // ---------------------------------------------------------------------------------------
  // Examples

  /** An empty line has no operand: `ExpectedValued` on the byte after the last token
      (here the first byte). */
  lemma EmptyLine(strict: bool)
    ensures Root([], strict) == Err(Spanned(ExpectedValued, Span(0, 1)))
  {
  }

  function Literal(digits: string, start: nat): Item
  {
    Ok(Spanned(Tokens.Terminal(Tokens.Literal(digits, 10)), Span(start, start + 1)))
  }

  function Symbol(token: Tokens.Token, start: nat): Item
  {
    Ok(Spanned(token, Span(start, start + 1)))
  }

  /** The tokens of `1+2-;3`: a marker right after a binary operator. */
  function MarkerAfterOperator(): seq<Item>
  {
    [Literal("1", 0), Symbol(Tokens.Operator(Tokens.Add), 1), Literal("2", 2),
     Symbol(Tokens.Operator(Tokens.Minus), 3), Symbol(Tokens.Coalesce(1), 4), Literal("3", 5)]
  }

  /** Reading `1+2` pushes the three units in order. */
  lemma MarkerAfterOperatorPrefix()
    ensures var items := MarkerAfterOperator();
      var one := Coalescence.Terminal(Tokens.Literal("1", 10), Span(0, 1));
      var two := Coalescence.Terminal(Tokens.Literal("2", 10), Span(2, 3));
      var plus := Coalescence.Operator(Tokens.Add, Span(1, 2));
      Level(items, [], false, 0, false, false) == Level(items[3..], [one, plus, two], true, 3, false, false)
  {
    var items := MarkerAfterOperator();
    var one := Coalescence.Terminal(Tokens.Literal("1", 10), Span(0, 1));
    var two := Coalescence.Terminal(Tokens.Literal("2", 10), Span(2, 3));
    var plus := Coalescence.Operator(Tokens.Add, Span(1, 2));
    LevelShift(items, [], false, 0, false, false);
    assert [] + [one] == [one];
    assert Level(items, [], false, 0, false, false) == Level(items[1..], [one], true, 1, false, false);
    LevelShift(items[1..], [one], true, 1, false, false);
    assert items[1..][1..] == items[2..];
    assert [one] + [plus] == [one, plus];
    assert Level(items[1..], [one], true, 1, false, false) == Level(items[2..], [one, plus], false, 2, false, false);
    LevelShift(items[2..], [one, plus], false, 2, false, false);
    assert items[2..][1..] == items[3..];
    assert [one, plus] + [two] == [one, plus, two];
  }

  /** Then `-` is pushed, and the marker groups everything back to the second operand from
      the end, the `1`, while `last_valued` stays false. */
  lemma MarkerAfterOperatorSplice()
    ensures var items := MarkerAfterOperator();
      var one := Coalescence.Terminal(Tokens.Literal("1", 10), Span(0, 1));
      var two := Coalescence.Terminal(Tokens.Literal("2", 10), Span(2, 3));
      var plus := Coalescence.Operator(Tokens.Add, Span(1, 2));
      var minus := Coalescence.Operator(Tokens.Minus, Span(3, 4));
      Level(items[3..], [one, plus, two], true, 3, false, false)
      == Level(items[5..], [Multiple([one, plus, two, minus])], false, 5, false, false)
  {
    var items := MarkerAfterOperator();
    var one := Coalescence.Terminal(Tokens.Literal("1", 10), Span(0, 1));
    var two := Coalescence.Terminal(Tokens.Literal("2", 10), Span(2, 3));
    var plus := Coalescence.Operator(Tokens.Add, Span(1, 2));
    var minus := Coalescence.Operator(Tokens.Minus, Span(3, 4));
    LevelShift(items[3..], [one, plus, two], true, 3, false, false);
    assert items[3..][1..] == items[4..];
    assert [one, plus, two] + [minus] == [one, plus, two, minus];
    assert SpliceIndex([one, plus, two, minus], 4, 2) == Some(0);
    assert [one, plus, two, minus][..0] + [Multiple([one, plus, two, minus][0..])] == [Multiple([one, plus, two, minus])];
    LevelShift(items[4..], [one, plus, two, minus], false, 4, false, false);
    assert items[4..][1..] == items[5..];
  }

  /** The source lets the marker through in operand position: it groups `1+2-`, a group
      that ends in a binary operator, and the `3` after it is then read as an operand with
      no operator in front of it. */
  lemma MarkerAfterOperatorAsWritten()
    ensures var one := Coalescence.Terminal(Tokens.Literal("1", 10), Span(0, 1));
      var two := Coalescence.Terminal(Tokens.Literal("2", 10), Span(2, 3));
      var three := Coalescence.Terminal(Tokens.Literal("3", 10), Span(5, 6));
      var plus := Coalescence.Operator(Tokens.Add, Span(1, 2));
      var minus := Coalescence.Operator(Tokens.Minus, Span(3, 4));
      Root(MarkerAfterOperator(), false) == Ok(Multiple([Multiple([one, plus, two, minus]), three]))
  {
    var items := MarkerAfterOperator();
    var three := Coalescence.Terminal(Tokens.Literal("3", 10), Span(5, 6));
    var group := Multiple([Coalescence.Terminal(Tokens.Literal("1", 10), Span(0, 1)),
                           Coalescence.Operator(Tokens.Add, Span(1, 2)),
                           Coalescence.Terminal(Tokens.Literal("2", 10), Span(2, 3)),
                           Coalescence.Operator(Tokens.Minus, Span(3, 4))]);
    MarkerAfterOperatorPrefix();
    MarkerAfterOperatorSplice();
    LevelShift(items[5..], [group], false, 5, false, false);
    assert items[5..][1..] == [];
    assert [group] + [three] == [group, three];
  }

  /** The group `coalesce_root` returns for `1+2-;3` is not well formed: the inner group is
      followed by an operand instead of an operator. */
  lemma MarkerAfterOperatorIllFormed()
    ensures Root(MarkerAfterOperator(), false).Ok? && !WellFormed(Root(MarkerAfterOperator(), false).value)
  {
    MarkerAfterOperatorAsWritten();
    var units := Root(MarkerAfterOperator(), false).value.units;
    assert IsAtom(units[0]) && !units[1].Operator?;
  }

  /** The strict reading rejects the marker at its own span. */
  lemma MarkerAfterOperatorStrict()
    ensures Root(MarkerAfterOperator(), true) == Err(Spanned(InvalidCoalesce, Span(4, 5)))
  {
  }

  /** The tokens of `5+1+2-;3`: the same marker, with an operand and an operator below the
      group it splices. */
  function OperandBelowMarker(): seq<Item>
  {
    [Literal("5", 0), Symbol(Tokens.Operator(Tokens.Add), 1), Literal("1", 2), Symbol(Tokens.Operator(Tokens.Add), 3),
     Literal("2", 4), Symbol(Tokens.Operator(Tokens.Minus), 5), Symbol(Tokens.Coalesce(1), 6), Literal("3", 7)]
  }

  /** Reading `5+1+2` pushes the five units in order. */
  lemma OperandBelowMarkerPrefix()
    ensures var items := OperandBelowMarker();
      var five := Coalescence.Terminal(Tokens.Literal("5", 10), Span(0, 1));
      var first := Coalescence.Operator(Tokens.Add, Span(1, 2));
      var one := Coalescence.Terminal(Tokens.Literal("1", 10), Span(2, 3));
      var plus := Coalescence.Operator(Tokens.Add, Span(3, 4));
      var two := Coalescence.Terminal(Tokens.Literal("2", 10), Span(4, 5));
      Level(items, [], false, 0, false, false) == Level(items[5..], [five, first, one, plus, two], true, 5, false, false)
  {
    var items := OperandBelowMarker();
    var five := Coalescence.Terminal(Tokens.Literal("5", 10), Span(0, 1));
    var first := Coalescence.Operator(Tokens.Add, Span(1, 2));
    var one := Coalescence.Terminal(Tokens.Literal("1", 10), Span(2, 3));
    var plus := Coalescence.Operator(Tokens.Add, Span(3, 4));
    var two := Coalescence.Terminal(Tokens.Literal("2", 10), Span(4, 5));
    LevelShift(items, [], false, 0, false, false);
    assert [] + [five] == [five];
    LevelShift(items[1..], [five], true, 1, false, false);
    assert items[1..][1..] == items[2..];
    assert [five] + [first] == [five, first];
    LevelShift(items[2..], [five, first], false, 2, false, false);
    assert items[2..][1..] == items[3..];
    assert [five, first] + [one] == [five, first, one];
    LevelShift(items[3..], [five, first, one], true, 3, false, false);
    assert items[3..][1..] == items[4..];
    assert [five, first, one] + [plus] == [five, first, one, plus];
    LevelShift(items[4..], [five, first, one, plus], false, 4, false, false);
    assert items[4..][1..] == items[5..];
    assert [five, first, one, plus] + [two] == [five, first, one, plus, two];
  }

  /** Then `-` is pushed, and the marker groups back to the second operand from the end,
      the `1`: the `5+` below stays outside the group. */
  lemma OperandBelowMarkerSplice()
    ensures var items := OperandBelowMarker();
      var five := Coalescence.Terminal(Tokens.Literal("5", 10), Span(0, 1));
      var first := Coalescence.Operator(Tokens.Add, Span(1, 2));
      var one := Coalescence.Terminal(Tokens.Literal("1", 10), Span(2, 3));
      var plus := Coalescence.Operator(Tokens.Add, Span(3, 4));
      var two := Coalescence.Terminal(Tokens.Literal("2", 10), Span(4, 5));
      var minus := Coalescence.Operator(Tokens.Minus, Span(5, 6));
      Level(items[5..], [five, first, one, plus, two], true, 5, false, false)
      == Level(items[7..], [five, first, Multiple([one, plus, two, minus])], false, 7, false, false)
  {
    var items := OperandBelowMarker();
    var five := Coalescence.Terminal(Tokens.Literal("5", 10), Span(0, 1));
    var first := Coalescence.Operator(Tokens.Add, Span(1, 2));
    var one := Coalescence.Terminal(Tokens.Literal("1", 10), Span(2, 3));
    var plus := Coalescence.Operator(Tokens.Add, Span(3, 4));
    var two := Coalescence.Terminal(Tokens.Literal("2", 10), Span(4, 5));
    var minus := Coalescence.Operator(Tokens.Minus, Span(5, 6));
    var units := [five, first, one, plus, two, minus];
    LevelShift(items[5..], [five, first, one, plus, two], true, 5, false, false);
    assert items[5..][1..] == items[6..];
    assert [five, first, one, plus, two] + [minus] == units;
    assert SpliceIndex(units, 6, 2) == Some(2);
    assert units[..2] + [Multiple(units[2..])] == [five, first, Multiple([one, plus, two, minus])];
    LevelShift(items[6..], units, false, 6, false, false);
    assert items[6..][1..] == items[7..];
  }

  /** With an operand below the spliced group, the source's output for `5+1+2-;3` is a
      level `5 + (1+2-) 3`: the group ending in an operator sits in operand position and
      the `3` follows it with no operator between. */
  lemma OperandBelowMarkerAsWritten()
    ensures var five := Coalescence.Terminal(Tokens.Literal("5", 10), Span(0, 1));
      var first := Coalescence.Operator(Tokens.Add, Span(1, 2));
      var one := Coalescence.Terminal(Tokens.Literal("1", 10), Span(2, 3));
      var plus := Coalescence.Operator(Tokens.Add, Span(3, 4));
      var two := Coalescence.Terminal(Tokens.Literal("2", 10), Span(4, 5));
      var minus := Coalescence.Operator(Tokens.Minus, Span(5, 6));
      var three := Coalescence.Terminal(Tokens.Literal("3", 10), Span(7, 8));
      Root(OperandBelowMarker(), false) == Ok(Multiple([five, first, Multiple([one, plus, two, minus]), three]))
  {
    var items := OperandBelowMarker();
    var five := Coalescence.Terminal(Tokens.Literal("5", 10), Span(0, 1));
    var first := Coalescence.Operator(Tokens.Add, Span(1, 2));
    var three := Coalescence.Terminal(Tokens.Literal("3", 10), Span(7, 8));
    var group := Multiple([Coalescence.Terminal(Tokens.Literal("1", 10), Span(2, 3)),
                           Coalescence.Operator(Tokens.Add, Span(3, 4)),
                           Coalescence.Terminal(Tokens.Literal("2", 10), Span(4, 5)),
                           Coalescence.Operator(Tokens.Minus, Span(5, 6))]);
    OperandBelowMarkerPrefix();
    OperandBelowMarkerSplice();
    LevelShift(items[7..], [five, first, group], false, 7, false, false);
    assert items[7..][1..] == [];
    assert [five, first, group] + [three] == [five, first, group, three];
  }

  /** The strict reading rejects this marker too, at its own span. */
  lemma OperandBelowMarkerStrict()
    ensures Root(OperandBelowMarker(), true) == Err(Spanned(InvalidCoalesce, Span(6, 7)))
  {
  }

  /** An unclosed bracket is accepted: at the end of the input the open level is returned
      as it stands, so `(1+2` coalesces to a group holding the group `1+2`. */
  lemma UnclosedBracket(strict: bool)
    ensures var one := Coalescence.Terminal(Tokens.Literal("1", 10), Span(1, 2));
      var plus := Coalescence.Operator(Tokens.Add, Span(2, 3));
      var two := Coalescence.Terminal(Tokens.Literal("2", 10), Span(3, 4));
      Root([Symbol(Tokens.ParenthesisOpen, 0), Literal("1", 1), Symbol(Tokens.Operator(Tokens.Add), 2), Literal("2", 3)], strict)
      == Ok(Multiple([Multiple([one, plus, two])]))
  {
    var items := [Symbol(Tokens.ParenthesisOpen, 0), Literal("1", 1), Symbol(Tokens.Operator(Tokens.Add), 2), Literal("2", 3)];
    var one := Coalescence.Terminal(Tokens.Literal("1", 10), Span(1, 2));
    var plus := Coalescence.Operator(Tokens.Add, Span(2, 3));
    var two := Coalescence.Terminal(Tokens.Literal("2", 10), Span(3, 4));
    var inner := items[1..];
    LevelShift(inner, [], false, 0, true, strict);
    assert [] + [one] == [one];
    LevelShift(inner[1..], [one], true, 2, true, strict);
    assert inner[1..][1..] == inner[2..];
    assert [one] + [plus] == [one, plus];
    LevelShift(inner[2..], [one, plus], false, 3, true, strict);
    assert inner[2..][1..] == [];
    assert [one, plus] + [two] == [one, plus, two];
    assert Level(inner, [], false, 0, true, strict) == Run(Ok(Multiple([one, plus, two])), []);
    LevelOpen(items, [], false, 0, false, strict);
    assert [] + [Multiple([one, plus, two])] == [Multiple([one, plus, two])];
  }
}
