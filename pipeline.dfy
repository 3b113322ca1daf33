/** The front end as the interface drives it (src/interface/basic.rs:49-54): lex the line,
    coalesce it, and hand a successful coalescence to the parser. Evaluating the tree is not
    part of this model. */
module Pipeline {
  import opened Wrappers
  import opened Spans
  import opened Errors
  import opened Coalescences
  import opened Lexing
  import opened Coalescing
  import CoalesceLaws
  import opened Parsing
  import ParseLaws

  /** What the front end makes of a line: a tree, a reported error, or a panic of the
      parser. */
  datatype Outcome = Parsed(node: Spanned<Node>) | Rejected(error: Spanned<Error>) | Panic

  /** `coalesce_root(lexer)?` followed by `parse_root`, on the tokens of a line. */
  function FrontEnd(items: seq<Item>): Outcome
  {
    match Root(items, false)
    case Err(error) => Rejected(error)
    case Ok(c) =>
      match ParseRoot(c)
      case None => Panic
      case Some(node) => Parsed(node)
  }

  /** The front end on a lexer that has not been read yet. */
  method Front(lexer: Lexer) returns (r: Outcome)
    requires lexer.Valid()
    modifies lexer
    ensures r == FrontEnd(Lex(lexer.text, old(lexer.pos)))
  {
    var coalesced := CoalesceRoot(lexer);
    if coalesced.Err? {
      return Rejected(coalesced.error);
    }
    var node := ParseExpression(coalesced.value);
    r := if node.None? then Panic else Parsed(node.value);
  }

  /** Wherever the strict reading of the `;` marker accepts a line, the source's reading
      accepts it too, with the same group, and the parser turns that group into one tree
      without panicking, spanning from the first token byte to the last. */
  lemma StrictLinesParse(items: seq<Item>)
    ensures Root(items, true).Ok? ==>
      var c := Root(items, true).value;
      NonEmpty(c) && FrontEnd(items).Parsed? && FrontEnd(items).node.span == Span(ByteStart(c), ByteEnd(c))
  {
    if Root(items, true).Ok? {
      CoalesceLaws.RootAgrees(items);
      CoalesceLaws.RootWellFormed(items);
      ParseLaws.ParseRootWellFormed(Root(items, true).value);
    }
  }

  /** The tokens of `1+2-;3` pass the coalescer as written and then make the parser panic. */
  lemma MarkerAfterOperatorPanics()
    ensures FrontEnd(CoalesceLaws.MarkerAfterOperator()) == Panic
  {
    CoalesceLaws.MarkerAfterOperatorAsWritten();
    ParseLaws.MarkerAfterOperatorPanics(Coalescence.Terminal(Tokens.Literal("3", 10), Span(5, 6)));
  }

  /** The tokens of `5+1+2-;3` pass the coalescer as written and then parse, without a
      panic, to the misshapen tree (5-(1+2))+3. */
  lemma OperandBelowMarkerMisparses()
    ensures FrontEnd(CoalesceLaws.OperandBelowMarker()) ==
      Parsed(ParseLaws.Binary(Tokens.Add, 1,
        ParseLaws.Binary(Tokens.Minus, 5, ParseLaws.Leaf('5', 0), ParseLaws.Binary(Tokens.Add, 3, ParseLaws.Leaf('1', 2), ParseLaws.Leaf('2', 4))),
        ParseLaws.Leaf('3', 7)))
  {
    CoalesceLaws.OperandBelowMarkerAsWritten();
    ParseLaws.OperandBelowMarkerMisparse();
    assert ParseLaws.Digit('5', 0) == Coalescence.Terminal(Tokens.Literal("5", 10), Span(0, 1));
    assert ParseLaws.Digit('3', 7) == Coalescence.Terminal(Tokens.Literal("3", 10), Span(7, 8));
    assert ParseLaws.TrailingGroup() == [Coalescence.Terminal(Tokens.Literal("1", 10), Span(2, 3)),
      Coalescence.Operator(Tokens.Add, Span(3, 4)), Coalescence.Terminal(Tokens.Literal("2", 10), Span(4, 5)),
      Coalescence.Operator(Tokens.Minus, Span(5, 6))];
  }
}
