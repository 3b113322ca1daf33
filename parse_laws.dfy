/** What the parser guarantees on the coalescer's well-formed output: every well-formed,
    non-empty group parses without a panic into exactly one node, pushed on top of the node
    stack it found, whose span runs from the group's first byte to its last, and with the
    operator stack left as it was. The proof follows one level at a time; inside a level the
    part of the stacks above the level's base is kept apart from the part below it. */
module ParseLaws {
  import opened Wrappers
  import opened Spans
  import opened Items
  import Tokens
  import opened Coalescences
  import opened Parsing

  /** The stacks `t` of a level put on top of the stacks below it. */
  function Lift(operators: seq<ParserOperator>, nodes: seq<Spanned<Node>>, t: Stacks): Stacks
  {
    Stacks(operators + t.operators, nodes + t.nodes)
  }

  /** Within a level, a prefix function is followed on the operator stack only by prefix
      functions: the stack reads binary operators first, then functions. */
  predicate BinaryFirst(pending: seq<ParserOperator>)
  {
    forall j, k :: 0 <= j < k < |pending| && pending[j].PrefixFunction? ==> pending[k].PrefixFunction?
  }

  /** The number of binary operators waiting. */
  function BinaryCount(pending: seq<ParserOperator>): nat
  {
    if pending == [] then 0
    else BinaryCount(pending[..|pending| - 1]) + (if pending[|pending| - 1].BinaryOperator? then 1 else 0)
  }

  lemma {:induction false} BinaryCountPush(pending: seq<ParserOperator>, op: ParserOperator)
    ensures BinaryCount(pending + [op]) == BinaryCount(pending) + (if op.BinaryOperator? then 1 else 0)
  {
    assert (pending + [op])[..|pending|] == pending;
  }

  /** A level with no binary operator waiting holds only functions. */
  lemma {:induction false} BinaryCountZero(pending: seq<ParserOperator>)
    requires BinaryCount(pending) == 0
    ensures forall k :: 0 <= k < |pending| ==> pending[k].PrefixFunction?
  {
    if pending != [] {
      BinaryCountZero(pending[..|pending| - 1]);
      assert forall k :: 0 <= k < |pending| - 1 ==> pending[..|pending| - 1][k] == pending[k];
    }
  }

  /** The leftmost part of what the level has read starts at `start`: the first waiting
      function when the operator stack begins with one, otherwise the first node. */
  predicate StartsAt(t: Stacks, start: nat)
  {
    if t.operators != [] && t.operators[0].PrefixFunction? then t.operators[0].prefix.span.start == start
    else |t.nodes| > 0 && t.nodes[0].span.start == start
  }

  /** The state after an operand: one node more than waiting binary operators, the last
      node ending where the operand ends. */
  predicate Ready(t: Stacks, start: nat, end: nat)
  {
    && BinaryFirst(t.operators)
    && |t.nodes| == BinaryCount(t.operators) + 1
    && t.nodes[|t.nodes| - 1].span.end == end
    && StartsAt(t, start)
  }

  /** The state after a binary operator or a function: an operand is still owed. */
  predicate Waiting(t: Stacks, start: nat)
  {
    && BinaryFirst(t.operators)
    && t.operators != []
    && |t.nodes| == BinaryCount(t.operators)
    && StartsAt(t, start)
  }

  /** `construct` on the level's own stacks never reaches below them. */
  lemma ConstructLift(operators: seq<ParserOperator>, nodes: seq<Spanned<Node>>, t: Stacks)
    requires t.operators != [] && |t.nodes| >= Arity(t.operators[|t.operators| - 1])
    ensures Construct(t).Some?
    ensures Construct(Lift(operators, nodes, t)) == Some(Lift(operators, nodes, Construct(t).value))
  {
    var lifted := Lift(operators, nodes, t);
    var n := |t.nodes|;
    assert lifted.operators[|lifted.operators| - 1] == t.operators[|t.operators| - 1];
    assert lifted.operators[..|lifted.operators| - 1] == operators + t.operators[..|t.operators| - 1];
    assert lifted.nodes[|lifted.nodes| - 1] == t.nodes[n - 1];
    match t.operators[|t.operators| - 1]
    case BinaryOperator(operator) =>
      var node := Spanned(Node.Operator(operator, t.nodes[n - 2], t.nodes[n - 1]), Span(t.nodes[n - 2].span.start, t.nodes[n - 1].span.end));
      assert Construct(t) == Some(Stacks(t.operators[..|t.operators| - 1], t.nodes[..n - 2] + [node]));
      assert lifted.nodes[|lifted.nodes| - 2] == t.nodes[n - 2];
      assert lifted.nodes[..|lifted.nodes| - 2] == nodes + t.nodes[..n - 2];
      assert (nodes + t.nodes[..n - 2]) + [node] == nodes + (t.nodes[..n - 2] + [node]);
    case PrefixFunction(prefix) =>
      var node := Spanned(Node.Function(prefix.node, t.nodes[n - 1]), Span(prefix.span.start, t.nodes[n - 1].span.end));
      assert Construct(t) == Some(Stacks(t.operators[..|t.operators| - 1], t.nodes[..n - 1] + [node]));
      assert lifted.nodes[..|lifted.nodes| - 1] == nodes + t.nodes[..n - 1];
      assert (nodes + t.nodes[..n - 1]) + [node] == nodes + (t.nodes[..n - 1] + [node]);
  }

  /** One `construct` on a ready level succeeds and leaves it ready. */
  lemma ConstructReady(t: Stacks, start: nat, end: nat)
    requires Ready(t, start, end) && t.operators != []
    ensures |t.nodes| >= Arity(t.operators[|t.operators| - 1])
    ensures Construct(t).Some? && Ready(Construct(t).value, start, end)
  {
    var m := |t.operators|;
    var top := t.operators[m - 1];
    var init := t.operators[..m - 1];
    assert t.operators == init + [top];
    BinaryCountPush(init, top);
    var r := Construct(t).value;
    assert r.operators == init;
    assert BinaryFirst(init) by {
      forall j, k | 0 <= j < k < |init| && init[j].PrefixFunction?
        ensures init[k].PrefixFunction?
      {
        assert init[j] == t.operators[j] && init[k] == t.operators[k];
      }
    }
    if top.PrefixFunction? && |t.nodes| == 1 {
      if t.operators[0].BinaryOperator? {
        BinaryCountZero(t.operators);
        assert false;
      }
      if init != [] {
        assert init[0] == t.operators[0];
      }
    } else if top.PrefixFunction? {
      assert init == [] ==> BinaryCount(init) == 0;
      assert init[0] == t.operators[0];
      assert r.nodes[0] == t.nodes[0];
    } else {
      assert forall k :: 0 <= k < m ==> t.operators[k].BinaryOperator?;
      if init != [] {
        assert init[0] == t.operators[0];
      }
      if |t.nodes| > 2 {
        assert r.nodes[0] == t.nodes[0];
      }
    }
  }

  /** The reduction loop on a ready level succeeds, stays inside the level and leaves it
      ready, with either nothing left waiting or a binary operator that binds less tightly
      than the incoming one on top. */
  lemma {:induction false} ReduceReady(operators: seq<ParserOperator>, nodes: seq<Spanned<Node>>,
                                       t: Stacks, start: nat, end: nat, p: nat)
    returns (r: Stacks)
    requires Ready(t, start, end) && p < USIZE_MAX
    ensures Reduce(Lift(operators, nodes, t), |operators|, p) == Some(Lift(operators, nodes, r))
    ensures Ready(r, start, end)
    ensures r.operators == [] ||
      (r.operators[|r.operators| - 1].BinaryOperator? && ParserPrecedence(r.operators[|r.operators| - 1]) < p)
    decreases |t.operators|
  {
    if t.operators != [] && ParserPrecedence(t.operators[|t.operators| - 1]) >= p {
      ConstructReady(t, start, end);
      ReduceLift(operators, nodes, t, p);
      r := ReduceReady(operators, nodes, Construct(t).value, start, end, p);
    } else {
      ReduceLift(operators, nodes, t, p);
      r := t;
    }
  }

  /** One round of the reduction loop on lifted stacks is the round on the level's own. */
  lemma ReduceLift(operators: seq<ParserOperator>, nodes: seq<Spanned<Node>>, t: Stacks, p: nat)
    requires t.operators != [] ==> |t.nodes| >= Arity(t.operators[|t.operators| - 1])
    ensures t.operators != [] && ParserPrecedence(t.operators[|t.operators| - 1]) >= p ==>
      Construct(t).Some? &&
      Reduce(Lift(operators, nodes, t), |operators|, p) == Reduce(Lift(operators, nodes, Construct(t).value), |operators|, p)
    ensures !(t.operators != [] && ParserPrecedence(t.operators[|t.operators| - 1]) >= p) ==>
      Reduce(Lift(operators, nodes, t), |operators|, p) == Some(Lift(operators, nodes, t))
  {
    var lifted := Lift(operators, nodes, t);
    if t.operators != [] {
      assert lifted.operators[|lifted.operators| - 1] == t.operators[|t.operators| - 1];
      ConstructLift(operators, nodes, t);
    }
  }

  /** Closing a ready level builds its one node, spanning the level, and restores the
      stacks below it. */
  lemma {:induction false} UnwindReady(operators: seq<ParserOperator>, nodes: seq<Spanned<Node>>,
                                       t: Stacks, start: nat, end: nat)
    returns (node: Spanned<Node>)
    requires Ready(t, start, end)
    ensures Unwind(Lift(operators, nodes, t), |operators|) == Some(Stacks(operators, nodes + [node]))
    ensures node.span == Span(start, end)
    decreases |t.operators|
  {
    if t.operators == [] {
      node := t.nodes[0];
      assert t.nodes == [node];
      assert operators + t.operators == operators;
    } else {
      ConstructReady(t, start, end);
      ConstructLift(operators, nodes, t);
      node := UnwindReady(operators, nodes, Construct(t).value, start, end);
    }
  }

  /** Where a level stands after its first `i` units. */
  predicate Progress(units: seq<Coalescence>, i: nat, t: Stacks, start: nat)
    requires i <= |units| && forall k :: 0 <= k < |units| ==> NonEmpty(units[k])
  {
    if i == 0 then t == Stacks([], [])
    else if IsAtom(units[i - 1]) then Ready(t, start, ByteEnd(units[i - 1]))
    else Waiting(t, start)
  }

  /** A well-formed, non-empty group parses into one node over its whole span, pushed on
      the node stack, with the operator stack unchanged (src/parse.rs:46-56). */
  lemma {:induction false} ParseGroup(c: Coalescence, s: Stacks, state: nat) returns (node: Spanned<Node>)
    requires c.Multiple? && WellFormed(c) && NonEmpty(c)
    ensures ParseUnit(c, s, state) == Some(Stacks(s.operators, s.nodes + [node]))
    ensures node.span == Span(ByteStart(c), ByteEnd(c))
    decreases c, 1
  {
    var units := c.units;
    var base := |s.operators|;
    var empty := Stacks([], []);
    assert Lift(s.operators, s.nodes, empty) == s;
    assert units[0..] == units;
    var t := ParseUnitsFrom(units, 0, s, empty, ByteStart(units[0]));
    node := UnwindReady(s.operators, s.nodes, t, ByteStart(units[0]), ByteEnd(units[|units| - 1]));
  }

  /** The units of a well-formed group from position `i` on carry the level from where it
      stands to a ready state after the last operand. */
  lemma {:induction false} ParseUnitsFrom(units: seq<Coalescence>, i: nat, s: Stacks, t: Stacks, start: nat)
    returns (r: Stacks)
    requires WellFormedUnits(units) && forall k :: 0 <= k < |units| ==> NonEmpty(units[k])
    requires i <= |units| && start == ByteStart(units[0]) && Progress(units, i, t, start)
    ensures ParseUnits(units[i..], Lift(s.operators, s.nodes, t), |s.operators|) == Some(Lift(s.operators, s.nodes, r))
    ensures Ready(r, start, ByteEnd(units[|units| - 1]))
    decreases units, |units| - i
  {
    if i == |units| {
      assert units[i..] == [];
      r := t;
    } else {
      var u := units[i];
      assert units[i..][0] == u && units[i..][1..] == units[i + 1..];
      assert WellFormed(u);
      if i > 0 {
        assert IsAtom(units[i - 1]) <==> u.Operator?;
      }
      var next := StepUnit(units, i, s, t, start);
      r := ParseUnitsFrom(units, i + 1, s, next, start);
    }
  }

  /** One unit of a well-formed group moves the level from one `Progress` state to the next. */
  lemma {:induction false} StepUnit(units: seq<Coalescence>, i: nat, s: Stacks, t: Stacks, start: nat)
    returns (next: Stacks)
    requires WellFormedUnits(units) && forall k :: 0 <= k < |units| ==> NonEmpty(units[k])
    requires i < |units| && start == ByteStart(units[0]) && Progress(units, i, t, start)
    requires i > 0 ==> (IsAtom(units[i - 1]) <==> units[i].Operator?)
    ensures ParseUnit(units[i], Lift(s.operators, s.nodes, t), |s.operators|) == Some(Lift(s.operators, s.nodes, next))
    ensures Progress(units, i + 1, next, start)
    decreases units, |units| - i, 0
  {
    var u := units[i];
    assert WellFormed(u) && NonEmpty(u);
    if u.Operator? {
      assert i > 0 && Ready(t, start, ByteEnd(units[i - 1]));
      next := OperatorStep(s, t, u, start, ByteEnd(units[i - 1]));
    } else {
      assert i == 0 ==> t == Stacks([], []) && ByteStart(u) == start;
      assert i > 0 ==> Waiting(t, start);
      if u.Function? {
        next := FunctionStep(s, t, u, start);
      } else if u.Multiple? {
        var node := ParseGroup(u, Lift(s.operators, s.nodes, t), |s.operators|);
        next := Stacks(t.operators, t.nodes + [node]);
        assert (s.nodes + t.nodes) + [node] == s.nodes + next.nodes;
        OperandStep(t, node, t == Stacks([], []), start);
      } else {
        next := LeafStep(s, t, u, start);
      }
    }
  }

  /** A function arrives at the start of a level or after an operator or function. */
  lemma FunctionStep(s: Stacks, t: Stacks, u: Coalescence, start: nat) returns (next: Stacks)
    requires u.Function?
    requires (t == Stacks([], []) && u.span.start == start) || Waiting(t, start)
    ensures ParseUnit(u, Lift(s.operators, s.nodes, t), |s.operators|) == Some(Lift(s.operators, s.nodes, next))
    ensures Waiting(next, start)
  {
    var op := PrefixFunction(Spanned(u.kind, u.span));
    next := Stacks(t.operators + [op], t.nodes);
    assert (s.operators + t.operators) + [op] == s.operators + next.operators;
    BinaryCountPush(t.operators, op);
    assert next.operators[0] == if t.operators == [] then op else t.operators[0];
  }

  /** A binary operator arrives after an operand: the reduction loop runs, then the operator
      waits. */
  lemma OperatorStep(s: Stacks, t: Stacks, u: Coalescence, start: nat, end: nat) returns (next: Stacks)
    requires u.Operator?
    requires Ready(t, start, end)
    ensures ParseUnit(u, Lift(s.operators, s.nodes, t), |s.operators|) == Some(Lift(s.operators, s.nodes, next))
    ensures Waiting(next, start)
  {
    var p := Tokens.Precedence(u.operator);
    var reduced := ReduceReady(s.operators, s.nodes, t, start, end, p);
    next := OperatorParse(s, t, u, reduced);
    PushBinary(reduced, BinaryOperator(Spanned(u.operator, u.span)), start, end, p);
  }

  lemma OperatorParse(s: Stacks, t: Stacks, u: Coalescence, reduced: Stacks) returns (next: Stacks)
    requires u.Operator?
    requires Reduce(Lift(s.operators, s.nodes, t), |s.operators|, Tokens.Precedence(u.operator)) == Some(Lift(s.operators, s.nodes, reduced))
    ensures next == Stacks(reduced.operators + [BinaryOperator(Spanned(u.operator, u.span))], reduced.nodes)
    ensures ParseUnit(u, Lift(s.operators, s.nodes, t), |s.operators|) == Some(Lift(s.operators, s.nodes, next))
  {
    var op := BinaryOperator(Spanned(u.operator, u.span));
    next := Stacks(reduced.operators + [op], reduced.nodes);
    assert (s.operators + reduced.operators) + [op] == s.operators + next.operators;
  }

  lemma PushBinary(t: Stacks, op: ParserOperator, start: nat, end: nat, p: nat)
    requires op.BinaryOperator?
    requires Ready(t, start, end)
    requires t.operators == [] ||
      (t.operators[|t.operators| - 1].BinaryOperator? && ParserPrecedence(t.operators[|t.operators| - 1]) < p)
    ensures Waiting(Stacks(t.operators + [op], t.nodes), start)
  {
    BinaryCountPush(t.operators, op);
    var pushed := t.operators + [op];
    assert forall k :: 0 <= k < |pushed| ==> pushed[k].BinaryOperator? by {
      forall k | 0 <= k < |pushed|
        ensures pushed[k].BinaryOperator?
      {
        if k < |t.operators| {
          assert pushed[k] == t.operators[k];
        }
      }
    }
  }

  /** A number or a variable arrives at the start of a level or after an operator or
      function. */
  lemma LeafStep(s: Stacks, t: Stacks, u: Coalescence, start: nat) returns (next: Stacks)
    requires u.Terminal? || u.Variable?
    requires (t == Stacks([], []) && u.span.start == start) || Waiting(t, start)
    ensures ParseUnit(u, Lift(s.operators, s.nodes, t), |s.operators|) == Some(Lift(s.operators, s.nodes, next))
    ensures Ready(next, start, u.span.end)
  {
    var node := if u.Terminal? then Spanned(Node.Terminal(u.value), u.span) else Spanned(Node.Variable(u.name), u.span);
    next := Stacks(t.operators, t.nodes + [node]);
    assert (s.nodes + t.nodes) + [node] == s.nodes + next.nodes;
    OperandStep(t, node, t == Stacks([], []), start);
  }

  /** An operand arrives at the start of a level or after an operator or function. */
  lemma OperandStep(t: Stacks, node: Spanned<Node>, first: bool, start: nat)
    requires first ==> t == Stacks([], []) && node.span.start == start
    requires !first ==> Waiting(t, start)
    ensures Ready(Stacks(t.operators, t.nodes + [node]), start, node.span.end)
  {
    if t.nodes != [] {
      assert (t.nodes + [node])[0] == t.nodes[0];
    }
  }

  /** The whole expression: a well-formed, non-empty group parses without a panic into one
      tree spanning from its first token byte to its last (src/parse.rs:22-27). */
  lemma ParseRootWellFormed(c: Coalescence)
    requires c.Multiple? && WellFormed(c) && NonEmpty(c)
    ensures ParseRoot(c).Some?
    ensures ParseRoot(c).value.span == Span(ByteStart(c), ByteEnd(c))
  {
    var node := ParseGroup(c, Stacks([], []), 0);
    assert [] + [node] == [node];
  }

  // ---------------------------------------------------------------------------------------
  // Examples

  /** A one-digit decimal number at byte `start`, as a unit and as a node. */
  function Digit(digit: char, start: nat): Coalescence
  {
    Coalescence.Terminal(Tokens.Literal([digit], 10), Span(start, start + 1))
  }

  function Leaf(digit: char, start: nat): Spanned<Node>
  {
    Spanned(Node.Terminal(Tokens.Literal([digit], 10)), Span(start, start + 1))
  }

  function Binary(operator: Tokens.Operator, at: nat, left: Spanned<Node>, right: Spanned<Node>): Spanned<Node>
  {
    Spanned(Node.Operator(Spanned(operator, Span(at, at + 1)), left, right), Span(left.span.start, right.span.end))
  }

  /** `for_each` over two runs of units is the second run parsed from where the first left
      the stacks. */
  lemma {:induction false} ParseUnitsAppend(a: seq<Coalescence>, b: seq<Coalescence>, s: Stacks, state: nat)
    ensures ParseUnits(a + b, s, state) ==
      match ParseUnits(a, s, state)
      case None => None
      case Some(middle) => ParseUnits(b, middle, state)
    decreases |a|
  {
    if a == [] {
      assert a + b == b;
    } else {
      assert (a + b)[0] == a[0] && (a + b)[1..] == a[1..] + b;
      match ParseUnit(a[0], s, state)
      case None =>
      case Some(next) => ParseUnitsAppend(a[1..], b, next, state);
    }
  }

  /** `1 op 2` read onto empty stacks: both operands wait under the operator. */
  lemma FirstPair(op: Tokens.Operator)
    ensures ParseUnits([Digit('1', 0), Coalescence.Operator(op, Span(1, 2)), Digit('2', 2)], Stacks([], []), 0)
      == Some(Stacks([BinaryOperator(Spanned(op, Span(1, 2)))], [Leaf('1', 0), Leaf('2', 2)]))
  {
    var units := [Digit('1', 0), Coalescence.Operator(op, Span(1, 2)), Digit('2', 2)];
    var first := BinaryOperator(Spanned(op, Span(1, 2)));
    assert units[1..] == [units[1], units[2]] && units[1..][1..] == [units[2]] && units[1..][1..][1..] == [];
    assert [] + [Leaf('1', 0)] == [Leaf('1', 0)];
    assert Reduce(Stacks([], [Leaf('1', 0)]), 0, Tokens.Precedence(op)) == Some(Stacks([], [Leaf('1', 0)]));
    assert [] + [first] == [first];
    assert [Leaf('1', 0)] + [Leaf('2', 2)] == [Leaf('1', 0), Leaf('2', 2)];
    assert ParseUnits(units[1..][1..], Stacks([first], [Leaf('1', 0)]), 0) == Some(Stacks([first], [Leaf('1', 0), Leaf('2', 2)]));
    assert ParseUnits(units[1..], Stacks([], [Leaf('1', 0)]), 0) == Some(Stacks([first], [Leaf('1', 0), Leaf('2', 2)]));
    assert ParseUnit(units[0], Stacks([], []), 0) == Some(Stacks([], [Leaf('1', 0)]));
  }

  /** Then `-3`: the second `-` first reduces `1-2`, since it binds no tighter. */
  lemma LeftAssociativeTail()
    ensures ParseUnits([Coalescence.Operator(Tokens.Minus, Span(3, 4)), Digit('3', 4)],
                       Stacks([BinaryOperator(Spanned(Tokens.Minus, Span(1, 2)))], [Leaf('1', 0), Leaf('2', 2)]), 0)
      == Some(Stacks([BinaryOperator(Spanned(Tokens.Minus, Span(3, 4)))],
                     [Binary(Tokens.Minus, 1, Leaf('1', 0), Leaf('2', 2)), Leaf('3', 4)]))
  {
    var units := [Coalescence.Operator(Tokens.Minus, Span(3, 4)), Digit('3', 4)];
    var minus1 := BinaryOperator(Spanned(Tokens.Minus, Span(1, 2)));
    var minus3 := BinaryOperator(Spanned(Tokens.Minus, Span(3, 4)));
    var left := Binary(Tokens.Minus, 1, Leaf('1', 0), Leaf('2', 2));
    assert Construct(Stacks([minus1], [Leaf('1', 0), Leaf('2', 2)])) == Some(Stacks([], [left]));
    assert Reduce(Stacks([minus1], [Leaf('1', 0), Leaf('2', 2)]), 0, 0) == Some(Stacks([], [left]));
    assert [] + [minus3] == [minus3];
    assert units[1..] == [units[1]] && units[1..][1..] == [];
    assert [left] + [Leaf('3', 4)] == [left, Leaf('3', 4)];
  }

  /** `1-2-3` groups to the left: (1-2)-3. */
  lemma LeftAssociative()
    ensures ParseRoot(Multiple([Digit('1', 0), Coalescence.Operator(Tokens.Minus, Span(1, 2)), Digit('2', 2),
                                Coalescence.Operator(Tokens.Minus, Span(3, 4)), Digit('3', 4)]))
      == Some(Binary(Tokens.Minus, 3, Binary(Tokens.Minus, 1, Leaf('1', 0), Leaf('2', 2)), Leaf('3', 4)))
  {
    var head := [Digit('1', 0), Coalescence.Operator(Tokens.Minus, Span(1, 2)), Digit('2', 2)];
    var tail := [Coalescence.Operator(Tokens.Minus, Span(3, 4)), Digit('3', 4)];
    var left := Binary(Tokens.Minus, 1, Leaf('1', 0), Leaf('2', 2));
    var done := Stacks([BinaryOperator(Spanned(Tokens.Minus, Span(3, 4)))], [left, Leaf('3', 4)]);
    FirstPair(Tokens.Minus);
    LeftAssociativeTail();
    ParseUnitsAppend(head, tail, Stacks([], []), 0);
    assert head + tail == [Digit('1', 0), Coalescence.Operator(Tokens.Minus, Span(1, 2)), Digit('2', 2),
                           Coalescence.Operator(Tokens.Minus, Span(3, 4)), Digit('3', 4)];
    assert ParseUnits(head + tail, Stacks([], []), 0) == Some(done);
    var whole := Binary(Tokens.Minus, 3, left, Leaf('3', 4));
    assert Construct(done) == Some(Stacks([], [whole]));
    assert Unwind(done, 0) == Some(Stacks([], [whole]));
    assert ParseUnit(Multiple(head + tail), Stacks([], []), 0) == Some(Stacks([], [whole]));
  }

  /** Then `*3`: the `*` binds tighter than the waiting `+`, so it waits on top of it. */
  lemma TighterTail()
    ensures ParseUnits([Coalescence.Operator(Tokens.Multiply, Span(3, 4)), Digit('3', 4)],
                       Stacks([BinaryOperator(Spanned(Tokens.Add, Span(1, 2)))], [Leaf('1', 0), Leaf('2', 2)]), 0)
      == Some(Stacks([BinaryOperator(Spanned(Tokens.Add, Span(1, 2))), BinaryOperator(Spanned(Tokens.Multiply, Span(3, 4)))],
                     [Leaf('1', 0), Leaf('2', 2), Leaf('3', 4)]))
  {
    var units := [Coalescence.Operator(Tokens.Multiply, Span(3, 4)), Digit('3', 4)];
    var plus := BinaryOperator(Spanned(Tokens.Add, Span(1, 2)));
    var times := BinaryOperator(Spanned(Tokens.Multiply, Span(3, 4)));
    assert Reduce(Stacks([plus], [Leaf('1', 0), Leaf('2', 2)]), 0, 1) == Some(Stacks([plus], [Leaf('1', 0), Leaf('2', 2)]));
    assert [plus] + [times] == [plus, times];
    assert units[1..] == [units[1]] && units[1..][1..] == [];
    assert [Leaf('1', 0), Leaf('2', 2)] + [Leaf('3', 4)] == [Leaf('1', 0), Leaf('2', 2), Leaf('3', 4)];
  }

  /** `1+2*3` is 1+(2*3): a higher precedence binds tighter. */
  lemma TighterBindsFirst()
    ensures ParseRoot(Multiple([Digit('1', 0), Coalescence.Operator(Tokens.Add, Span(1, 2)), Digit('2', 2),
                                Coalescence.Operator(Tokens.Multiply, Span(3, 4)), Digit('3', 4)]))
      == Some(Binary(Tokens.Add, 1, Leaf('1', 0), Binary(Tokens.Multiply, 3, Leaf('2', 2), Leaf('3', 4))))
  {
    var head := [Digit('1', 0), Coalescence.Operator(Tokens.Add, Span(1, 2)), Digit('2', 2)];
    var tail := [Coalescence.Operator(Tokens.Multiply, Span(3, 4)), Digit('3', 4)];
    var plus := BinaryOperator(Spanned(Tokens.Add, Span(1, 2)));
    var times := BinaryOperator(Spanned(Tokens.Multiply, Span(3, 4)));
    var done := Stacks([plus, times], [Leaf('1', 0), Leaf('2', 2), Leaf('3', 4)]);
    FirstPair(Tokens.Add);
    TighterTail();
    ParseUnitsAppend(head, tail, Stacks([], []), 0);
    assert head + tail == [Digit('1', 0), Coalescence.Operator(Tokens.Add, Span(1, 2)), Digit('2', 2),
                           Coalescence.Operator(Tokens.Multiply, Span(3, 4)), Digit('3', 4)];
    assert ParseUnits(head + tail, Stacks([], []), 0) == Some(done);
    TighterUnwind();
    var sum := Binary(Tokens.Add, 1, Leaf('1', 0), Binary(Tokens.Multiply, 3, Leaf('2', 2), Leaf('3', 4)));
    assert ParseUnit(Multiple(head + tail), Stacks([], []), 0) == Some(Stacks([], [sum]));
  }

  /** Closing `1+2*3` builds the product first, then the sum. */
  lemma TighterUnwind()
    ensures Unwind(Stacks([BinaryOperator(Spanned(Tokens.Add, Span(1, 2))), BinaryOperator(Spanned(Tokens.Multiply, Span(3, 4)))],
                          [Leaf('1', 0), Leaf('2', 2), Leaf('3', 4)]), 0)
      == Some(Stacks([], [Binary(Tokens.Add, 1, Leaf('1', 0), Binary(Tokens.Multiply, 3, Leaf('2', 2), Leaf('3', 4)))]))
  {
    var plus := BinaryOperator(Spanned(Tokens.Add, Span(1, 2)));
    var times := BinaryOperator(Spanned(Tokens.Multiply, Span(3, 4)));
    var product := Binary(Tokens.Multiply, 3, Leaf('2', 2), Leaf('3', 4));
    var done := Stacks([plus, times], [Leaf('1', 0), Leaf('2', 2), Leaf('3', 4)]);
    assert done.operators[..1] == [plus] && done.nodes[..1] == [Leaf('1', 0)];
    assert [Leaf('1', 0)] + [product] == [Leaf('1', 0), product];
    assert Construct(done) == Some(Stacks([plus], [Leaf('1', 0), product]));
    assert Unwind(Stacks([plus], [Leaf('1', 0), product]), 0) == Some(Stacks([], [Binary(Tokens.Add, 1, Leaf('1', 0), product)]));
  }

  /** A group that ends in a binary operator, `1+2-`, leaves the operator without its right
      operand: closing the group pops an empty node stack. */
  lemma TrailingOperatorPanics()
    ensures ParseUnit(Multiple([Digit('1', 0), Coalescence.Operator(Tokens.Add, Span(1, 2)), Digit('2', 2),
                                Coalescence.Operator(Tokens.Minus, Span(3, 4))]), Stacks([], []), 0) == None
  {
    var head := [Digit('1', 0), Coalescence.Operator(Tokens.Add, Span(1, 2)), Digit('2', 2)];
    var tail := [Coalescence.Operator(Tokens.Minus, Span(3, 4))];
    var plus := BinaryOperator(Spanned(Tokens.Add, Span(1, 2)));
    var minus := BinaryOperator(Spanned(Tokens.Minus, Span(3, 4)));
    var sum := Binary(Tokens.Add, 1, Leaf('1', 0), Leaf('2', 2));
    FirstPair(Tokens.Add);
    ParseUnitsAppend(head, tail, Stacks([], []), 0);
    assert head + tail == [Digit('1', 0), Coalescence.Operator(Tokens.Add, Span(1, 2)), Digit('2', 2),
                           Coalescence.Operator(Tokens.Minus, Span(3, 4))];
    assert Reduce(Stacks([plus], [Leaf('1', 0), Leaf('2', 2)]), 0, 0) == Some(Stacks([], [sum]));
    assert [] + [minus] == [minus];
    assert tail[1..] == [];
    assert ParseUnits(tail, Stacks([plus], [Leaf('1', 0), Leaf('2', 2)]), 0) == Some(Stacks([minus], [sum]));
    assert Unwind(Stacks([minus], [sum]), 0) == None;
  }

  /** So the coalescer's output for `1+2-;3` makes `parse_root` panic. */
  lemma MarkerAfterOperatorPanics(three: Coalescence)
    ensures ParseRoot(Multiple([Multiple([Digit('1', 0), Coalescence.Operator(Tokens.Add, Span(1, 2)), Digit('2', 2),
                                          Coalescence.Operator(Tokens.Minus, Span(3, 4))]), three])) == None
  {
    var inner := Multiple([Digit('1', 0), Coalescence.Operator(Tokens.Add, Span(1, 2)), Digit('2', 2),
                           Coalescence.Operator(Tokens.Minus, Span(3, 4))]);
    TrailingOperatorPanics();
    assert [inner, three][0] == inner;
    assert ParseUnits([inner, three], Stacks([], []), 0) == None;
    assert ParseUnit(Multiple([inner, three]), Stacks([], []), 0) == None;
  }

  /** The units of the group `1+2-` at bytes 2 to 5, as in `5+1+2-;3`. */
  function TrailingGroup(): seq<Coalescence>
  {
    [Digit('1', 2), Coalescence.Operator(Tokens.Add, Span(3, 4)), Digit('2', 4), Coalescence.Operator(Tokens.Minus, Span(5, 6))]
  }

  /** Read above a waiting `5+`, the group `1+2-` reduces `1+2` when `-` arrives and leaves
      the `-` owing its right operand, now with the `5` under it to take as one. */
  lemma TrailingGroupUnits()
    ensures var first := BinaryOperator(Spanned(Tokens.Add, Span(1, 2)));
      var minus := BinaryOperator(Spanned(Tokens.Minus, Span(5, 6)));
      ParseUnits(TrailingGroup(), Stacks([first], [Leaf('5', 0)]), 1)
      == Some(Stacks([first, minus], [Leaf('5', 0), Binary(Tokens.Add, 3, Leaf('1', 2), Leaf('2', 4))]))
  {
    var units := TrailingGroup();
    var first := BinaryOperator(Spanned(Tokens.Add, Span(1, 2)));
    var plus := BinaryOperator(Spanned(Tokens.Add, Span(3, 4)));
    var minus := BinaryOperator(Spanned(Tokens.Minus, Span(5, 6)));
    var sum := Binary(Tokens.Add, 3, Leaf('1', 2), Leaf('2', 4));
    var s1 := Stacks([first], [Leaf('5', 0), Leaf('1', 2)]);
    var s2 := Stacks([first, plus], [Leaf('5', 0), Leaf('1', 2)]);
    var s3 := Stacks([first, plus], [Leaf('5', 0), Leaf('1', 2), Leaf('2', 4)]);
    var s4 := Stacks([first, minus], [Leaf('5', 0), sum]);
    assert units[1..] == [units[1], units[2], units[3]] && units[1..][1..] == [units[2], units[3]];
    assert units[1..][1..][1..] == [units[3]] && units[1..][1..][1..][1..] == [];
    assert [Leaf('5', 0)] + [Leaf('1', 2)] == s1.nodes;
    assert Reduce(s1, 1, 0) == Some(s1);
    assert [first] + [plus] == s2.operators;
    assert [Leaf('5', 0), Leaf('1', 2)] + [Leaf('2', 4)] == s3.nodes;
    assert s3.nodes[..1] == [Leaf('5', 0)] && [Leaf('5', 0)] + [sum] == [Leaf('5', 0), sum];
    assert Construct(s3) == Some(Stacks([first], [Leaf('5', 0), sum]));
    assert Reduce(s3, 1, 0) == Some(Stacks([first], [Leaf('5', 0), sum]));
    assert [first] + [minus] == s4.operators;
    assert ParseUnits(units[1..][1..][1..], s3, 1) == Some(s4);
    assert ParseUnits(units[1..][1..], s2, 1) == Some(s4);
    assert ParseUnits(units[1..], s1, 1) == Some(s4);
  }

  /** Closing that group builds `5-(1+2)`: the trailing `-` takes the `5` from below the
      group as its left operand. */
  lemma TrailingGroupBorrows()
    ensures ParseUnit(Multiple(TrailingGroup()), Stacks([BinaryOperator(Spanned(Tokens.Add, Span(1, 2)))], [Leaf('5', 0)]), 0)
      == Some(Stacks([BinaryOperator(Spanned(Tokens.Add, Span(1, 2)))],
                     [Binary(Tokens.Minus, 5, Leaf('5', 0), Binary(Tokens.Add, 3, Leaf('1', 2), Leaf('2', 4)))]))
  {
    var first := BinaryOperator(Spanned(Tokens.Add, Span(1, 2)));
    var minus := BinaryOperator(Spanned(Tokens.Minus, Span(5, 6)));
    var sum := Binary(Tokens.Add, 3, Leaf('1', 2), Leaf('2', 4));
    var parsed := Stacks([first, minus], [Leaf('5', 0), sum]);
    TrailingGroupUnits();
    assert parsed.operators[..1] == [first] && parsed.nodes[..0] == [];
    assert [] + [Binary(Tokens.Minus, 5, Leaf('5', 0), sum)] == [Binary(Tokens.Minus, 5, Leaf('5', 0), sum)];
    assert Construct(parsed) == Some(Stacks([first], [Binary(Tokens.Minus, 5, Leaf('5', 0), sum)]));
    assert Unwind(parsed, 1) == Some(Stacks([first], [Binary(Tokens.Minus, 5, Leaf('5', 0), sum)]));
    assert ParseUnits(TrailingGroup(), Stacks([first], [Leaf('5', 0)]), |[first]|) == Some(parsed);
  }

  /** `5 op` read onto empty stacks: the operand waits under the operator. */
  lemma OperandFirst(op: Tokens.Operator)
    ensures ParseUnits([Digit('5', 0), Coalescence.Operator(op, Span(1, 2))], Stacks([], []), 0)
      == Some(Stacks([BinaryOperator(Spanned(op, Span(1, 2)))], [Leaf('5', 0)]))
  {
    var head := [Digit('5', 0), Coalescence.Operator(op, Span(1, 2))];
    var first := BinaryOperator(Spanned(op, Span(1, 2)));
    var s1 := Stacks([], [Leaf('5', 0)]);
    assert head[1..] == [head[1]] && head[1..][1..] == [];
    assert [] + [Leaf('5', 0)] == s1.nodes;
    assert Reduce(s1, 0, Tokens.Precedence(op)) == Some(s1);
    assert [] + [first] == [first];
    assert ParseUnits(head[1..], s1, 0) == Some(Stacks([first], [Leaf('5', 0)]));
    assert ParseUnit(head[0], Stacks([], []), 0) == Some(s1);
  }

  /** `5+1+2-;3` reads as `5`, `+`, the group, `3`: the group's `5-(1+2)` and the `3`
      wait under the first `+`. */
  lemma OperandBelowMarkerUnits()
    ensures ParseUnits([Digit('5', 0), Coalescence.Operator(Tokens.Add, Span(1, 2)), Multiple(TrailingGroup()), Digit('3', 7)], Stacks([], []), 0)
      == Some(Stacks([BinaryOperator(Spanned(Tokens.Add, Span(1, 2)))],
                     [Binary(Tokens.Minus, 5, Leaf('5', 0), Binary(Tokens.Add, 3, Leaf('1', 2), Leaf('2', 4))), Leaf('3', 7)]))
  {
    var head := [Digit('5', 0), Coalescence.Operator(Tokens.Add, Span(1, 2))];
    var tail := [Multiple(TrailingGroup()), Digit('3', 7)];
    var first := BinaryOperator(Spanned(Tokens.Add, Span(1, 2)));
    var difference := Binary(Tokens.Minus, 5, Leaf('5', 0), Binary(Tokens.Add, 3, Leaf('1', 2), Leaf('2', 4)));
    var s2 := Stacks([first], [Leaf('5', 0)]);
    OperandFirst(Tokens.Add);
    assert tail[1..] == [tail[1]] && tail[1..][1..] == [];
    TrailingGroupBorrows();
    assert [difference] + [Leaf('3', 7)] == [difference, Leaf('3', 7)];
    assert ParseUnits(tail, s2, 0) == Some(Stacks([first], [difference, Leaf('3', 7)]));
    ParseUnitsAppend(head, tail, Stacks([], []), 0);
    assert head + tail == [Digit('5', 0), Coalescence.Operator(Tokens.Add, Span(1, 2)), Multiple(TrailingGroup()), Digit('3', 7)];
  }

  /** So with an operand below the spliced group, the coalescer's output for `5+1+2-;3`
      parses without a panic, to the tree (5-(1+2))+3: the `-` written after the `2` takes
      the `5` written before the group as its left operand, and the `+` after the `5` takes
      the difference. */
  lemma OperandBelowMarkerMisparse()
    ensures ParseRoot(Multiple([Digit('5', 0), Coalescence.Operator(Tokens.Add, Span(1, 2)), Multiple(TrailingGroup()), Digit('3', 7)]))
      == Some(Binary(Tokens.Add, 1, Binary(Tokens.Minus, 5, Leaf('5', 0), Binary(Tokens.Add, 3, Leaf('1', 2), Leaf('2', 4))), Leaf('3', 7)))
  {
    var units := [Digit('5', 0), Coalescence.Operator(Tokens.Add, Span(1, 2)), Multiple(TrailingGroup()), Digit('3', 7)];
    var first := BinaryOperator(Spanned(Tokens.Add, Span(1, 2)));
    var difference := Binary(Tokens.Minus, 5, Leaf('5', 0), Binary(Tokens.Add, 3, Leaf('1', 2), Leaf('2', 4)));
    var done := Stacks([first], [difference, Leaf('3', 7)]);
    OperandBelowMarkerUnits();
    var whole := Binary(Tokens.Add, 1, difference, Leaf('3', 7));
    assert done.operators[..0] == [] && done.nodes[..0] == [];
    assert [] + [whole] == [whole];
    assert Construct(done) == Some(Stacks([], [whole]));
    assert Unwind(done, 0) == Some(Stacks([], [whole]));
    assert ParseUnit(Multiple(units), Stacks([], []), 0) == Some(Stacks([], [whole]));
  }
}
