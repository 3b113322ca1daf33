/** The precedence parser (src/parse.rs): a two-stack shift-reduce pass over a coalescence.
    Binary operators and prefix functions wait on the operator stack, operands on the node
    stack; an incoming operator first reduces every waiting operator of at least its own
    precedence, but never one that belongs to an enclosing group (below the level's base).

    The functions `Construct`, `Reduce`, `ParseUnit`, `ParseUnits`, `Unwind` and `ParseRoot`
    say what the source computes, with `None` wherever it panics (an `unwrap` of an empty
    stack or a failed `assert`); the methods are the source's loops, each proved to compute
    what its function says. The two `&mut Vec` stacks are passed in and returned. */
module Parsing {
  import opened Wrappers
  import opened Spans
  import opened Items
  import Tokens
  import opened Coalescences

  /** The expression tree (src/node.rs). */
  datatype Node =
    | Terminal(value: Tokens.Num)
    | Variable(name: string)
    | Function(kind: Function, operand: Spanned<Node>)
    | Operator(operator: Spanned<Tokens.Operator>, left: Spanned<Node>, right: Spanned<Node>)

  /** What waits on the operator stack. */
  datatype ParserOperator =
    | BinaryOperator(operator: Spanned<Tokens.Operator>)
    | PrefixFunction(prefix: Spanned<Function>)

  /** `usize::max_value()` on a 64-bit target. */
  const USIZE_MAX: nat := 0xFFFF_FFFF_FFFF_FFFF

  /** `ParserOperator::precedence`: a function binds tighter than every binary operator. */
  function ParserPrecedence(op: ParserOperator): (p: nat)
    ensures op.PrefixFunction? <==> p == USIZE_MAX
    ensures op.BinaryOperator? ==> p == Tokens.Precedence(op.operator.node) && p < USIZE_MAX
  {
    match op
    case BinaryOperator(operator) => Tokens.Precedence(operator.node)
    case PrefixFunction(_) => USIZE_MAX
  }

  /** The two stacks. */
  datatype Stacks = Stacks(operators: seq<ParserOperator>, nodes: seq<Spanned<Node>>)

  /** How many nodes `construct` pops for an operator. */
  function Arity(op: ParserOperator): nat
  {
    if op.BinaryOperator? then 2 else 1
  }

  /** `construct`: pop the top operator and the nodes it applies to, and push the node it
      builds, spanning from its leftmost to its rightmost part; `None` where an `unwrap`
      meets an empty stack. */
  function Construct(s: Stacks): (r: Option<Stacks>)
    ensures r.None? <==> |s.operators| == 0 || |s.nodes| < Arity(s.operators[|s.operators| - 1])
    ensures r.Some? ==>
      var arity := Arity(s.operators[|s.operators| - 1]);
      && r.value.operators == s.operators[..|s.operators| - 1]
      && |r.value.nodes| == |s.nodes| - arity + 1
      && r.value.nodes[..|s.nodes| - arity] == s.nodes[..|s.nodes| - arity]
      && r.value.nodes[|s.nodes| - arity].node ==
           (match s.operators[|s.operators| - 1]
            case BinaryOperator(op) => Node.Operator(op, s.nodes[|s.nodes| - 2], s.nodes[|s.nodes| - 1])
            case PrefixFunction(prefix) => Node.Function(prefix.node, s.nodes[|s.nodes| - 1]))
      && r.value.nodes[|s.nodes| - arity].span.end == s.nodes[|s.nodes| - 1].span.end
      && r.value.nodes[|s.nodes| - arity].span.start ==
           match s.operators[|s.operators| - 1]
           case BinaryOperator(_) => s.nodes[|s.nodes| - 2].span.start
           case PrefixFunction(prefix) => prefix.span.start
  {
    if |s.operators| == 0 then None
    else
      var operators := s.operators[..|s.operators| - 1];
      match s.operators[|s.operators| - 1]
      case BinaryOperator(operator) =>
        if |s.nodes| < 2 then None
        else
          var right := s.nodes[|s.nodes| - 1];
          var left := s.nodes[|s.nodes| - 2];
          var node := Spanned(Node.Operator(operator, left, right), Span(left.span.start, right.span.end));
          Some(Stacks(operators, s.nodes[..|s.nodes| - 2] + [node]))
      case PrefixFunction(prefix) =>
        if |s.nodes| < 1 then None
        else
          var operand := s.nodes[|s.nodes| - 1];
          var node := Spanned(Node.Function(prefix.node, operand), Span(prefix.span.start, operand.span.end));
          Some(Stacks(operators, s.nodes[..|s.nodes| - 1] + [node]))
  }

  /** The reduction loop for an incoming operator of precedence `p`: construct while the
      top operator has precedence at least `p` and lies above `state`. */
  function Reduce(s: Stacks, state: nat, p: nat): Option<Stacks>
    decreases |s.operators|
  {
    var n := |s.operators|;
    if n > 0 && ParserPrecedence(s.operators[n - 1]) >= p && n > state then
      match Construct(s)
      case None => None
      case Some(reduced) => Reduce(reduced, state, p)
    else Some(s)
  }

  /** The loop that closes a group: construct until the operator stack is back at `base`. */
  function Unwind(s: Stacks, base: nat): Option<Stacks>
    decreases |s.operators|
  {
    if |s.operators| > base then
      match Construct(s)
      case None => None
      case Some(reduced) => Unwind(reduced, base)
    else Some(s)
  }

  /** `parse` of one unit, with `state` the base of the level the unit belongs to. */
  function ParseUnit(c: Coalescence, s: Stacks, state: nat): Option<Stacks>
    decreases c, 1
  {
    match c
    case Terminal(value, span) => Some(Stacks(s.operators, s.nodes + [Spanned(Node.Terminal(value), span)]))
    case Variable(name, span) => Some(Stacks(s.operators, s.nodes + [Spanned(Node.Variable(name), span)]))
    case Function(kind, span) => Some(Stacks(s.operators + [PrefixFunction(Spanned(kind, span))], s.nodes))
    case Operator(operator, span) =>
      (match Reduce(s, state, Tokens.Precedence(operator))
       case None => None
       case Some(reduced) => Some(Stacks(reduced.operators + [BinaryOperator(Spanned(operator, span))], reduced.nodes)))
    case Multiple(units) =>
      var base := |s.operators|;
      match ParseUnits(units, s, base)
      case None => None
      case Some(parsed) => if |parsed.operators| < base then None else Unwind(parsed, base)
  }

  /** `for_each` over the units of a group, all with the group's base. */
  function ParseUnits(units: seq<Coalescence>, s: Stacks, state: nat): Option<Stacks>
    decreases units, 0
  {
    if units == [] then Some(s)
    else
      match ParseUnit(units[0], s, state)
      case None => None
      case Some(next) => ParseUnits(units[1..], next, state)
  }

  /** `parse_root`: parse onto empty stacks and take the one node left; `None` where the
      source panics, including when the node stack does not end with exactly one node. */
  function ParseRoot(c: Coalescence): Option<Spanned<Node>>
  {
    match ParseUnit(c, Stacks([], []), 0)
    case None => None
    case Some(s) => if |s.nodes| == 1 then Some(s.nodes[0]) else None
  }

  // ---------------------------------------------------------------------------------------
  // Operators below the base are never touched

  /** `s` keeps the bottom `base` operators of `t`. */
  predicate Keeps(s: Stacks, t: Stacks, base: nat)
  {
    base <= |t.operators| && base <= |s.operators| && t.operators[..base] == s.operators[..base]
  }

  lemma {:induction false} ReduceKeeps(s: Stacks, state: nat, p: nat)
    requires state <= |s.operators|
    ensures Reduce(s, state, p).Some? ==> Keeps(s, Reduce(s, state, p).value, state)
    decreases |s.operators|
  {
    var n := |s.operators|;
    if n > 0 && ParserPrecedence(s.operators[n - 1]) >= p && n > state {
      if Construct(s).Some? {
        var reduced := Construct(s).value;
        ReduceKeeps(reduced, state, p);
        assert reduced.operators[..state] == s.operators[..state];
      }
    }
  }

  lemma {:induction false} UnwindKeeps(s: Stacks, base: nat)
    requires base <= |s.operators|
    ensures Unwind(s, base).Some? ==> Unwind(s, base).value.operators == s.operators[..base]
    decreases |s.operators|
  {
    if |s.operators| > base {
      if Construct(s).Some? {
        var reduced := Construct(s).value;
        assert Unwind(s, base) == Unwind(reduced, base);
        UnwindKeeps(reduced, base);
        assert reduced.operators[..base] == s.operators[..base];
      }
    } else {
      assert s.operators[..base] == s.operators;
    }
  }

  /** Parsing a unit never touches the operators below its level's base, and a group leaves
      the operator stack exactly as it found it (src/parse.rs:38-56). In particular the
      `assert!` after a group's units never fails. */
  lemma {:induction false} ParseUnitKeeps(c: Coalescence, s: Stacks, state: nat)
    requires state <= |s.operators|
    ensures ParseUnit(c, s, state).Some? ==> Keeps(s, ParseUnit(c, s, state).value, state)
    ensures c.Multiple? && ParseUnit(c, s, state).Some? ==> ParseUnit(c, s, state).value.operators == s.operators
    ensures c.Multiple? && ParseUnits(c.units, s, |s.operators|).Some? ==>
      |ParseUnits(c.units, s, |s.operators|).value.operators| >= |s.operators|
    decreases c, 1
  {
    match c
    case Terminal(_, _) =>
    case Variable(_, _) =>
    case Function(kind, span) =>
      assert (s.operators + [PrefixFunction(Spanned(kind, span))])[..state] == s.operators[..state];
    case Operator(operator, span) =>
      ReduceKeeps(s, state, Tokens.Precedence(operator));
      match Reduce(s, state, Tokens.Precedence(operator)) {
        case None =>
        case Some(reduced) =>
          assert (reduced.operators + [BinaryOperator(Spanned(operator, span))])[..state] == reduced.operators[..state];
      }
    case Multiple(units) =>
      var base := |s.operators|;
      ParseUnitsKeeps(units, s, base);
      assert s.operators[..base] == s.operators;
      match ParseUnits(units, s, base)
      case None =>
      case Some(parsed) =>
        UnwindKeeps(parsed, base);
  }

  lemma {:induction false} ParseUnitsKeeps(units: seq<Coalescence>, s: Stacks, state: nat)
    requires state <= |s.operators|
    ensures ParseUnits(units, s, state).Some? ==> Keeps(s, ParseUnits(units, s, state).value, state)
    decreases units, 0
  {
    if units != [] {
      ParseUnitKeeps(units[0], s, state);
      match ParseUnit(units[0], s, state)
      case None =>
      case Some(next) =>
        ParseUnitsKeeps(units[1..], next, state);
    }
  }

  // ---------------------------------------------------------------------------------------
  // The imperative parser

  /** `construct` (src/parse.rs:60-77). */
  method ConstructNode(s: Stacks) returns (r: Option<Stacks>)
    ensures r == Construct(s)
  {
    if |s.operators| == 0 {
      return None;
    }
    var operators := s.operators[..|s.operators| - 1];
    match s.operators[|s.operators| - 1]
    case BinaryOperator(operator) =>
      if |s.nodes| < 2 {
        return None;
      }
      var right := s.nodes[|s.nodes| - 1];
      var left := s.nodes[|s.nodes| - 2];
      var span := Span(left.span.start, right.span.end);
      r := Some(Stacks(operators, s.nodes[..|s.nodes| - 2] + [Spanned(Node.Operator(operator, left, right), span)]));
    case PrefixFunction(prefix) =>
      if |s.nodes| < 1 {
        return None;
      }
      var operand := s.nodes[|s.nodes| - 1];
      var span := Span(prefix.span.start, operand.span.end);
      r := Some(Stacks(operators, s.nodes[..|s.nodes| - 1] + [Spanned(Node.Function(prefix.node, operand), span)]));
  }

  /** The reduction loop of the operator arm (src/parse.rs:39-44). */
  method ReduceFor(s: Stacks, state: nat, p: nat) returns (r: Option<Stacks>)
    ensures r == Reduce(s, state, p)
  {
    var stacks := s;
    while |stacks.operators| > 0
      invariant Reduce(stacks, state, p) == Reduce(s, state, p)
      decreases |stacks.operators|
    {
      var top := stacks.operators[|stacks.operators| - 1];
      if !(ParserPrecedence(top) >= p && |stacks.operators| > state) {
        break;
      }
      var reduced := ConstructNode(stacks);
      if reduced.None? {
        return None;
      }
      stacks := reduced.value;
    }
    return Some(stacks);
  }

  /** The closing loop of the group arm (src/parse.rs:53-55). */
  method UnwindTo(s: Stacks, base: nat) returns (r: Option<Stacks>)
    ensures r == Unwind(s, base)
  {
    var stacks := s;
    while |stacks.operators| > base
      invariant Unwind(stacks, base) == Unwind(s, base)
      decreases |stacks.operators|
    {
      var reduced := ConstructNode(stacks);
      if reduced.None? {
        return None;
      }
      stacks := reduced.value;
    }
    return Some(stacks);
  }

  /** `parse` (src/parse.rs:29-58). */
  method Parse(c: Coalescence, s: Stacks, state: nat) returns (r: Option<Stacks>)
    ensures r == ParseUnit(c, s, state)
    decreases c
  {
    match c
    case Terminal(value, span) =>
      r := Some(Stacks(s.operators, s.nodes + [Spanned(Node.Terminal(value), span)]));
    case Variable(name, span) =>
      r := Some(Stacks(s.operators, s.nodes + [Spanned(Node.Variable(name), span)]));
    case Function(kind, span) =>
      r := Some(Stacks(s.operators + [PrefixFunction(Spanned(kind, span))], s.nodes));
    case Operator(operator, span) =>
      var reduced := ReduceFor(s, state, Tokens.Precedence(operator));
      if reduced.None? {
        return None;
      }
      r := Some(Stacks(reduced.value.operators + [BinaryOperator(Spanned(operator, span))], reduced.value.nodes));
    case Multiple(units) =>
      var base := |s.operators|;
      var stacks := s;
      var i := 0;
      while i < |units|
        invariant 0 <= i <= |units|
        invariant ParseUnits(units[i..], stacks, base) == ParseUnits(units, s, base)
      {
        assert units[i..][1..] == units[i + 1..];
        var next := Parse(units[i], stacks, base);
        if next.None? {
          return None;
        }
        stacks := next.value;
        i := i + 1;
      }
      assert units[i..] == [];
      if |stacks.operators| < base {
        return None;
      }
      r := UnwindTo(stacks, base);
  }

  /** `parse_root` (src/parse.rs:22-27). */
  method ParseExpression(c: Coalescence) returns (r: Option<Spanned<Node>>)
    ensures r == ParseRoot(c)
  {
    var parsed := Parse(c, Stacks([], []), 0);
    if parsed.None? || |parsed.value.nodes| != 1 {
      return None;
    }
    r := Some(parsed.value.nodes[0]);
  }
}
