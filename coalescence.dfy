/** The coalescer's output (src/coalescence.rs): a tree of units in which brackets and `;`
    markers have been resolved into nested `Multiple` groups but operator precedence has not
    been applied yet. The queries here are the span queries, the anchor list used for live
    highlighting and the variable check `verify`. */
module Coalescences {
  import opened Wrappers
  import opened Spans
  import opened Items
  import opened Errors
  import Tokens

  datatype Coalescence =
    | Multiple(units: seq<Coalescence>)
    | Operator(operator: Tokens.Operator, span: Span)
    | Terminal(value: Tokens.Num, span: Span)
    | Variable(name: string, span: Span)
    | Function(kind: Function, span: Span)

  /** Every `Multiple`, at any depth, has at least one unit; `byte_start` and `byte_end`
      unwrap the first and last unit, so they are defined only on such trees. */
  predicate NonEmpty(c: Coalescence)
  {
    match c
    case Multiple(units) => |units| > 0 && forall k :: 0 <= k < |units| ==> NonEmpty(units[k])
    case _ => true
  }

  /** `byte_start`. */
  function ByteStart(c: Coalescence): nat
    requires NonEmpty(c)
  {
    match c
    case Multiple(units) => ByteStart(units[0])
    case Operator(_, span) => span.start
    case Terminal(_, span) => span.start
    case Variable(_, span) => span.start
    case Function(_, span) => span.start
  }

  /** `byte_end`. */
  function ByteEnd(c: Coalescence): nat
    requires NonEmpty(c)
  {
    match c
    case Multiple(units) => ByteEnd(units[|units| - 1])
    case Operator(_, span) => span.end
    case Terminal(_, span) => span.end
    case Variable(_, span) => span.end
    case Function(_, span) => span.end
  }

  /** The leaves of a tree, left to right: every unit that is not a `Multiple`. */
  function Leaves(c: Coalescence): (r: seq<Coalescence>)
    ensures forall k :: 0 <= k < |r| ==> !r[k].Multiple?
  {
    match c
    case Multiple(units) => LeavesOf(units)
    case _ => [c]
  }

  function LeavesOf(units: seq<Coalescence>): (r: seq<Coalescence>)
    ensures forall k :: 0 <= k < |r| ==> !r[k].Multiple?
  {
    if units == [] then [] else Leaves(units[0]) + LeavesOf(units[1..])
  }

  /** The units that produce a value or apply a function: all but the binary operators,
      in order. Both the anchors and the `;` marker count these. */
  function ValuedUnits(units: seq<Coalescence>): (r: seq<Coalescence>)
    ensures |r| <= |units|
    ensures forall k :: 0 <= k < |r| ==> !r[k].Operator?
  {
    if units == [] then []
    else
      var last := units[|units| - 1];
      ValuedUnits(units[..|units| - 1]) + (if last.Operator? then [] else [last])
  }

  /** `verify`: the first variable, in left-to-right order, that `lookup` (the context's
      `variable`) cannot resolve, reported at that variable's span. */
  function Verify(c: Coalescence, lookup: string -> Result<real, Error>): Result<(), Spanned<Error>>
  {
    match c
    case Multiple(units) => VerifyAll(units, lookup)
    case Variable(name, span) =>
      (match lookup(name)
       case Ok(_) => Ok(())
       case Err(error) => Err(Spanned(error, span)))
    case _ => Ok(())
  }

  /** `try_for_each` over the units: stop at the first failure. */
  function VerifyAll(units: seq<Coalescence>, lookup: string -> Result<real, Error>): Result<(), Spanned<Error>>
  {
    if units == [] then Ok(())
    else
      match Verify(units[0], lookup)
      case Err(error) => Err(error)
      case Ok(_) => VerifyAll(units[1..], lookup)
  }

  /** The independent, flat reading of `verify`: scan the leaves for the first variable that
      does not resolve. */
  function FirstUnresolved(leaves: seq<Coalescence>, lookup: string -> Result<real, Error>): Result<(), Spanned<Error>>
  {
    if leaves == [] then Ok(())
    else if leaves[0].Variable? && lookup(leaves[0].name).Err? then
      Err(Spanned(lookup(leaves[0].name).error, leaves[0].span))
    else FirstUnresolved(leaves[1..], lookup)
  }

  // ---------------------------------------------------------------------------------------
  // The shape the parser relies on

  /** Units that stand for an operand by themselves. */
  predicate IsAtom(u: Coalescence)
  {
    u.Multiple? || u.Terminal? || u.Variable?
  }

  /** A group without a trailing-operand requirement: it does not begin with a binary
      operator, an operand is followed by a binary operator and nothing else is, and every
      nested group is well formed. This is what a level looks like while it is being built. */
  predicate Alternates(units: seq<Coalescence>)
    decreases units, 0
  {
    (|units| > 0 ==> !units[0].Operator?)
    && (forall k :: 0 <= k < |units| - 1 ==> (IsAtom(units[k]) <==> units[k + 1].Operator?))
    && (forall k :: 0 <= k < |units| ==> WellFormed(units[k]))
  }

  /** A well-formed group alternates and ends in an operand:
      functions* operand (operator functions* operand)*. */
  predicate WellFormedUnits(units: seq<Coalescence>)
    decreases units, 1
  {
    |units| > 0 && Alternates(units) && IsAtom(units[|units| - 1])
  }

  predicate WellFormed(c: Coalescence)
    decreases c, 2
  {
    match c
    case Multiple(units) => WellFormedUnits(units)
    case _ => true
  }

  // ---------------------------------------------------------------------------------------
  // Properties

  lemma ValuedUnitsNonEmpty(units: seq<Coalescence>)
    requires forall k :: 0 <= k < |units| && !units[k].Operator? ==> NonEmpty(units[k])
    ensures forall k :: 0 <= k < |ValuedUnits(units)| ==> NonEmpty(ValuedUnits(units)[k])
  {
    if units != [] {
      ValuedUnitsNonEmpty(units[..|units| - 1]);
    }
  }

  /** Filtering distributes over concatenation. */
  lemma {:induction false} ValuedUnitsAppend(a: seq<Coalescence>, b: seq<Coalescence>)
    ensures ValuedUnits(a + b) == ValuedUnits(a) + ValuedUnits(b)
    decreases |b|
  {
    if b == [] {
      assert a + b == a;
    } else {
      var init := b[..|b| - 1];
      assert (a + b)[..|a + b| - 1] == a + init;
      ValuedUnitsAppend(a, init);
    }
  }

  /** The valued units are exactly the units that are not binary operators: a unit that is
      not an operator is counted, one that is an operator is not. */
  lemma {:induction false} ValuedUnitsSingle(u: Coalescence)
    ensures ValuedUnits([u]) == if u.Operator? then [] else [u]
  {
    assert [u][..0] == [];
  }

  /** The start of a tree is the start of its first leaf and its end the end of its last
      leaf (src/coalescence.rs:47-65). */
  lemma {:induction false} SpanIsLeafSpan(c: Coalescence)
    requires NonEmpty(c)
    ensures |Leaves(c)| > 0
    ensures ByteStart(c) == Leaves(c)[0].span.start
    ensures ByteEnd(c) == Leaves(c)[|Leaves(c)| - 1].span.end
  {
    match c
    case Multiple(units) => SpanIsLeafSpanOf(units);
    case _ =>
  }

  lemma {:induction false} SpanIsLeafSpanOf(units: seq<Coalescence>)
    requires |units| > 0 && forall k :: 0 <= k < |units| ==> NonEmpty(units[k])
    ensures |LeavesOf(units)| > 0
    ensures ByteStart(units[0]) == LeavesOf(units)[0].span.start
    ensures ByteEnd(units[|units| - 1]) == LeavesOf(units)[|LeavesOf(units)| - 1].span.end
  {
    SpanIsLeafSpan(units[0]);
    if |units| > 1 {
      SpanIsLeafSpanOf(units[1..]);
      assert units[1..][|units| - 2] == units[|units| - 1];
    }
  }

  lemma {:induction false} FirstUnresolvedAppend(a: seq<Coalescence>, b: seq<Coalescence>, lookup: string -> Result<real, Error>)
    ensures FirstUnresolved(a + b, lookup) ==
      if FirstUnresolved(a, lookup).Err? then FirstUnresolved(a, lookup) else FirstUnresolved(b, lookup)
    decreases |a|
  {
    if a == [] {
      assert a + b == b;
    } else {
      assert (a + b)[1..] == a[1..] + b;
      FirstUnresolvedAppend(a[1..], b, lookup);
    }
  }

  /** `verify` fails exactly at the first unresolvable variable among the leaves, in
      left-to-right order (src/coalescence.rs:17-25). */
  lemma {:induction false} VerifyIsFirstUnresolved(c: Coalescence, lookup: string -> Result<real, Error>)
    ensures Verify(c, lookup) == FirstUnresolved(Leaves(c), lookup)
  {
    match c
    case Multiple(units) => VerifyAllIsFirstUnresolved(units, lookup);
    case _ =>
  }

  lemma {:induction false} VerifyAllIsFirstUnresolved(units: seq<Coalescence>, lookup: string -> Result<real, Error>)
    ensures VerifyAll(units, lookup) == FirstUnresolved(LeavesOf(units), lookup)
  {
    if units != [] {
      VerifyIsFirstUnresolved(units[0], lookup);
      VerifyAllIsFirstUnresolved(units[1..], lookup);
      FirstUnresolvedAppend(Leaves(units[0]), LeavesOf(units[1..]), lookup);
    }
  }

  /** Consequently `verify` succeeds exactly when every variable leaf resolves. */
  lemma {:induction false} VerifySucceeds(c: Coalescence, lookup: string -> Result<real, Error>)
    ensures Verify(c, lookup).Ok? <==>
      forall k :: 0 <= k < |Leaves(c)| && Leaves(c)[k].Variable? ==> lookup(Leaves(c)[k].name).Ok?
  {
    VerifyIsFirstUnresolved(c, lookup);
    FirstUnresolvedOk(Leaves(c), lookup);
  }

  lemma {:induction false} FirstUnresolvedOk(leaves: seq<Coalescence>, lookup: string -> Result<real, Error>)
    ensures FirstUnresolved(leaves, lookup).Ok? <==>
      forall k :: 0 <= k < |leaves| && leaves[k].Variable? ==> lookup(leaves[k].name).Ok?
  {
    if leaves != [] {
      FirstUnresolvedOk(leaves[1..], lookup);
      assert forall k :: 1 <= k < |leaves| ==> leaves[1..][k - 1] == leaves[k];
    }
  }

  /** `coalesce_anchors`: one anchor per valued unit of a group, in order; a leaf that is not
      an operator has its own start as its one anchor (src/coalescence.rs:27-44). Only the
      units that get an anchor need a start. */
  method CoalesceAnchors(c: Coalescence) returns (anchors: seq<nat>)
    requires c.Multiple? ==> forall k :: 0 <= k < |c.units| && !c.units[k].Operator? ==> NonEmpty(c.units[k])
    ensures c.Multiple? ==> |anchors| == |ValuedUnits(c.units)|
    ensures c.Multiple? ==> forall k :: 0 <= k < |anchors| ==>
      NonEmpty(ValuedUnits(c.units)[k]) && anchors[k] == ByteStart(ValuedUnits(c.units)[k])
    ensures c.Operator? ==> anchors == []
    ensures !c.Multiple? && !c.Operator? ==> anchors == [c.span.start]
  {
    match c
    case Multiple(units) =>
      ValuedUnitsNonEmpty(units);
      anchors := [];
      var i := 0;
      while i < |units|
        invariant 0 <= i <= |units|
        invariant |anchors| == |ValuedUnits(units[..i])|
        invariant forall k :: 0 <= k < |anchors| ==>
          NonEmpty(ValuedUnits(units[..i])[k]) && anchors[k] == ByteStart(ValuedUnits(units[..i])[k])
      {
        var unit := units[i];
        assert units[..i + 1][..i] == units[..i];
        if !unit.Operator? {
          anchors := anchors + [ByteStart(unit)];
        }
        i := i + 1;
      }
      assert units[..i] == units;
    case Operator(_, _) =>
      anchors := [];
    case _ =>
      anchors := [ByteStart(c)];
  }
}
