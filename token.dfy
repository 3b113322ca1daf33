/** Lexical tokens and binary-operator precedence (src/token.rs). */
module Tokens {
  import opened Items

  /** The binary operators of the calculator. */
  datatype Operator = Add | Minus | Multiply | Divide | Modulo | Power

  /** Binding strength of a binary operator: additive < multiplicative < power. */
  function Precedence(op: Operator): (p: nat)
    ensures p <= 2
    ensures p == 0 <==> op == Add || op == Minus
    ensures p == 1 <==> op == Multiply || op == Divide || op == Modulo
    ensures p == 2 <==> op == Power
  {
    match op
    case Add | Minus => 0
    case Multiply | Divide | Modulo => 1
    case Power => 2
  }

  /** A number carried through the pipeline. Its f64 value is not computed here: a literal
      keeps the digits it was read from and the radix they are read in. */
  datatype Num = Literal(digits: string, radix: nat) | ConstantValue(constant: Constant)

  datatype Token =
    | Terminal(value: Num)
    | Variable(name: string)
    | Operator(operator: Operator)
    | Function(kind: Function)
    | Constant(constant: Constant)
    | ParenthesisOpen
    | ParenthesisClose
    | Coalesce(count: nat)
}
