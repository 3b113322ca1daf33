/** The error kinds of the pipeline (src/error.rs, together with the two kinds the lexer and
    the coalescer raise in the revision modelled here: `ExpectedValued` and `InvalidItem`). */
module Errors {

  datatype Error =
    | InvalidCharacter(character: char)
    | InvalidTerminal
    | InvalidItem
    | ExpectedTerminal
    | ExpectedValued
    | ExpectedOperator
    | MismatchedBracket
    | EmptyBrackets
    | InvalidCoalesce
    | ZeroDivision
}
