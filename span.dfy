/** Byte spans into the input line (src/span.rs). */
module Spans {

  /** A half-open byte range `[start, end)` of the input text. */
  datatype Span = Span(start: nat, end: nat)

  /** A value together with the bytes it came from. */
  datatype Spanned<+T> = Spanned(node: T, span: Span)
}
