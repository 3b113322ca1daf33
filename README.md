# Calculator front end, modelled in Dafny

This project models the front half of a command-line calculator (the Rust crate
`calculator`): the path that takes one line of text to an expression tree, and the session
context that stores results and history.

- **Tokenizer** (`src/lexer.rs`). A cursor over the characters of the line that skips
  whitespace and emits spanned tokens:
  - numbers, with `0x`/`0o`/`0b` radix prefixes;
  - `$`-variables;
  - keyword functions and constants;
  - one-character operators and brackets;
  - runs of `;` collapsed into one `Coalesce(n)` token.

  Lexical errors come back as items, never as panics. Spans are UTF-8 byte offsets.
- **Coalescer** (`src/coalesce.rs`). A recursive state machine driven by the
  `last_valued` flag. It resolves brackets, inserts implicit multiplications, reads a `-`
  in operand position as unary minus, and applies the `;` marker. The marker splices the
  last k+1 units that are not binary operators into one nested group.
- **Coalescence queries** (`src/coalescence.rs`):
  - the span queries `byte_start`/`byte_end`;
  - the anchor list used for live highlighting;
  - the variable check `verify`.
- **Precedence parser** (`src/parse.rs`, with the precedences of `src/token.rs`). A
  two-stack algorithm (operators and nodes), with a stack base per bracket level, that
  builds the tree and the union of spans.
- **Context** (`src/context.rs`, plus the offset arithmetic of
  `src/interface/history.rs`). A value store whose slots are keyed by the hexadecimal form
  of a probing counter, and the history of submitted lines addressed by an offset.

Each imperative part of the source is an imperative member here, proved equal to a
specification function:

| imperative member | specification function |
|---|---|
| `Lexer` class | `Lex`, `NextItem`, `SkipSpace`, … |
| coalescer methods driving a token stream | `Level` |
| parser methods over explicit stacks | `ParseUnit`, `Construct`, `Reduce`, `Unwind` |
| `Context` class | `FreeIndex`, `History` |

The properties of the source are proved about those functions. Panics of the source
(`unwrap` on an empty stack, `assert!`, `assert_eq!`) appear as `None` results of the
parser.

Where the code and the design description disagree, the model follows the code:
- The description says that a marker requesting too many units is an error and "never a
  crash". As written, a marker right after a binary operator passes the coalescer. It then
  splices off a group that ends in that operator. With nothing below the group, as in
  `1+2-;3`, the parser panics. With an operand below it, as in `5+1+2-;3`, the parser
  accepts the line silently as the tree (5-(1+2))+3: the trailing `-` takes the `5` as
  its left operand (see Findings).
- The description says an unclosed bracket, as in `(1 + 2`, fails at the end of the input.
  As written, the end of the input ends every open level the same way
  (`src/coalesce.rs:83-87`), so `(1+2` is accepted as a group holding the group `1+2`.
- The description allows an `e`/`E` exponent. The number scan (`src/lexer.rs:36-54`) only
  lets a `-` follow a lower-case `e`. So in `1E-2` the scan stops at the `-`, and `1E`
  fails to parse as a literal.

Modules, in dependency order:

| module | contents |
|---|---|
| `Wrappers`, `Spans`, `Items`, `Errors`, `Tokens` | data model |
| `Chars`, `Literals` | character classes and literal validity |
| `Lexing` | tokenizer |
| `Coalescences` | coalescence tree and queries |
| `Coalescing`, `CoalesceLaws` | coalescer and its properties |
| `Parsing`, `ParseLaws` | parser and its properties |
| `Pipeline` | lexer, coalescer and parser composed |
| `Contexts` | value store and history |

## Model

| member | source | states |
|---|---|---|
| Tokens.Precedence | src/token.rs:26-32 | Add and Minus have precedence 0; Multiply, Divide and Modulo have 1; Power has 2 (each as an if-and-only-if); every precedence is at most 2 |
| Parsing.ParserPrecedence | src/parse.rs:14-19 | a function has precedence `usize::max_value()` exactly; a binary operator keeps its token precedence, which is strictly below every function's |
| Literals.FromStrRadix | src/lexer.rs:84-85 | the radix parse succeeds only on a non-empty, optionally signed run of digits valid in the radix, with a value in the i64 range |
| Lexing.SkipSpace | src/lexer.rs:27-34 | the whitespace run from i is consumed: every skipped character is whitespace and the stop is the end of the text or a non-whitespace character |
| Lexing.NumberEndScan | src/lexer.rs:36-54 | the number scan consumes exactly `.`, hexadecimal digits, `e`, and `-` once an `e` has been seen, and stops at the first other character |
| Lexing.MarkerEnd | src/lexer.rs:89-99 | the marker scan consumes exactly the run of `;` and stops at the first other character or at the end |
| Lexing.NameEnd | src/lexer.rs:101-111 | the identifier scan stops at the first whitespace or ASCII punctuation other than `$`; everything before it, `$` included, is part of the name |
| Lexing.Radix | src/lexer.rs:58-66 | the radix is 16, 8 or 2 exactly when the literal starts with `0` followed by `x`, `o` or `b` respectively, and 10 otherwise |
| Lexing.NumberToken | src/lexer.rs:36-87 | a number token's literal is the text from after any radix prefix to where the scan stops (the scan takes only number characters, and a `-` only after an `e`); the item spans the bytes from the first digit (the `0` of a prefix) to the scan's end; it is a literal in the prefix's radix exactly when the library parse accepts that text, and otherwise an `InvalidTerminal` error over the same span |
| Lexing.TokenAt | src/lexer.rs:123-172 | each token consumes at least one character, and its span runs from its first consumed byte to the next unconsumed byte |
| Lexing.NextItem | src/lexer.rs:117-122 | `next` yields nothing exactly when only whitespace remains, and otherwise the token at the first non-whitespace character |
| Lexing.LexSpansIncrease | src/lexer.rs:117-173 | every item has a non-empty span inside the text, and successive spans are increasing and disjoint |
| Lexing.MarkerRunToken | src/lexer.rs:126-129 | a run of exactly n semicolons is one `Coalesce(n)` token spanning exactly the run |
| Lexing.VariableName | src/lexer.rs:130-133 | `$` starts a variable named by the characters after it up to the first whitespace or ASCII punctuation other than `$`; later `$` stay in the name and a bare `$` names the empty string |
| Lexing.UnknownWord | src/lexer.rs:136-156 | a word reads up to the same stop rule, and fails `InvalidItem` exactly when it is not in the keyword table |
| Lexing.PunctuationToken | src/lexer.rs:159-171 | ASCII punctuation other than `;` and `$` is a one-character token; it fails `InvalidCharacter` carrying the character exactly when it is not one of `( ) + - * / % ^` |
| Lexing.Lexer.constructor | src/lexer.rs:18-25 | a new lexer is at the start of its text |
| Lexing.Lexer.SkipWhitespace | src/lexer.rs:27-34 | the loop leaves the cursor at `SkipSpace` of where it started |
| Lexing.Lexer.Number | src/lexer.rs:36-54 | the loop leaves the cursor at `NumberEnd` and returns its byte offset |
| Lexing.Lexer.ParseNumber | src/lexer.rs:56-87 | the item and the new cursor are those of `NumberItem` for the token's first character |
| Lexing.Lexer.TakeCoalesce | src/lexer.rs:89-99 | the loop leaves the cursor at the end of the `;` run; the counter is the length of the whole run, the first `;` included |
| Lexing.Lexer.TakeIdentifier | src/lexer.rs:101-111 | the loop leaves the cursor at `NameEnd` and returns its byte offset |
| Lexing.Lexer.Token | src/lexer.rs:123-172 | the dispatch on the first character produces the item of `NextItem` and moves the cursor to its end |
| Lexing.Lexer.Next | src/lexer.rs:117-173 | one call of the iterator yields `NextItem` from the old cursor; `None` leaves the cursor at the end of the text |
| Lexing.Lexer.Drain | src/coalesce.rs:16 | reading the iterator to the end yields exactly `Lex` of the text from the old cursor |
| Coalescences.SpanIsLeafSpan | src/coalescence.rs:47-65 | `byte_start` and `byte_end` of a tree are the start of its first leaf and the end of its last leaf |
| Coalescences.VerifyIsFirstUnresolved | src/coalescence.rs:17-25 | the depth-first `verify` fails exactly with the first leaf variable, left to right, that the lookup cannot resolve, at that variable's span |
| Coalescences.VerifySucceeds | src/coalescence.rs:17-25 | `verify` succeeds if and only if every variable leaf resolves |
| Coalescences.CoalesceAnchors | src/coalescence.rs:27-45 | a group has one anchor per unit that is not a binary operator, in order, each that unit's `byte_start`; a number, variable or function leaf has its own start as its one anchor; an operator has none |
| Coalescing.ValueUnit | src/coalesce.rs:50-59 | a number, variable or constant token becomes a leaf operand carrying the token's span |
| Coalescing.SpliceIndex | src/coalesce.rs:60-75 | the back scan stops only at a unit that is not a binary operator |
| CoalesceLaws.SpliceIndexCounts | src/coalesce.rs:60-78 | the back scan finds nothing exactly when fewer than `need` non-operator units exist, and otherwise stops where exactly `need` of them lie from there to the end |
| CoalesceLaws.SpliceGroups | src/coalesce.rs:60-78 | `Coalesce(k)` fails exactly when the level has at most k non-operator units; otherwise the units from a non-operator unit onwards become one group holding exactly k+1 of them, and earlier units are unchanged |
| Coalescing.SpliceTail | src/coalesce.rs:60-78 | the reverse scan with its decrementing counter computes `Splice` |
| Coalescing.ShiftToken | src/coalesce.rs:35-79 | the token arm of the loop computes `Shift` as the source reads the marker |
| Coalescing.Handle | src/coalesce.rs:16-80 | one pass of the loop body is one step of `Level` |
| Coalescing.Open | src/coalesce.rs:26-34 | the `(` arm, with its recursive call, is the `(` step of `Level` |
| Coalescing.Coalesce | src/coalesce.rs:12-88 | `coalesce` returns what `Level` returns and leaves exactly the items `Level` leaves unread |
| Coalescing.CoalesceRoot | src/coalesce.rs:8-10 | `coalesce_root` on a lexer is `Root` of the lexer's item stream |
| CoalesceLaws.EmptyLine | src/coalesce.rs:14 | an empty line fails `ExpectedValued` at span (0, 1) |
| CoalesceLaws.ShiftFilled | src/coalesce.rs:35-79 | every successful transition keeps the units non-empty trees, with at least one unit once an operand has been read |
| CoalesceLaws.LevelNonEmpty | src/coalesce.rs:83-87 | a level that closes successfully is a `Multiple` that is non-empty at every depth |
| CoalesceLaws.RootNonEmpty | src/coalesce.rs:8-10 | whatever `coalesce_root` returns is a `Multiple` non-empty at every depth, so `byte_start`/`byte_end` are defined on it |
| CoalesceLaws.AlternatesSplice | src/coalesce.rs:60-75 | splicing an alternating level that ends in an operand gives a well-formed group and keeps the level alternating |
| CoalesceLaws.ShiftShaped | src/coalesce.rs:35-79 | with the marker confined to operand position, every transition keeps the level alternating, with `last_valued` true exactly after an operand |
| CoalesceLaws.ValueShaped | src/coalesce.rs:90-106 | `value` keeps the level alternating: the implicit multiplication it inserts after a group sits between two operands |
| CoalesceLaws.LevelWellFormed | src/coalesce.rs:12-88 | with the marker confined to operand position, every level that closes successfully is well formed and non-empty at every depth |
| CoalesceLaws.RootWellFormed | src/coalesce.rs:8-10 | with the marker confined to operand position, `coalesce_root` returns only well-formed, non-empty groups |
| CoalesceLaws.ShiftAgrees | src/coalesce.rs:60-79 | confining the marker only adds failures: where the strict transition succeeds, the source's gives the same result |
| CoalesceLaws.StrictAgrees | src/coalesce.rs:12-88 | where the strict reading closes a level, the source's reading returns the same group and leaves the same items unread |
| CoalesceLaws.RootAgrees | src/coalesce.rs:8-10 | where the strict `coalesce_root` succeeds, the source's returns the same group |
| CoalesceLaws.MarkerAfterOperatorAsWritten | src/coalesce.rs:60-78 | the tokens of `1+2-;3` coalesce to `Multiple[Multiple[1,+,2,-], 3]` |
| CoalesceLaws.MarkerAfterOperatorIllFormed | src/coalesce.rs:60-78 | that group is not well formed |
| CoalesceLaws.MarkerAfterOperatorStrict | src/coalesce.rs:76-78 | the strict reading rejects the marker with `InvalidCoalesce` at the marker's span |
| CoalesceLaws.OperandBelowMarkerAsWritten | src/coalesce.rs:60-78 | the tokens of `5+1+2-;3` coalesce to `Multiple[5, +, Multiple[1,+,2,-], 3]` |
| CoalesceLaws.OperandBelowMarkerStrict | src/coalesce.rs:76-78 | the strict reading rejects that marker with `InvalidCoalesce` at its span |
| CoalesceLaws.UnclosedBracket | src/coalesce.rs:83-87 | an unclosed bracket is not an error: `(1+2` coalesces to `Multiple[Multiple[1,+,2]]` |
| Parsing.Construct | src/parse.rs:60-77 | `construct` fails exactly on an empty operator stack or too few nodes. Otherwise it pops the top operator and its operands (two for a binary operator, one for a function) and pushes one node. That node is the operator applied to the two top nodes, left below right (or the function applied to the top node), and spans from the left operand's start (or the function's start) to the last operand's end; the nodes below are unchanged |
| Parsing.ReduceKeeps | src/parse.rs:38-45 | the reduction loop never touches an operator below the level's base |
| Parsing.UnwindKeeps | src/parse.rs:52-55 | closing a group leaves exactly the operators below its base |
| Parsing.ParseUnitKeeps | src/parse.rs:29-58 | parsing a unit never touches operators below its level's base; after a `Multiple` the operator stack is exactly what it was on entry |
| Parsing.ParseUnitsKeeps | src/parse.rs:47-51 | parsing the units of a group never touches operators below the group's base |
| Parsing.ConstructNode | src/parse.rs:60-77 | the stack operations of `construct` compute `Construct` |
| Parsing.ReduceFor | src/parse.rs:39-44 | the `while let` reduction loop computes `Reduce` |
| Parsing.UnwindTo | src/parse.rs:53-55 | the closing loop computes `Unwind` |
| Parsing.Parse | src/parse.rs:29-58 | `parse` on the two stacks computes `ParseUnit` |
| Parsing.ParseExpression | src/parse.rs:22-27 | `parse_root` computes `ParseRoot` |
| ParseLaws.ConstructLift | src/parse.rs:60-77 | `construct` on a level's own stacks is the same with enclosing stacks below them |
| ParseLaws.ConstructReady | src/parse.rs:60-77 | on a level that has just read an operand, `construct` never meets an empty stack and leaves the level in that state |
| ParseLaws.ReduceReady | src/parse.rs:38-45 | after an operand, the reduction loop succeeds and stays inside the level; it stops at an empty level stack or at an operator binding less tightly than the incoming one |
| ParseLaws.UnwindReady | src/parse.rs:52-55 | closing a level after an operand builds exactly one node spanning the level and restores the enclosing stacks |
| ParseLaws.FunctionStep | src/parse.rs:36-37 | a function is pushed and waits for its operand |
| ParseLaws.OperatorStep | src/parse.rs:38-46 | a binary operator after an operand reduces, is pushed, and waits for its right operand |
| ParseLaws.LeafStep | src/parse.rs:32-35 | a number or variable becomes a leaf node with its span unchanged |
| ParseLaws.StepUnit | src/parse.rs:31-56 | each unit of a well-formed group moves the level from one consistent state to the next without a panic |
| ParseLaws.ParseUnitsFrom | src/parse.rs:49-50 | the units of a well-formed group parse without a panic, ending just after an operand |
| ParseLaws.ParseGroup | src/parse.rs:47-56 | a well-formed, non-empty group adds exactly one node, spanning the group from `byte_start` to `byte_end`, and leaves the operator stack as it was |
| ParseLaws.ParseRootWellFormed | src/parse.rs:22-27 | on a well-formed, non-empty group `parse_root` does not panic: it ends with exactly one node spanning from the group's first token byte to its last token byte |
| ParseLaws.ParseUnitsAppend | src/parse.rs:49-50 | the units of a group are parsed in order, each from where the previous one left off |
| ParseLaws.LeftAssociative | src/parse.rs:38-45 | `1-2-3` parses as `(1-2)-3`: equal precedence groups to the left |
| ParseLaws.TighterBindsFirst | src/parse.rs:38-45 | `1+2*3` parses as `1+(2*3)`: the higher precedence binds tighter |
| ParseLaws.TrailingOperatorPanics | src/parse.rs:64-65 | a group ending in a binary operator, `1+2-`, makes `construct` pop a missing left node |
| ParseLaws.MarkerAfterOperatorPanics | src/parse.rs:22-27 | `parse_root` panics on `Multiple[Multiple[1,+,2,-], 3]` |
| ParseLaws.OperandBelowMarkerMisparse | src/parse.rs:22-77 | `parse_root` accepts `Multiple[5, +, Multiple[1,+,2,-], 3]` without a panic, as the tree (5-(1+2))+3 |
| Pipeline.Front | src/interface/basic.rs:49-54 | lexing, `coalesce_root` and `parse_root` on a fresh lexer compute `FrontEnd` of the lexer's items |
| Pipeline.StrictLinesParse | src/interface/basic.rs:49-54 | every line the strict coalescer accepts is accepted by the source's coalescer and parses without a panic into one tree spanning from the group's first token byte to its last token byte |
| Pipeline.MarkerAfterOperatorPanics | src/interface/basic.rs:49-54 | the line `1+2-;3` passes the coalescer and then makes the parser panic |
| Pipeline.OperandBelowMarkerMisparses | src/interface/basic.rs:49-54 | the line `5+1+2-;3` passes the coalescer and parses, without a panic, to the tree (5-(1+2))+3 |
| Contexts.HexRoundTrip | src/context.rs:16 | reading back the lower-case hexadecimal form of an index gives the index |
| Contexts.HexInjective | src/context.rs:16 | different indices get different slot keys |
| Contexts.ProbeBounded | src/context.rs:15-25 | a taken key belongs to an index no larger than the largest index any key reads as, so the probe terminates |
| Contexts.FreeIndex | src/context.rs:15-25 | the probe stops at the first index at or above the counter whose key is free; every index it skips is taken |
| Contexts.PushTwice | src/context.rs:14-26 | two consecutive pushes get strictly increasing indices and distinct keys, and the first value is kept |
| Contexts.Context.constructor | src/context.rs:3-11 | the default context has counter 0, no values, no history, offset 0 and an empty line |
| Contexts.Context.PushValue | src/context.rs:14-26 | the returned index is the first free one at or above the counter, and the counter ends one past it. Its key was absent, and the map is the old map plus that key and nothing else |
| Contexts.Context.PushHistory | src/context.rs:28-30 | the line is appended at the end; earlier entries and the offset are unchanged |
| Contexts.Context.History | src/context.rs:32-35 | `history()` is `history[len - offset]` exactly when 1 ≤ offset ≤ len, and none otherwise |
| Contexts.Context.HistoryUp | src/interface/history.rs:9-24 | the offset moves one entry back and loads it when there is one; at the oldest entry nothing changes |
| Contexts.Context.HistoryDown | src/interface/history.rs:26-42 | the offset moves one entry forward, saturating at zero; offset zero clears the line, and otherwise the entry is loaded (the `unwrap` never fails) |

## Left out

- Numeric values are not modelled. These are the f64 value of a literal, the value of a
  constant, and the evaluation of the tree (`src/node.rs`: floating-point arithmetic and
  library functions). A number token carries the digits it was read from, its radix and
  whether its literal parses. The grammar accepted by `str::parse::<f64>` is modelled as
  a predicate on the slice.
- `Lexing.Lexer.Next`: the lexer's `last_coalesce` field is carried but not used. The
  source's `next` does not read it either.
- `Coalescing.CoalesceRoot`: the lexer is read to the end before coalescing starts, not
  one token per loop pass. Results and errors are the same, since the lexer has no other
  reader. But an early error leaves the model's lexer at the end of the text rather than
  just after the failing token.
- `Coalescences.Verify`: the context's `variable` lookup (with its back-reference
  addressing) is not part of the shown context and is a parameter here.
- `Coalescences.SpanIsLeafSpan`: `byte_start`/`byte_end` are defined on groups that are
  non-empty at every depth. The source needs only the first (last) unit at each depth to
  exist. Everything the coalescer returns is non-empty at every depth
  (`CoalesceLaws.RootNonEmpty`).
- `Coalescences.CoalesceAnchors`: for the same reason, it requires every group below a
  non-operator unit to be non-empty. The source needs only the leftmost path to exist.
- Character classes (`char::is_whitespace`, `is_ascii_punctuation`, `is_digit`) are exact
  predicates on Unicode scalar values.
- Spans are UTF-8 byte offsets of the text, computed from the character widths. There is
  no Unicode normalisation.
- Recursion depth and stack overflow on deeply nested input are not modelled.
- The terminal interface is left out. That covers raw-mode input, cursor movement, redraw,
  colour and standard input/output (`src/interface.rs`, `src/interface/*.rs`,
  `src/main.rs`). Of `src/interface/history.rs`, only the offset arithmetic and the line
  it loads are modelled; `Contexts.Context.HistoryUp` and `Contexts.Context.HistoryDown`
  leave out the redraw and the `check` call.
- Error messages (`Display` in `src/error.rs`) are not modelled.
- Concrete tokenizer examples on literal strings are not stated: the tokenizer is
  specified over all texts instead (`Lexing.MarkerRunToken`, `Lexing.LexSpansIncrease`).
- `Parsing.ParserPrecedence`: `usize` is taken to be 64 bits wide.

## Findings

| source | as written | input that shows it | evidently intended | confidence | as-written member | corrected member |
|---|---|---|---|---|---|---|
| src/coalesce.rs:60-78 | a `;` marker is applied whatever `last_valued` is, so it may splice off a group that ends in a binary operator. With nothing below the group, `construct` (src/parse.rs:64-65) pops a missing left node and the program panics. With an operand below it, the trailing operator takes that operand and the line parses silently to a wrong tree | `1+2-;3`, which coalesces to `Multiple[Multiple[1,+,2,-], 3]` and panics; `5+1+2-;3`, which coalesces to `Multiple[5, +, Multiple[1,+,2,-], 3]` and parses as (5-(1+2))+3 | a marker in operand position fails `InvalidCoalesce` at its span, so that every coalesced line parses | not executed | CoalesceLaws.MarkerAfterOperatorAsWritten, CoalesceLaws.MarkerAfterOperatorIllFormed, Pipeline.MarkerAfterOperatorPanics, CoalesceLaws.OperandBelowMarkerAsWritten, Pipeline.OperandBelowMarkerMisparses | Coalescing.Level (strict reading) with CoalesceLaws.RootWellFormed, CoalesceLaws.MarkerAfterOperatorStrict, CoalesceLaws.OperandBelowMarkerStrict and Pipeline.StrictLinesParse |
