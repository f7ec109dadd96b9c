# A bounded expression language, verified

This project models the expression language of the repository and proves what it promises: the
lexer, parser and formatter and their round trip; the lowering of expression functions and its
budgets; the budgeted evaluator; the iterative value and JSON converters; the rendering of templates
inside `when` expressions; and the timestamp arithmetic of exceptions. Run
`dafny verify dfyconfig.toml` to verify everything.

The parts fit together as follows.

* **Text to tree.** `LexerSpec` and `ParseSpec` are the lexer and the parser as functions on their
  state; the classes in `Lexer` and `Parser` have the source's fields and loops and are proved to
  compute them. `Grammar` is the independent reference: derivation trees that keep their parentheses.
  `Completeness` and `Soundness` prove that the parser accepts exactly the token sequences of a
  derivation that fits the budgets, and builds exactly the AST the derivation denotes. `Ladder` states
  precedence and associativity by the six sets of operators themselves, and `Forms` what each other form of
  expression parses as. `Lexical` is the lexical grammar
  apart from the lexer, `Lexing` and `LexLaw` prove that the lexer cuts a text exactly as it says, and
  `Utf8` that byte counts are those of the encoding.
* **Tree to text.** `Printed` is the pretty-printer as a recursive function; `Format` and `Formatter`
  prove the work-stack loops against it. `Canonical` gives the derivation that the printed text
  spells and proves it needs no more of any budget than any other derivation of the same AST; `Relex`
  and `RelexTree` prove that the lexer reads the printed text back token by token. `Location` says
  where a derivation stands in its tokens, `Layouts` computes the spans of printed text from widths
  alone, and `Laying` shows that they are the same. `RoundTrip` puts them together; `FormatLaw` gives
  the exact condition of the documented law, for `format_expression` with its own limits,
  `RoundTripEdges` an input against each part of that condition, and `Growth` bounds canonical text by
  three times its source, so that under the default limits formatting never fails. `Literals` proves the
  printed form of a string the shortest one there is. `Alignment` and
  `Nesting` are about the spans of every input: of tokens, nodes and diagnostics.
* **Templates.** `Template` proves the measuring pass and the rendering pass against each other and
  against one-pass substitution, and `Placeholders` both against a grammar of templates. `Markers` proves the single advancing span index. `RenderWhen`
  proves that substitution cannot change syntax.
* **Lowering.** `LowerSpec` is lowering and its dry-run meter as two recursive functions;
  `Lowering` is the analyser state with its stacks, counters and reported flags, proved against them;
  `LowerFacts` proves the meter exact. `LowerRules` is lowering once more as rules, form by form, that
  relate an expression to its tree, `Charges` reads the charges off that tree, and `Substitution` proves
  inline lowering to be substitution. `Cycles` is the three-colour search over the call graph and
  `CallGraph` ties its verdict to lowering. `BodyPaths` covers the recorded member paths and the
  derived body access, which it proves to be the least that covers what the tree does. `Analysis` composes them as the source does: integrity, preflight of the program
  and of every function body, the function graph, the dry run, lowering, and the body limit.
* **Evaluation.** `EvalSpec` is budgeted evaluation as a function, `Evaluator` the state machine
  proved against it, `EvalFacts` the budget theorems. `BigStep` has the rules of evaluation form by form,
  written without the evaluator's parts, and proves that evaluation follows them; `Faults` what each error
  says. `Meaning` is what a tree means when budgets are
  no object and `Resources` exactly what it then spends, so that evaluation succeeds if and only if
  the budget covers that. `Modes` and `ModeAgreement` prove that both function modes mean the same and
  exactly when the converse holds; `ModeEdges` has a program for each hypothesis without which they
  differ. `Dispatch` proves that accepted programs dispatch. `Registry` is a registry's own schema with
  expression functions added, and exactly when the registry serves what is analysed against it;
  `Leftovers` reads that off the call graph and the program text, and `LeftoverEdges` has an accepted
  program that is not served for each way it can happen.
* **Value graphs.** `ValueGraph` defines the measures once and proves the validating traversal
  against them; `Census` reads the measures off the list of all nodes; `Converters` is the converters'
  stack machine; `ValueJson` its two instances.

Opaque ingredients are parameters: float text and its reading (`FloatCodec`, with the hypothesis
`CodecValid` that a printed finite float reads back as itself and looks like a float literal, and in
`Growth` alone `CompactCodec`, that it is at most three times as long as any literal it is read from), host
handlers and operators (arbitrary functions that may charge work), the profile's checks of a
capability and of a variable (`permits`, `available`), and whether a float is finite. Errors are
tags. Lengths are UTF-8 byte lengths where the source counts bytes.

## Where the documentation and the code disagree

`docs/Specification.md:99-102` states `parse(format(parse(input))) == parse(input)` without
conditions. The code does not keep it for every input.

* Up to spans it holds if and only if the parsed AST has at most 65,536 nodes and its canonical text
  fits 4 MiB and the source-byte limit of the second parse (`FormatLaw.LawExactly`). Canonical text can
  be longer than the input (`RoundTripEdges.CanonicalTextCanExceedTheSourceLimit`), and with raised
  parse limits an AST can be larger than `format_expression` accepts, which then gives the empty text
  (`RoundTripEdges.LongArraysAreNotFormatted`). No depth, name, float, token, scalar or width limit can
  make it fail. Where the parse limits are no wider than the formatter's, the source-byte limit alone
  decides; a source of a third of that limit always obeys the law (`Growth.ShortInputsObeyTheLaw`).
* With spans, as written, it holds if and only if moreover the parsed AST is the layout of its own
  canonical text (`FormatLaw.LawWithSpansExactly`); a leading space is enough to break it
  (`RoundTripEdges.SpansMove`).
* The second law, `format(parse(format(parse(input)))) == format(parse(input))`, holds whenever its
  left side exists (`FormatLaw.FormattingIsIdempotent`).
* An AST that was not parsed may print as something else; `RoundTrip.ReadsBackExactly` gives the exact
  condition under which it reads back.

`docs/Specification.md:280-283` says that an expression function becomes a runtime host capability in
neither mode. It can. Adding one also leaves a host entry of its name and arity in the schema
(`source/src/sema/schema.rs:556`), and a call of a local function's name that is looked up in the global
scope finds that entry: in a global body (`LeftoverEdges.GlobalBodyLeaks`), in a program analysed in the
global scope (`LeftoverEdges.GlobalProgramLeaks`), and inline also in an argument of a global function
(`LeftoverEdges.ArgumentLeaks`). Nothing is reported; the program is accepted and requires a host
function that the registry it was analysed against does not serve. `Registry.OwnRegistryServes` is the
exact condition for every program in either mode, and `Leftovers.FramesServedExactly` the same as
reachability in the call graph.

## Model

| member | source | states |
|---|---|---|
| `Lexer.TokenizeInput` | source/src/parser/lexer.rs:61-140 | the lexer's object with its loops returns what the recursive lexer returns: tokens or diagnostics, on every input and under all limits; what that is, is `LexLaw.LexesExactly` |
| `LexLaw.LexesExactly` | source/src/parser/lexer.rs:99-316 | for every input and all limits, the lexer returns these tokens if and only if the text can be cut into their spellings at their spans with a blank or a comment, each ended by its first newline, as everything that stands between, and the source, token and scalar limits hold |
| `LexLaw.GapIsSkipped` | source/src/parser/lexer.rs:99-140 | a blank or a comment before an accepted text changes nothing but the spans, by its bytes |
| `LexLaw.CommentsEnd` | source/src/parser/lexer.rs:255-262 | a comment ends at its first newline: what follows is lexed as if it stood alone, shifted; at the end of the text it leaves the end marker alone |
| `LexLaw.DiagnosticsWithin` | source/src/parser/lexer.rs:99-140 | a refused text has at least one diagnostic and no more than the diagnostic limit, or one |
| `Utf8.EncodingReads` | source/src/parser/lexer.rs:264-316 | the encoding whose length the byte counts are is that of RFC 3629: its octets read back as the character |
| `Utf8.BytesAreEncoded` | source/src/parser/lexer.rs:61-98 | the length of a text in the limits is the length of its encoding |
| `Lexer.Lexer.LexStr` | source/src/parser/lexer.rs:142-189 | the string loop: the quote that opened it closes it, six escapes are decoded, any other is reported, decoded bytes are charged one by one and the run stops at the scalar limit, and an unclosed literal is reported |
| `Lexer.Lexer.LexNum` | source/src/parser/lexer.rs:191-226 | integers out of the 64-bit range and malformed floats are errors; a dot needs a digit after it |
| `Lexer.Lexer.LexIdent` | source/src/parser/lexer.rs:228-253 | keywords and identifiers both charge their bytes |
| `Lexer.Lexer.PushTok` | source/src/parser/lexer.rs:302-316 | a token beyond the limit is not pushed and stops the run |
| `LexerFacts.TokenizeSound` | source/src/parser/lexer.rs:61-140 | an accepted input gives tokens with ordered, disjoint, in-bounds spans, ended by the end marker, within the token, scalar and source limits |
| `LexerFacts.RunSound` | source/src/parser/lexer.rs:99-140 | every step of the main loop keeps that invariant |
| `Parser.Parser.Parse` | source/src/parser/parse.rs:84-90 | one expression, then the end of input, or a diagnostic |
| `Parser.Parser.ParseBinaryLevel` | source/src/parser/parse.rs:92-229 | each precedence level's loop rebinds its left operand; recursion depth is restored on every exit; which operators stand on which level is `Ladder.TwoOperators` |
| `Ladder.TwoOperators` | source/src/parser/parse.rs:92-229 | for all operands and any two operators, within the limits, `x a y b z` parses as `x a (y b z)` if `b` is in a later set than `a` of or; and; equality; order; sum; product, and as `(x a y) b z` otherwise |
| `Ladder.PrefixBetween` | source/src/parser/parse.rs:231-302 | a prefix operator applies to the whole member chain after it and to nothing a binary operator adds |
| `Forms.Lists` | source/src/parser/parse.rs:263-393 | brackets around parts separated by commas are the array of what they parse as, in order; after a name in parentheses a call, after a receiver, a point and a name a method call |
| `Forms.Parentheses` | source/src/parser/parse.rs:304-343 | parentheses leave no trace |
| `Forms.OneToken` | source/src/parser/parse.rs:304-343 | a text of one token is accepted if and only if the token is a literal or a name that is none of the reserved words, and is that expression |
| `Parser.Parser.ParseUnaryExpression` | source/src/parser/parse.rs:231-261 | prefix operators nest, one recursion level each |
| `Parser.Parser.ParsePostfixExpression` | source/src/parser/parse.rs:263-302 | chains of members and method calls, left to right |
| `Parser.Parser.ParsePrimaryExpression` | source/src/parser/parse.rs:304-343 | literals, names, calls, parentheses, arrays, and the reserved words |
| `Parser.Parser.ParseListing` | source/src/parser/parse.rs:345-393 | the item loop of arrays and arguments, with width and recursion checks in the source's order |
| `Parser.Parser.Make` | source/src/parser/parse.rs:483-504 | serialized depth is checked before the node count, and a refused node is not counted |
| `Completeness.ParserComplete` | source/src/parser/parse.rs:84-504 | every derivation that fits the node, serialized-depth, recursion and width budgets is accepted; the AST built is what it denotes, and each node's span is where the derivation stands in the tokens |
| `Soundness.ParserSound` | source/src/parser/parse.rs:84-504 | whatever is accepted has such a derivation, and the string leaves of the AST are the string tokens in order |
| `RoundTrip.ParseInput` | source/src/parser/parse.rs:22-39 | lexing and parsing one text |
| `RoundTrip.AcceptedExactly` | source/src/parser/parse.rs:22-504 | a text is accepted if and only if it has a derivation within the limits |
| `RoundTrip.Unambiguous` | source/src/parser/parse.rs:92-302 | precedence and associativity leave one AST: two derivations of one text denote the same AST |
| `RoundTrip.Printable` | source/src/parser/parse.rs:304-404 | every AST the parser builds has valid names and literals that print and read back |
| `Canonical.CanonFits` | source/src/parser/format.rs:184-212 | the minimal-parenthesis rule gives a derivation of the AST |
| `Canonical.CanonShortest` | source/src/parser/format.rs:210-212 | parentheses are minimal: no derivation of the AST has fewer tokens |
| `Canonical.CanonNest` | source/src/parser/parse.rs:458-473 | the canonical derivation nests at most the serialized depth less two, which keeps it within the recursion bound of 256 |
| `Canonical.CanonNeedsNoMore` | source/src/parser/format.rs:60-133 | the canonical derivation needs no more tokens, nodes, depth, width, nesting or scalar bytes than any other |
| `Layouts.LayoutStrips` | source/src/parser/format.rs:60-149 | the spanned AST computed from the widths of the printed pieces is the expression once its spans are forgotten |
| `Layouts.LayoutWithin` | source/src/parser/format.rs:60-149 | each of its nodes stands within the bytes printed for it |
| `Alignment.TokenizeAligned` | docs/Fuzzing.md:38-39 | for every input, accepted or not, the spans of all tokens and of all lexer diagnostics are ordered and on character boundaries |
| `Nesting.ParsedSpans` | docs/Fuzzing.md:38-39 | for every accepted input no node's span is empty, each lies in its parent's and in the input, siblings come in order without overlap, and all start and end on character boundaries |
| `Nesting.LocatedStands` | source/src/parser/parse.rs:92-504 | so for every derivation, from the order of the tokens it stands in |
| `Nesting.DiagnosticSpans` | docs/Fuzzing.md:38-39 | for every refused input the spans of all diagnostics are ordered and on character boundaries |
| `RelexTree.ThenReads` | source/src/parser/format.rs:60-149 | the lexer reads a printed expression as exactly its canonical tokens, and they stand where that layout puts its nodes |
| `RelexTree.AtReads` | source/src/parser/format.rs:60-133 | the lexer reads a printed subtree, parenthesised or not, as exactly the canonical token sequence, whatever follows it |
| `Literals.LiteralIsShortest` | source/src/parser/format.rs:162-177 | a string is printed between double quotes as the one shortest spelling that decodes to it and has no raw newline, carriage return or tab |
| `Literals.NumeralIsShortest` | source/src/parser/format.rs:60-149 | an integer is printed as the one shortest string of digits that spells it |
| `Literals.IntegersShown` | source/src/parser/format.rs:60-149 | a non-negative integer is printed as digits that spell it, and a negative one as the negation of its opposite |
| `Relex.QuotedReads` | source/src/parser/format.rs:162-177 | an escaped string literal is read back as the string it was written from |
| `RelexTree.OperatorTable` | source/src/parser/lexer.rs:99-140 | each printed operator is read as its own token and as no other |
| `RoundTrip.PrintedLexes` | source/src/parser/format.rs:11-133 | printed text lexes to the canonical tokens, and what stands for the AST in them is its layout |
| `RoundTrip.CanonicalRoundTrip` | source/src/parser/format.rs:30-133 | for every accepted input, whatever its limits, the reparse of its canonical text is accepted if and only if that text fits the source limit, and then gives the same AST with the spans of the canonical layout; the formatter's own limits are in `FormatLaw` |
| `RoundTrip.ReadsBackExactly` | source/src/parser/format.rs:60-133 | for any AST at all, printed text reads back as it if and only if its names and literals are the lexer's and its canonical form fits the limits, and then with the spans of the canonical layout |
| `FormatLaw.FormatOrEmpty` | source/src/parser/format.rs:7-9 | under the default limits, the canonical text or nothing |
| `FormatLaw.ParsedFormats` | source/src/parser/format.rs:11-28 | of a formatter's limits only nodes, depth and output can refuse a parsed AST, which is at most 63 levels deep; its names and floats never do |
| `FormatLaw.LawExactly` | docs/Specification.md:99-102 | for every input and all limits, the first law up to spans holds if and only if the AST has at most 65,536 nodes and its canonical text fits 4 MiB and the source limit; the reparsed AST is then the canonical layout |
| `FormatLaw.LawWithSpansExactly` | docs/Specification.md:99-102 | the first law as written, spans included, holds if and only if moreover the parsed AST is the layout of its canonical text |
| `FormatLaw.LawUnderNarrowLimits` | docs/Specification.md:97-112 | where the parse limits are no wider than the formatter's, the source-byte limit alone decides |
| `FormatLaw.FormattingIsIdempotent` | docs/Specification.md:97-102 | the second law holds whenever its left side exists, and a reparsed AST is its own canonical layout |
| `Growth.TokensPaid` | source/src/parser/lexer.rs:99-316 | no token takes more than three times its source bytes in canonical text, spaces and escapes included |
| `Growth.WidthBelow` | source/src/parser/format.rs:60-149 | the canonical text of what a derivation denotes is no longer than its tokens can be, whatever parentheses it has |
| `Growth.CanonicalGrowth` | source/src/parser/format.rs:60-177 | canonical text has at most three bytes for each byte of the source |
| `Growth.DefaultsAlwaysFormat` | docs/Specification.md:107-112 | under the default parse limits every parsed AST formats, so only an AST built directly gives the empty text |
| `Growth.ShortInputsObeyTheLaw` | docs/Specification.md:99-102 | a source of at most a third of the source limit obeys the first law up to spans |
| `RoundTripEdges.CanonicalTextCanExceedTheSourceLimit` | source/src/parser/format.rs:116-124 | an input at the source limit whose canonical text is refused |
| `RoundTripEdges.LongArraysAreNotFormatted` | source/src/parser/format.rs:7-9 | an array of 65,536 zeros or more that parses under limits just wide enough for it is formatted as the empty text, which does not parse |
| `RoundTripEdges.SpansMove` | source/src/parser/format.rs:11-42 | a leading space makes the reparse differ from the parse in spans |
| `Format.Preflight` | source/src/parser/preflight.rs:9-58 | the iterative count passes exactly when nodes and depth are within their limits, returns them, and names a limit that is really exceeded |
| `Format.ValidateSyntax` | source/src/parser/validation.rs:9-99 | the iterative validation passes exactly when all names are identifiers, floats finite and scalar bytes within the limit |
| `Formatter.Output.PushStr` | source/src/parser/format.rs:151-160 | text is appended exactly when the output stays within its limit |
| `Formatter.Output.PushEscaped` | source/src/parser/format.rs:162-177 | a string literal is appended escaped, or the output limit is reported |
| `Formatter.ScheduleExpression` | source/src/parser/format.rs:60-149 | what is scheduled for a node prints as the node |
| `Formatter.WriteAll` | source/src/parser/format.rs:30-42 | the work loop returns the recursive pretty-print when it fits the limit and reports the output limit otherwise |
| `Formatter.ScalarsWritten` | source/src/parser/validation.rs:9-63 | the scalar bytes of an AST are no more than the bytes of its text |
| `Formatter.FormatExpression` | source/src/parser/format.rs:11-42 | succeeds if and only if the AST is valid, within depth and nodes, and its text fits; so the scalar pre-check refuses nothing the output check would accept |
| `Template.PiecesCoverSource` | source/src/rulepack_render/template.rs:96-151 | the literal and placeholder pieces of a template concatenate to its source |
| `Template.Measure` | source/src/rulepack_render/template.rs:96-151 | the measuring pass accepts exactly the templates that split into pieces with values for all slots, within the placeholder budget, and announces the length of the expansion; a malformed marker is reported only if the text does not split, and a missing value only for a marker that stands in it; which texts split is `Placeholders.PiecesExactly` |
| `Placeholders.PiecesExactly` | source/src/rulepack_render/template.rs:96-151 | a text splits into these pieces if and only if it is their spelling: texts without doubled braces, slots whose names are non-empty and brace-free, and no opening brace right before a slot |
| `Placeholders.OrdinaryTemplates` | source/src/rulepack_render/template.rs:6-189 | every list of brace-free texts and slots with ordinary names that have values is measured, counted and rendered as its texts and values in order |
| `Placeholders.BadNamesRefused` | source/src/rulepack_render/template.rs:129-139 | a marker with an empty or braced name is refused, whatever follows it and whatever the variables are |
| `Template.RenderMeasured` | source/src/rulepack_render/template.rs:153-189 | the rendering loop returns the concatenation of literals and values |
| `Template.StrictRenders` | source/src/rulepack_render/template.rs:96-189 | whatever strict measuring accepts, rendering succeeds on and equals one-pass substitution; values are never rescanned |
| `Template.RenderSecure` | source/src/rulepack_render/template.rs:6-16 | succeeds exactly when the template is measurable and both budgets suffice, with exactly the measured bytes charged |
| `Template.RenderLegacyBounded` | source/src/rulepack_render/template.rs:27-37 | legacy rendering always yields text once its budgets are met |
| `Template.LenientAgreesExactly` | source/src/rulepack_render/template.rs:96-189 | legacy measuring agrees with legacy rendering on every template if and only if each name that is no well-formed placeholder name, but that a template can still address, stands for a value as long as its placeholder; so always when names are non-empty and brace-free |
| `Template.EmptyNameBreaksLenient` | source/src/rulepack_render/template.rs:96-189 | an empty variable name makes the two lengths differ |
| `Template.RenderMeter.ReserveRenderWork` | source/src/rulepack_render/limits.rs:257-270 | render work accumulates and is refused beyond the output limit |
| `Markers.StringSpansSorted` | source/src/rulepack_render/nested.rs:242-264 | string leaves of a parsed text have sorted, disjoint, in-bounds spans |
| `Markers.SpanIndexDecides` | source/src/rulepack_render/nested.rs:266-302 | one look at the advancing span index decides whether a marker lies inside any string at all |
| `Markers.RejectMarkersOutsideStrings` | source/src/rulepack_render/nested.rs:266-302 | the loop accepts exactly when every marker lies inside some string |
| `Placeholders.MarkersAreSlots` | source/src/rulepack_render/nested.rs:266-302 | the markers looked for in a template are its slots, at their bytes |
| `Placeholders.MarkersInsideExactly` | source/src/rulepack_render/nested.rs:266-302 | they are all inside strings if and only if every slot stands between the quotes of some string literal |
| `RenderWhen.RenderAstStrings` | source/src/rulepack_render/nested.rs:203-240 | every string leaf is rendered, in order, exactly when the budgets afford all of them |
| `RenderWhen.OnlyStringsChange` | source/src/rulepack_render/nested.rs:203-240 | the rendered AST is the only one of the same syntax whose strings, in order, are the rendered ones |
| `RenderWhen.ShapeTokens` | source/src/rulepack_render/nested.rs:170-201 | replacing string leaves leaves the canonical token count unchanged |
| `RenderWhen.SubstitutionKeepsSyntax` | source/src/rulepack_render/nested.rs:170-201 | for every template and all values, the rendered AST has the original's shape and its text, if it fits, parses to exactly that AST |
| `RenderWhen.RenderWhenText` | source/src/rulepack_render/nested.rs:170-201 | succeeds exactly when the text parses, markers lie in strings and the budgets suffice; the result parses to the original AST with only its string leaves rendered; the validating reparse never fails |
| `ValueGraph.ValidateValue` | source/src/runtime.rs:550-634 | the traversal accepts a value exactly when its recursive measure, with depth capped at 128, fits the limits and its leaves are admissible, and returns that measure; an error names a limit that the value really exceeds |
| `Census.FitsExactly` | source/src/runtime.rs:550-674 | a value fits if and only if its list of nodes is within the node limit, one shorter within the item limit, none deeper than the depth limit or 128, and one byte a node, the texts and the member names within the byte limit |
| `ValueGraph.ReserveValueChildren` | source/src/runtime.rs:636-674 | the reservation check and its overflow cases |
| `ValueGraph.NothingForeseenExceeds` | source/src/runtime.rs:636-674 | what the early reservation counts on is part of the whole measure, so it refuses nothing that would fit |
| `Converters.ValueGraphMeter.AddNode` | source/src/value.rs:188-192 | counts a node exactly when the metrics still fit |
| `Converters.ValueGraphMeter.ReserveChildren` | source/src/value.rs:198-232 | the converters' reservation of children |
| `Converters.Converter.Run` | source/src/value.rs:262-305 | the stack machine returns the recursive map exactly when the graph fits and every leaf converts; its underflow, missing-value and stray-value errors cannot occur |
| `Converters.Converter.ConvertValue` | source/src/value.rs:307-347 | one conversion keeps the machine's invariant |
| `ValueJson.TryFromJson` | source/src/value.rs:261-480 | JSON converts exactly when it fits and its integers are in range |
| `ValueJson.TryIntoJson` | source/src/value/to_json.rs:20-228 | a value converts exactly when it fits and its floats are finite |
| `Census.ValueFitsExactly` | source/src/runtime.rs:550-634 | so for runtime values, with texts and member names at their UTF-8 length |
| `ValueJson.FromJsonCorresponds` | source/src/value.rs:307-480 | JSON converts to a value if and only if the two correspond, leaf by leaf and key by key in order |
| `ValueJson.ToJsonCorresponds` | source/src/value/to_json.rs:67-228 | so does a value to JSON, if its floats are finite |
| `ValueJson.JsonRoundTrip` | source/src/value/to_json.rs:67-100 | accepted JSON comes back unchanged and within the same limits |
| `ValueJson.ValueRoundTrip` | source/src/value.rs:307-347 | an accepted value comes back unchanged and within the same limits |
| `Lowering.AnalyzeState.CountLowered` | source/src/sema/analyzer/limits.rs:24-149 | the dry run counts what the recursive meter counts, stops exactly when a budget is exceeded, and leaves no report when it passes |
| `Lowering.AnalyzeState.AnalyzeExpression` | source/src/sema/analyzer.rs:253-320 | real lowering builds the specified tree, charges the specified nodes and bytes, and restores all three stacks; what the tree is, is `LowerRules.LoweredExactly` |
| `LowerRules.LoweredExactly` | source/src/sema/analyzer.rs:253-729 | in both modes an expression is lowered to this tree if and only if the rules relate them: each form to the node of the same form, name and operator over the trees of its parts in order, each call to its function's body with the parameters replaced, or to a call frame over the trees of arguments and body, nothing refused or unknown, and within the depth limit |
| `LowerRules.RequiredExactly` | source/src/sema/analyzer.rs:425-622 | what is required of the registry is what the accepted tree dispatches on, no more and no less |
| `Charges.ChargesExactly` | source/src/sema/analyzer/functions.rs:129-220 | with call frames a tree is charged one node for each of its nodes and the bytes of its texts, names and parameters |
| `Substitution.LoweringSubstitutes` | source/src/sema/analyzer/functions.rs:19-127 | lowering under borrowed frames is lowering the expression with the frames' arguments substituted: the same tree, charges, requirements and reports |
| `Substitution.CallIsSubstitution` | source/src/sema/analyzer/functions.rs:75-127 | an inline call is lowered as its body with each parameter replaced by its argument |
| `Lowering.AnalyzeState.AnalyzeInlineCall` | source/src/sema/analyzer/functions.rs:75-127 | substitution through a borrowed frame |
| `Lowering.AnalyzeState.AnalyzeFrameCall` | source/src/sema/analyzer/functions.rs:129-220 | arguments first, then the body under a new frame |
| `Lowering.AnalyzeState.PushFunctionDiagnostic` | source/src/sema/analyzer/functions.rs:324-342 | whatever the diagnostic budget, a report leaves at least one diagnostic and removes none |
| `Lowering.AnalyzeState.LowerProgram` | source/src/sema/analyzer.rs:139-144 | the dry run, then lowering: a tree is produced exactly when nothing was or is reported and both budgets hold; once the dry run passes, exactly its counts are charged and no limit is reported, unless call-frame lowering reports recursion |
| `Analysis.AnalyzeProgram` | source/src/sema/analyzer.rs:91-161 | the analysis but for the refusals named under Left out (dialect, static cost, mitigation payload, stored diagnostics): as far as the others go, a program is accepted if and only if the schema is sound, it and every function body pass the preflight, bodies apply functions properly and acyclically, lowering is clean and within both budgets, and the body need is allowed; a program refused after its preflight leaves a diagnostic |
| `Analysis.BodyLimitDecides` | source/src/sema/analyzer/body_need.rs:9-87 | a profile's body limit refuses exactly the programs, acceptable otherwise, that read or use body data beyond it |
| `Analysis.PreflightBodies` | source/src/sema/analyzer.rs:120-131 | the preflight passes the function bodies exactly when each is within the profile's nodes and depth |
| `LowerFacts.MeterExact` | source/src/sema/analyzer/limits.rs:9-149 | lowering charges exactly what the dry run counted and sees the same depth: inline always, recursion and wrong arities included; with call frames unless recursion is reported |
| `LowerFacts.TreeBounded` | source/src/sema/analyzer.rs:253-320 | the tree has at most the charged nodes and is no deeper than the depth limit |
| `Analysis.BuildGraph` | source/src/sema/analyzer/functions.rs:222-252 | the adjacency built is the call graph, and a report is left exactly when some body applies a function to a wrong number of arguments or calls no known function |
| `Analysis.ValidateFunctionGraph` | source/src/sema/analyzer/functions.rs:222-322 | something is reported if and only if some body applies a function wrongly or some function can reach itself, whatever the diagnostic budget |
| `Analysis.FramesNeverMisapply` | source/src/sema/analyzer/functions.rs:222-322 | what the check of the bodies is for: once it passes, call-frame lowering of a program whose own calls fit never applies an expression function to a wrong number of arguments |
| `Cycles.ValidateFunctionCycles` | source/src/sema/analyzer/functions.rs:254-300 | the search alone, over any closed graph: it terminates, reports if and only if the graph has a directed cycle, and then leaves a diagnostic |
| `Cycles.ActiveIsThePath` | source/src/sema/analyzer/functions.rs:254-300 | at every point of the search the active set is the path of exit markers on the stack: each calls the next and none repeats |
| `Cycles.EnterStep` | source/src/sema/analyzer/functions.rs:282-297 | entering a function keeps the invariant of the search |
| `Cycles.ExitStep` | source/src/sema/analyzer/functions.rs:262-266 | so does leaving one, which makes it permanent |
| `Cycles.BackEdge` | source/src/sema/analyzer/functions.rs:240-302 | meeting an active function closes a cycle |
| `CallGraph.FunctionCalls` | source/src/sema/analyzer/support.rs:147-197 | the stack loop collects the calls of an expression in the recursive order |
| `CallGraph.GraphClosed` | source/src/sema/schema/integrity.rs:143-154 | on a valid schema every edge of the call graph ends at a function |
| `CallGraph.FramesNeverRecur` | source/src/sema/analyzer/functions.rs:129-177 | on an acyclic function graph call-frame lowering never meets an active function, whatever arities it meets |
| `CallGraph.PreflightDecides` | source/src/sema/analyzer/limits.rs:9-22 | the dry run counts exactly what lowering charges: inline for every schema, with call frames for every schema without a cycle |
| `BodyPaths.TraceFollowsTree` | source/src/sema/analyzer.rs:322-423 | in both modes, through any nesting of parameters, the recorded path is the member chain the tree follows, the recorded origin is where it leads, and the recorded need covers every chain and every use of body data |
| `BodyPaths.ChainIsRead` | source/src/runtime/evaluator.rs:165-273 | a tree with a chain evaluates to what following the chain from the context gives |
| `BodyPaths.PathIsRead` | source/src/sema/analyzer/functions.rs:179-219 | so the recorded path is what evaluation reads |
| `BodyPaths.OriginByPath` | source/src/sema/analyzer/support.rs:85-146 | what a chain is the body of is decided by its whole path, listed path by path |
| `BodyPaths.TraceIsLeast` | source/src/sema/analyzer.rs:322-649 | the recorded need is the least that covers the tree: no body data is asked for that the tree does not read or use |
| `BodyPaths.BodyLimitExactly` | source/src/sema/analyzer/body_need.rs:9-87 | a program's need is within a limit if and only if the program reads and uses body data only within it, its result included |
| `Evaluator.Evaluate` | source/src/runtime/evaluator.rs:16-49 | the state machine returns what the evaluation function returns |
| `Evaluator.EvalState.EvalExpression` | source/src/runtime/evaluator.rs:51-163 | steps, bytes and value as specified, and the locals stack restored on success and on error; the rules of that specification are `BigStep.EvalFollowsRules` |
| `BigStep.EvalFollowsRules` | source/src/runtime/evaluator.rs:51-443 | evaluation follows the rules form by form: literals are themselves, names come from the innermost frame that has them or the context, arrays and arguments keep their order, the host is asked for the operator on the left and the right value, the function on its arguments, the method on its receiver and arguments; it succeeds if and only if the rules give a value and the budget covers the steps, levels and bytes they count |
| `BigStep.FrameIs` | source/src/runtime/evaluator.rs:228-251 | a frame gives each parameter its argument, the last of its name, and nothing else |
| `Faults.EvalFaults` | source/src/runtime/evaluator.rs:51-464 | whatever evaluation fails with, the tree has a node that can report it: an array over the limit, a dispatch without its ticket, a member access, a logical operator, and so on |
| `Evaluator.EvalState.EvalExpressionFunction` | source/src/runtime/evaluator.rs:228-251 | the frame is pushed for the body only and popped on every exit |
| `Evaluator.EvalState.EvalShortCircuit` | source/src/runtime/evaluator.rs:307-344 | the right operand is evaluated only if the left does not decide |
| `Evaluator.EvalState.AdmitValue` | source/src/runtime/evaluator.rs:388-431 | a value is checked, then charged, and the total never exceeds its limit |
| `EvalFacts.EvalMonotone` | source/src/runtime/evaluator.rs:51-443 | a success under some limits is the same success, with the same totals, under any larger limits |
| `EvalFacts.EvalCovered` | source/src/runtime/evaluator.rs:51-163 | with enough steps and depth for the tree there is no step or depth error, at most one step a node, and the byte total stays within its limit |
| `EvalFacts.SuccessWithinLimits` | source/src/runtime/evaluator.rs:416-431 | under any limits, a success took at most one step a node and its byte total never exceeds its limit |
| `EvalFacts.StaticAdmission` | source/src/sema/profile.rs:152-260 | a program accepted under any built-in profile never meets the default step or depth limit |
| `Meaning.EvalReflects` | source/src/runtime/evaluator.rs:51-443 | budgeted evaluation gives exactly the meaning of the tree, runs out of budget, or the tree has none |
| `Resources.EvalDecides` | source/src/runtime/evaluator.rs:51-443 | evaluation succeeds if and only if the tree has a meaning and the budget covers exactly the steps, levels and bytes it spends |
| `Resources.AmpleIsLeast` | source/src/runtime/evaluator.rs:51-443 | every tree with a meaning has an ample budget, and no budget with less of anything will do |
| `Resources.SpendsWithin` | source/src/runtime/evaluator.rs:51-163 | a tree spends at most a step for each node and a level for each level |
| `ModeAgreement.ProgramsMeanTheSame` | source/src/sema/analyzer/functions.rs:75-220 | both accepted programs of one expression mean the same whenever each argument of an evaluated call has a meaning, so whenever the call-frame program has one |
| `ModeAgreement.ModesAgree` | source/src/sema/analyzer/functions.rs:75-220 | in one scope, with no body naming another function's parameter, if both modes accept and the call-frame program evaluates to a value, the inline program evaluates to it under exactly the budgets that cover what it spends, and runs out under the others; such budgets exist |
| `ModeAgreement.ConverseExactly` | source/src/sema/analyzer/functions.rs:75-220 | if the inline program evaluates to a value, the call-frame program does so if and only if each argument of an evaluated call has a meaning, and then to the same value |
| `ModeAgreement.Agree` | source/src/runtime/evaluator.rs:228-255 | the two trees of one expression have the same meaning, for any borrowed frames and locals that correspond |
| `ModeEdges.NestedCallIsRefusedInline` | source/src/sema/analyzer/functions.rs:119-123 | a used nested call of the same function is refused inline |
| `ModeEdges.NestedCallIsAcceptedByFrames` | source/src/sema/analyzer/functions.rs:129-220 | the call-frame mode accepts it |
| `ModeEdges.ConverseFails` | source/src/sema/analyzer/functions.rs:75-127 | an unused argument that always fails is evaluated under frames and not inline |
| `ModeEdges.ConverseFailsOnMemberOfNull` | source/src/sema/analyzer/functions.rs:75-127 | a member of null is such an argument |
| `ModeEdges.CapturedNameDiffers` | source/src/runtime/evaluator.rs:253-255 | a body naming another function's parameter, all else as required: both modes accept and give different values |
| `ModeEdges.TwoScopesDiffer` | source/src/sema/analyzer/functions.rs:75-127 | functions in two scopes, all else as required: both modes accept and give different values |
| `Dispatch.VerifyRuntimeCapabilities` | source/src/runtime/capability_check.rs:5-47 | passes exactly when the registry serves every required capability |
| `Dispatch.AcceptedResolved` | source/src/sema/analyzer.rs:425-729 | every node of an accepted tree carries the ticket of its own call and every name is a variable or a parameter |
| `Dispatch.DispatchProgress` | source/src/runtime/evaluator.rs:445-464 | such a program never fails with an unresolved or mismatched ticket, an unknown function, method or variable, or a wrong arity |
| `Registry.RuntimeSchema.AddVariable` | source/src/sema/schema.rs:370-377 | a variable is added and nothing else changes |
| `Registry.RuntimeSchema.AddScopedExpressionFunction` | source/src/sema/schema.rs:525-579 | an admitted function is added together with a plain host entry of its name and arity, one that is refused changes nothing, a refused or replaced one leaves a diagnostic, and otherwise the entries stay the registry's own but where a function has left one |
| `Registry.OwnSchemaGrows` | source/src/runtime.rs:310-329 | so for a registry's own schema and any expression functions added to it, each once |
| `Registry.OwnRegistryServes` | source/src/runtime/capability_check.rs:5-35 | for every schema whose entries are the registry's or left by a function, every program and either mode, the registry serves what lowering requires if and only if lowering meets no call, looked up in the global scope, that finds the entry of a local function |
| `Registry.OwnEntriesBacked` | source/src/runtime.rs:310-329 | where all host entries are the registry's own no such call exists |
| `Registry.OwnRegistryDispatches` | source/src/runtime.rs:331-360 | a program that meets no such call dispatches without a check of the registry |
| `Leftovers.FramesServedExactly` | source/src/sema/analyzer.rs:425-448 | with call frames an accepted program is served if and only if no such call can be reached from it in the call graph |
| `Leftovers.FramesServed` | docs/Specification.md:279-283 | with call frames it is enough that no global body, and no program in the global scope, calls a name that only a local function has |
| `Leftovers.InlineServed` | docs/Specification.md:279-283 | inline, that no argument of a function call elsewhere has such a call in it either |
| `LeftoverEdges.GlobalBodyLeaks` | source/src/sema/analyzer/functions.rs:303-322 | a global body that calls a local function's name: the function graph is sound, the program is accepted in either mode, and the registry does not serve it |
| `LeftoverEdges.GlobalProgramLeaks` | source/src/sema/schema.rs:525-579 | so for such a call in a program analysed in the global scope |
| `LeftoverEdges.ArgumentLeaks` | source/src/sema/analyzer/functions.rs:75-127 | so, inline only, for such a call in an argument of a global function |
| `Calendar.DaysFromCivilCounts` | source/src/rulepack_render/exceptions.rs:284-307 | for every Gregorian date the formula equals the day count from 1970-01-01 by months and years |
| `Calendar.TimestampCounts` | source/src/rulepack_render/exceptions.rs:235-307 | a text is accepted if and only if it has the strict form and names a Gregorian date and a time of day, and its number is 86,400 for each day counted from 1970-01-01 and the seconds of the day |
| `Calendar.TextOrder` | source/src/rulepack_render/exceptions.rs:235-270 | timestamps of the accepted form order as texts exactly as their fields do |
| `Calendar.TimestampsOrder` | source/src/rulepack_render/exceptions.rs:235-307 | accepted timestamps order as numbers exactly as they order as texts, and equal numbers are equal texts |

## Left out

- TOML: manifests, nested TOML files, `reject_markers_outside_toml_strings`, overrides and serialization go through text of the `toml` crate.
- Regular expressions, pattern sets and the regex admission of arguments: a foreign engine.
- JSON number text, serde encoding and float text: opaque. A JSON number is an in-range integer, an out-of-range integer or a finite float.
- Allocation failures (`try_reserve`), the wording of diagnostics, and the spans that formatter and evaluator errors carry.
- Operators and host handlers: arbitrary deterministic functions that may charge work.
- Phases, determinism and side-effect checks of capabilities: one predicate `permits`, and `available` for variables.
- `Analysis.AnalyzeProgram`: does not model dialect validation, the static cost bound, the mitigation-payload flag and the schema's stored diagnostics of expression functions; each only refuses more programs.
- The limits on expression functions and the validity of their parameters: `Registry.RuntimeSchema.AddScopedExpressionFunction` takes the verdict as a parameter.
- The tear-down loops that drain trees and values: they free memory and compute nothing.
- Object keys are an ordered list of keys rather than a sorted map.
- The two converters, which the source writes twice, are one machine over two leaf tables.
- The six binary precedence methods are one method with a level, since they share one loop; arrays and argument lists share their item loop.
- `RenderWhen.RenderAstStrings`: returns a new AST without spans where the source rewrites the strings in place; nothing reads the old AST afterwards.
- `BodyPaths.TraceFollowsTree`: paths, origins and needs are functions over the same recursion as lowering, not fields returned by the analyser's methods.
- `ModeAgreement.ModesAgree`: one function scope and no body that names another function's parameter; `ModeEdges.TwoScopesDiffer` and `ModeEdges.CapturedNameDiffers` show the modes giving different values without either.
- `Template.RenderLegacyBounded`: the announced bytes equal the rendered ones only under the condition of `Template.LenientAgreesExactly`.
- Resolvers, path, label, rate and provenance validation, schema presets, the command line and the wall clock: single checks or input and output.
