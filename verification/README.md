# Fantastico ROA query parser, modelled in Dafny

Fantastico's ROA layer turns query strings into model filters and sorts:
`eq(name,"John")`, `and(gt(id,1),lt(id,5))` and `asc(name)`. This project
models the query parser that does it. The model has five parts:

- **The lexer** (`QueryParser._parse_lexic`) is a left-to-right scan. It:
  - drops spaces;
  - emits the structural symbols `(`, `)` and `,`;
  - recognises the four-character operator tokens;
  - captures long free-text literals;
  - closes the token list with the end marker `$`.
- **The table-driven LL driver** (`_parse_syntax`) works on an explicit
  stack of terminals and rules. It records a left-most derivation, and
  each row of the derivation carries a semantic action.
- **The semantic actions**:
  - `_new_operator`, `_add_argument` and `_exec_operator`;
  - the `nop` row, and the row whose action slot holds `None`;
  - the operator classes: binary comparison (validate, then build),
    compound `and`/`or` (segmentation, then recursive parsing), and sort
    `asc`/`desc`.
- **`parse_filter` and `parse_sort`**.
- **The filter node `ModelFilter`**:
  - the closed operation set;
  - rejection of an unknown operation at construction;
  - the rule that `in` demands a list;
  - the dispatch from operation to query expression;
  - `build`.

Modelling choices:

- Exceptions become values of `Errors.ParseError`, returned through
  `Result`.
- The model schema (`getattr(model, name)`) is a finite map from attribute
  names to opaque column handles.
- A query-builder expression is a symbolic datatype.
- `json.loads` is a small decoder for the scalars a filter value carries.
- The regular expressions are explicit scans:
  - the free-text class `[a-zA-Z. "0-9]`;
  - the lazy `or\(.*?\)\)`, `and\(.*?\)\)` and `[a-z]{1,}\(.*?\)` searches of
    compound validation.

The source is inconsistent in four places. The model follows evident
intent in each:

- One free-text class is used: the parser's, which includes digits. The
  operations' class omits digits.
- `lt`, `le` and `like` are siblings of `eq`, `ge` and `gt`. They use the
  tokens `ModelFilter` defines. Their classes are imported; their code is not
  part of this model.
- The compound and sort classes call their base constructor with an
  operation and one argument string. The model gives them exactly those
  two inputs.
- The compound and sort tokens never enter the grammar table.
  `parse_filter` routes by the first lexed token:
  - `and(...)` and `or(...)` go to compound validation;
  - `asc(...)` and `desc(...)` go to sort validation;
  - in both cases the raw text between the first `(` and the last `)` is
    the argument.

Two source properties are stated in the lemmas below, not in the code:

- A value that does not start in the text class makes the LL pass stop
  early. An example is the negative number in `eq(id,-1)`. `parse_filter`
  then returns no filter and no error (`ParserFacts.ParseBinaryOutsideText`).
- Compound validation collects `or(...)` spans first, then `and(...)` spans,
  then plain calls. Its children therefore follow collection order, which
  can differ from textual order (`Segments.CollectionOrder`).

## Model

| member | source | states |
|---|---|---|
| ModelFilter.OperationOf | fantastico/mvc/models/model_filter.py:41-47 | a token names an operation exactly when it is one of the supported tokens, and that operation's token is the token itself |
| ModelFilter.SupportedOperationsAreTheOperations | fantastico/mvc/models/model_filter.py:71-85 | the supported operations are exactly gt, ge, eq, lt, le, like and in: seven distinct tokens, each naming its operation back |
| ModelFilter.NewModelFilter | fantastico/mvc/models/model_filter.py:87-98 | construction fails, naming the operation, exactly when the operation is unsupported; otherwise column, reference value and operation are stored unchanged and read back by the accessors |
| ModelFilter.GetExpression | fantastico/mvc/models/model_filter.py:108-132 | only `in` with a non-list reference value fails, and the error carries that value; every expression is on the filter's column |
| ModelFilter.ExpressionDeterminesFilter | fantastico/mvc/models/model_filter.py:113-130 | each operation maps to its own comparison: the expression gives back the column, reference value and operation it came from |
| ModelFilter.ExpressionExists | fantastico/mvc/models/model_filter.py:108-132 | every filter has an expression unless it is an `in` on a non-list value |
| ModelFilter.Build | fantastico/mvc/models/model_filter.py:100-106 | a missing query gives nothing; otherwise the result is the query with exactly this filter's expression appended after the existing criteria, or the `in` error |
| Registry.RegistryWellFormed | fantastico/roa/query_parser.py:31-35 | the registered binary tokens are pairwise distinct, two to four characters long, and no symbol of length one is anything but `(`, `)` or `,` |
| Text.Strip | fantastico/roa/query_parser_operations.py:42 | `str.strip`: the result is no longer than the input, has no whitespace at either end, and is empty exactly when the input is all whitespace |
| Text.StripIsSlice | fantastico/roa/query_parser_operations.py:42 | `str.strip` keeps a contiguous slice of the input and cuts off only whitespace before and after it |
| Text.StripNoEnds | fantastico/roa/query_parser_operations.py:155 | a string without whitespace at its ends is its own strip |
| Text.StripLeft | fantastico/roa/query_parser_operations.py:42 | `str.lstrip`: the result is a suffix of the input that does not start with whitespace, and everything cut off is whitespace |
| Text.StripRight | fantastico/roa/query_parser_operations.py:42 | `str.rstrip`: the result is a prefix of the input that does not end with whitespace, and everything cut off is whitespace |
| Text.FindFrom | fantastico/roa/query_parser.py:156-159 | `str.find` of one character from a start index: the index found holds the character and none before it from the start does; no index means the character does not occur from there on |
| Text.FirstOccurrence | fantastico/roa/query_parser_operations.py:232 | the leftmost occurrence of a substring at or after a start position, found exactly when the substring occurs there, with no earlier occurrence |
| Text.FirstOccurrenceAt | fantastico/roa/query_parser_operations.py:232 | an occurrence with none before it is the one the search finds |
| Text.RemoveFirst | fantastico/roa/query_parser_operations.py:232-238 | `replace(span, "", 1)` removes the leftmost occurrence of the span and nothing else, or leaves the text alone when the span does not occur |
| Json.Decode | fantastico/roa/query_parser_operations.py:145 | the decoder never yields a list; it yields null exactly for `null`, and a boolean or a string only for its own JSON spelling |
| Json.DecodeEncode | fantastico/roa/query_parser_operations.py:145 | decoding the JSON text of any scalar gives that scalar back |
| Json.NumeralValueOfNumeral | fantastico/roa/query_parser_operations.py:145 | the decimal numeral of a natural number reads back as that number |
| Json.DecodeNumeral | fantastico/roa/query_parser_operations.py:145 | a decimal numeral with no superfluous leading zero decodes to its value |
| Json.DecodeNegated | fantastico/roa/query_parser_operations.py:145 | a minus sign before such a numeral decodes to the negated value |
| Json.DecodeNumber | fantastico/roa/query_parser_operations.py:145 | the JSON text of any integer, negative or not, decodes back to that integer |
| Json.DecodeString | fantastico/roa/query_parser_operations.py:145 | a quoted string without quotes, backslashes or control characters decodes back to the string it quotes |
| Lexer.Step | fantastico/roa/query_parser.py:130-174 | one step of the scan. A space is dropped unless the pending literal holds `"`. A structural symbol emits the non-empty pending literal, then itself. A four-character pending literal naming an operator is emitted; one naming no operator stays pending, as shorter ones do. A fifth character makes the pending literal one free-text token up to the delimiter. Tokens are only appended |
| Lexer.LiteralEnd | fantastico/roa/query_parser.py:155-163 | a long literal ends at the next `,`, else at the next `)`, and two positions earlier when that delimiter follows a `)`. With no delimiter it ends at the end of the input (the corrected case) |
| Lexer.StepTakesFromInput | fantastico/roa/query_parser.py:137-166 | every character a step adds to the pending literal or to a new token comes from the input |
| Lexer.RunTakesFromInput | fantastico/roa/query_parser.py:130-174 | the scan loop only appends tokens, and every appended token is a non-empty string of input characters |
| Lexer.Run | fantastico/roa/query_parser.py:130-174 | the scan loop stops with its index at the end of the input, and the pending literal never grows past four characters |
| Lexer.Lex | fantastico/roa/query_parser.py:122-178 | the token list is the tokens the scan emitted followed by one end marker; a literal still pending at the end of the input is not emitted |
| Lexer.LexTakesFromInput | fantastico/roa/query_parser.py:122-178 | every token before the end marker is non-empty and made of input characters |
| Lexer.EndMarkerOnlyAtEnd | fantastico/roa/query_parser.py:176 | for an input without `$` the token list ends in exactly one end marker |
| LexerFacts.LiteralEndNoBackOff | fantastico/roa/query_parser.py:155-172 | without `),` in the input a long literal stops exactly at its delimiter or at the end of the input, after the character that started it |
| LexerFacts.StepKeepsText | fantastico/roa/query_parser.py:130-174 | for input without spaces or `),`, one step keeps the tokens plus the pending literal spelling the input read so far |
| LexerFacts.StructuralKeepsText | fantastico/roa/query_parser.py:148-153 | a structural symbol keeps the text spelt out and clears the pending literal |
| LexerFacts.LiteralKeepsText | fantastico/roa/query_parser.py:155-172 | a long literal keeps the text spelt out and clears the pending literal |
| LexerFacts.RunKeepsText | fantastico/roa/query_parser.py:130-174 | the whole scan keeps the text spelt out by its tokens and its pending literal |
| LexerFacts.LexSpellsInput | fantastico/roa/query_parser.py:122-178 | nothing is lost, duplicated or reordered: for input without spaces or `),`, the tokens before `$` spell the input, apart from a trailing literal left pending, and spell it in full when the input ends with a structural symbol |
| LexerFacts.Accumulate | fantastico/roa/query_parser.py:139-147 | the first characters of a plain word (fewer than four) only accumulate in the pending literal |
| LexerFacts.GrowKeepsText | fantastico/roa/query_parser.py:139-147 | a character added to a pending literal shorter than four, emitted or not as an operator token, keeps the text spelt out |
| LexerFacts.RunUnfold | fantastico/roa/query_parser.py:130-174 | one iteration of the loop: the scan from a state reaches what the scan from its successor reaches |
| LexerFacts.AccumulateFour | fantastico/roa/query_parser.py:142-147 | the fourth character of a plain word either completes an operator token, which is emitted, or accumulates |
| LexerFacts.FlushWord | fantastico/roa/query_parser.py:148-153 | a structural symbol after a pending word emits the word, then the symbol |
| LexerFacts.LexShortWord | fantastico/roa/query_parser.py:137-153 | a word of at most four plain characters followed by a structural symbol becomes one token, then the symbol becomes another |
| LexerFacts.LiteralEndAfterWord | fantastico/roa/query_parser.py:155-163 | a long word followed by `,` (or by `)` with no `,` after it) ends its literal exactly at that symbol |
| LexerFacts.LongWordReachesDelimiter | fantastico/roa/query_parser.py:139-172 | a long word not starting with an operator token is scanned up to its delimiter as one token |
| LexerFacts.LongWordStep | fantastico/roa/query_parser.py:155-172 | the fifth character of a long word takes the rest of the word up to its delimiter as one token and moves the index to the delimiter |
| LexerFacts.SymbolAfterWord | fantastico/roa/query_parser.py:148-153 | a structural symbol with nothing pending is emitted as its own token |
| LexerFacts.LexLongWord | fantastico/roa/query_parser.py:139-172 | a long word followed by its delimiter becomes one token, then the delimiter becomes another |
| LexerFacts.LexWord | fantastico/roa/query_parser.py:137-172 | any plain word followed by a structural symbol becomes one token, then the symbol becomes another |
| LexerFacts.LexBinary | fantastico/roa/query_parser.py:122-178 | `op(col,val)` with two plain words lexes into exactly the operator, `(`, the column, `,`, the value, `)` and `$` |
| LexerFacts.LexLayout | fantastico/roa/query_parser.py:130-174 | for any text laid out as `op(col,val)` with plain words, the scan emits exactly the operator, `(`, the column, `,`, the value and `)` |
| LexerFacts.PyFind | fantastico/roa/query_parser.py:156-159 | `str.find` as written, with -1 for no match: any other result is an index at or after the start holding the character |
| LexerFacts.LiteralEndAsWritten | fantastico/roa/query_parser.py:156-163 | the as-written end of a long literal is at or after the literal's start, or negative |
| LexerFacts.LiteralEndAgreesWithDelimiter | fantastico/roa/query_parser.py:156-163 | whenever a `,` or `)` follows, the as-written end and the corrected end agree |
| LexerFacts.LiteralEndAsWrittenGoesBack | fantastico/roa/query_parser.py:156-170 | when no delimiter follows, the as-written scan index becomes negative while the corrected end is the end of the input |
| LexerFacts.NoDelimiterCounterexample | fantastico/roa/query_parser.py:156-170 | on `abcdefg` the as-written scan jumps back to index -1 from the fifth character |
| Grammar.TableRow | fantastico/roa/query_parser.py:61-71 | a lookup fails exactly for a symbol with no row set (neither `,`, `)` nor a registered operator), naming it; a row found is keyed by the symbol and the token |
| Grammar.Rhs | fantastico/roa/query_parser.py:48-59 | every rules entry (`_RULES`) is a non-empty sequence of entries |
| Grammar.RowsHaveRules | fantastico/roa/query_parser.py:48-71 | every table row has a rules entry except the `,` row on a free-text token, whose expansion is a `KeyError` |
| Grammar.MatchesTextIsPrefixMatch | fantastico/roa/query_parser.py:208 | `re.match` of `[a-zA-Z\. "0-9]{1,}` succeeds exactly when some non-empty prefix of the token lies in the class, which is the first-character test the driver uses |
| Grammar.ExpansionShrinks | fantastico/roa/query_parser.py:48-59 | every row's right-hand side weighs less than the rule it replaces, so the driver terminates |
| Grammar.OperatorRhsWeight | fantastico/roa/query_parser_operations.py:170-176 | the operator's right-hand side `( text , text )` has weight 13, below the operator rule's 14 |
| Grammar.Step | fantastico/roa/query_parser.py:194-222 | one driver move. Reading past the tokens is an index error. A matching terminal consumes its token. A mismatching terminal halts with the derivation so far. A rule never consumes input and looks up its row for the current token, read as `Text` when the text class matches it: a symbol with no row set fails with that lookup's error; no row discards the rule; a row without a rules entry fails with the missing-rule error; otherwise exactly that row is recorded and its right-hand side pushed in reverse. The text class records the literal it matches and overwrites the token. A step fails only with a driver error |
| Grammar.Reverse | fantastico/roa/query_parser.py:221-222 | `reversed`: same length, with the element at each index taken from the mirrored index |
| Grammar.WeightReverse | fantastico/roa/query_parser.py:221-222 | pushing a right-hand side in reverse does not change its weight |
| Grammar.DriveExtends | fantastico/roa/query_parser.py:190-224 | the derivation and the discovered literals the driver returns extend those it started with |
| Grammar.Drive | fantastico/roa/query_parser.py:194-224 | the `while` loop over the stack fails only with an index error, an unknown grammar symbol or a missing rules entry |
| Grammar.ParseSyntax | fantastico/roa/query_parser.py:241-242 | the LL pass `parse_filter` starts fails only with those driver errors |
| Operations.AddArgument | fantastico/roa/query_parser_operations.py:39-42 | the stripped argument is appended; the token and the earlier arguments are unchanged |
| Operations.BinaryValidate | fantastico/roa/query_parser_operations.py:149-168 | errors, in order: fewer than two arguments, empty first argument, empty second argument, unknown column named by the stripped first argument; success exactly when none applies, with the resolved column and the stripped value |
| Operations.BinaryBuild | fantastico/roa/query_parser_operations.py:142-147 | a value that is not JSON fails, naming the text; a JSON value gives a filter exactly when the operator's token is a supported operation, and the unsupported-operation error otherwise; a filter is on the validated column, carries the decoded value and has the operator's token as its operation |
| Operations.BinaryGetFilter | fantastico/roa/query_parser_operations.py:90-95 | validation runs first: its error is the result. After it succeeds, a stripped value that is not JSON is the JSON error naming it, and a JSON value gives a filter exactly when the token is supported, with the resolved column, the decoded value and the operator's token |
| Operations.SortDirectionOf | fantastico/roa/query_parser_operations.py:120-130 | `asc` sorts ascending and `desc` descending |
| Operations.SortGetFilter | fantastico/roa/query_parser_operations.py:105-118 | succeeds exactly when the stripped argument names a column, giving that column in the given direction; otherwise the error names the stripped argument |
| Segments.LazyTo | fantastico/roa/query_parser_operations.py:227-244 | a lazy `.*?` match followed by the closer ends right after an occurrence of the closer |
| Segments.LazyFound | fantastico/roa/query_parser_operations.py:227-244 | the lazy match stops at the first closer, and no newline comes before it |
| Segments.LazyMissed | fantastico/roa/query_parser_operations.py:227-244 | when the lazy match fails, a newline stands before every closer |
| Segments.LazyToFirst | fantastico/roa/query_parser_operations.py:227-244 | the lazy match ends at the first closer when no newline precedes it |
| Segments.LetterRunEnd | fantastico/roa/query_parser_operations.py:242 | `[a-z]*` from a position ends at the first character that is not a lower-case letter |
| Segments.KeywordMatch | fantastico/roa/query_parser_operations.py:229-234 | a match of `w\(.*?\)\)` starts with `w(` and ends with `))` |
| Segments.CallMatch | fantastico/roa/query_parser_operations.py:242 | a match of `[a-z]{1,}\(.*?\)` starts with a lower-case letter and ends with `)` |
| Segments.MatchShape | fantastico/roa/query_parser_operations.py:229-241 | every matched span has its pattern's shape |
| Segments.MatchAt | fantastico/roa/query_parser_operations.py:229-242 | a pattern matched at a position ends after it and within the text |
| Segments.FindAllShapes | fantastico/roa/query_parser_operations.py:227-244 | `re.findall` yields non-empty spans of the pattern's shape, none longer than the text searched from the start position |
| Segments.FindAll | fantastico/roa/query_parser_operations.py:229-242 | `re.findall` from a position yields at most one span per character left to search, since its matches do not overlap |
| Segments.FindAllSkip | fantastico/roa/query_parser_operations.py:227-244 | positions where the pattern does not match are stepped over |
| Segments.RemoveAll | fantastico/roa/query_parser_operations.py:231-237 | the `replace(span, "", 1)` loop never lengthens the text and with no spans leaves it alone |
| Segments.OrSpans | fantastico/roa/query_parser_operations.py:229 | the or-spans are non-empty and no longer than the argument |
| Segments.AfterOr | fantastico/roa/query_parser_operations.py:231-232 | removing the or-spans never lengthens the argument |
| Segments.AndSpans | fantastico/roa/query_parser_operations.py:234 | the and-spans, searched in what the or-pass leaves, are non-empty and no longer than the argument |
| Segments.AfterAnd | fantastico/roa/query_parser_operations.py:236-237 | removing the and-spans never lengthens the text |
| Segments.CallSpans | fantastico/roa/query_parser_operations.py:242 | the call spans, searched in what both keyword passes leave, are non-empty and no longer than the argument |
| Segments.NoOrSpans | fantastico/roa/query_parser_operations.py:229-232 | without `or(` in the argument the or-pass finds nothing and removes nothing |
| Segments.NoKeywordSpans | fantastico/roa/query_parser_operations.py:229-237 | without `or(` or `and(` in the argument both passes find nothing and the argument is unchanged |
| Segments.KeywordAbsent | fantastico/roa/query_parser_operations.py:229-234 | with no `w(` in the text, the keyword pass finds nothing |
| Segments.Segment | fantastico/roa/query_parser_operations.py:227-244 | the collected sub-expressions (or-spans, then and-spans, then calls) are non-empty and no longer than the argument |
| Segments.MatchSimpleCall | fantastico/roa/query_parser_operations.py:242 | a call `name(...)` with no `)` or newline inside is matched exactly |
| Segments.LetterRunEndShift | fantastico/roa/query_parser_operations.py:242 | `[a-z]*` run on a piece of the text ends where it ends on the piece alone, when that end lies inside the piece |
| Segments.ParenScan | fantastico/roa/query_parser_operations.py:242 | the lazy `.*?\)` stops right after the first `)` when no newline precedes it |
| Segments.CallMatchAt | fantastico/roa/query_parser_operations.py:242 | a letter run ending at `(`, with a `)` after it and no `)` or newline in between, is matched up to that `)` |
| Segments.CallPassTakes | fantastico/roa/query_parser_operations.py:242 | the call pass takes a simple call where it stands and goes on after it |
| Segments.CallPassSkipsComma | fantastico/roa/query_parser_operations.py:242 | the call pass steps over a comma |
| Segments.CallThenComma | fantastico/roa/query_parser_operations.py:242 | a simple call followed by a comma is taken, and the pass goes on after the comma |
| Segments.JoinedLast | fantastico/roa/query_parser_operations.py:242 | a text that is one simple call yields exactly that call |
| Segments.JoinedStep | fantastico/roa/query_parser_operations.py:242 | a list of simple calls joined by commas yields its first call, then what the pass yields after the first comma |
| Segments.CallsOfJoined | fantastico/roa/query_parser_operations.py:242 | the call pass over comma-separated simple calls yields them one by one, in textual order |
| Segments.SegmentOfCalls | fantastico/roa/query_parser_operations.py:227-244 | an argument of comma-separated simple calls with no `or(` or `and(` segments into exactly those calls, in order |
| Segments.CollectionOrder | fantastico/roa/query_parser_operations.py:239-244 | on `b(),or(c())` the or-span written second is collected first: collection order is not textual order |
| Segments.MixedOrMatch | fantastico/roa/query_parser_operations.py:229 | on `b(),or(c())` the or-pattern matches the span `or(c())` |
| Segments.MixedOrPass | fantastico/roa/query_parser_operations.py:229 | the or-pass on `b(),or(c())` finds only `or(c())` |
| Segments.MixedRemoveOr | fantastico/roa/query_parser_operations.py:232 | removing `or(c())` from `b(),or(c())` leaves `b(),` |
| Segments.MixedAfterOr | fantastico/roa/query_parser_operations.py:231-232 | after the or-pass `b(),` is left |
| Segments.MixedAndPass | fantastico/roa/query_parser_operations.py:234-237 | the and-pass finds nothing in `b(),` and leaves it alone |
| Segments.CallPassSingle | fantastico/roa/query_parser_operations.py:242 | a simple call followed by one comma yields only that call |
| Segments.MixedCallPass | fantastico/roa/query_parser_operations.py:242 | the call pass over the argument `b(),or(c())` finds only `b()` |
| QueryParser.RunAction | fantastico/roa/query_parser.py:88-110 | each action and its value. `nop` returns nothing. A `None` action is not callable. A new operator of the row's token is pushed. `_add_argument` gives the oldest literal, stripped, to the top operator, or fails on an empty stack or queue. `_exec_operator` pops the top operator and returns its filter or its error. Only `_exec_operator` returns a value |
| QueryParser.RunActions | fantastico/roa/query_parser.py:244-249 | with no rows the kept value is the initial one; any new value kept is a binary filter |
| QueryParser.LastActionDecides | fantastico/roa/query_parser.py:246-249 | the value kept is the last action's: a derivation that does not end by executing an operator yields nothing |
| QueryParser.ArgumentText | fantastico/roa/query_parser_operations.py:214-217 | the argument of a call is the text between its first `(` and its last `)`, present exactly when such a pair exists in that order |
| QueryParser.FindLast | fantastico/roa/query_parser_operations.py:214-217 | `str.rfind` of one character: the index found holds it and no later index does; no index means it does not occur |
| QueryParser.ParseFilter | fantastico/roa/query_parser.py:226-249 | blank input yields nothing, and any compound it yields has at least two children |
| QueryParser.CompoundGetFilter | fantastico/roa/query_parser_operations.py:224-249 | fewer than two collected sub-expressions is the "at least two arguments" error; a compound has the keyword's kind and one child per collected sub-expression |
| QueryParser.CollectNodes | fantastico/roa/query_parser_operations.py:249 | the children are exactly the operands' nodes, in order, when every operand parses to a node; otherwise the first operand that fails, or yields nothing, gives the error |
| QueryParser.ParseOperands | fantastico/roa/query_parser_operations.py:249 | a successful parse of the operands gives one child per operand |
| QueryParser.Collect | fantastico/roa/query_parser.py:261-266 | the results succeed exactly when each does, in order and one per input; otherwise the first failure is the error |
| QueryParser.ParseEach | fantastico/roa/query_parser.py:263-264 | one `parse_filter` result per expression, in input order |
| QueryParser.ParseSort | fantastico/roa/query_parser.py:251-266 | one result per expression in input order, each that expression's `parse_filter`; the first failing expression's error aborts the whole |
| ParserFacts.DriveMatch | fantastico/roa/query_parser.py:198-200 | a terminal equal to the current token is consumed and the run carries on |
| ParserFacts.DriveText | fantastico/roa/query_parser.py:208-222 | the text rule records the literal, overwrites the token and pushes the text terminal |
| ParserFacts.DriveSymbol | fantastico/roa/query_parser.py:214-222 | the rules for `,` and `)` expand to their own terminal with the `nop` and `_exec_operator` rows |
| ParserFacts.DriveOperator | fantastico/roa/query_parser.py:214-222 | an operator rule on `(` records the new-operator row and pushes its right-hand side reversed |
| ParserFacts.DriveDiscard | fantastico/roa/query_parser.py:214-217 | any rule whose row set has no row for the current token (read as `Text` when the text class matches it) is dropped without consuming input, and the run carries on from the stack below it |
| ParserFacts.TakeText | fantastico/roa/query_parser.py:208-222 | a text rule on a literal of the text class records the literal and the `_add_argument` row, overwrites the token and consumes it |
| ParserFacts.TakeSymbol | fantastico/roa/query_parser.py:198-222 | the rule for `,` or `)` on its own token records its row (`nop` or `_exec_operator`) and consumes the token |
| ParserFacts.TakeOperator | fantastico/roa/query_parser.py:214-222 | an operator rule on `(` records the new-operator row, consumes `(` and leaves `text , text )` on the stack |
| ParserFacts.Skip | fantastico/roa/query_parser.py:208-217 | a text rule on a token outside the text class, or the `)` rule on another token, is dropped without consuming input |
| ParserFacts.BinaryDriverOpen | fantastico/roa/query_parser.py:194-222 | the first moves over `op(col,...` open the operator and take the column |
| ParserFacts.BinaryStart | fantastico/roa/query_parser.py:239-242 | the LL pass starts with the first token as a rule on the stack over the remaining six tokens |
| ParserFacts.BinaryDriverValue | fantastico/roa/query_parser.py:194-222 | the next moves take the comma and the value |
| ParserFacts.BinaryDriverEnd | fantastico/roa/query_parser.py:194-224 | the last moves match `)` and `$` and return the five-row derivation |
| ParserFacts.BinaryDerivation | fantastico/roa/query_parser.py:180-224 | the LL pass over the tokens of `op(col,val)` derives the five rows and discovers the column, then the value |
| ParserFacts.BinaryDrive | fantastico/roa/query_parser.py:194-224 | the driver over the six tokens after `op` derives the five rows and discovers the column, then the value |
| ParserFacts.StripWord | fantastico/roa/query_parser_operations.py:42 | a plain word is its own strip |
| ParserFacts.ActionThen | fantastico/roa/query_parser.py:246-247 | an action that returns nothing hands its state to the rest of the derivation |
| ParserFacts.FeedArgument | fantastico/roa/query_parser.py:102-105 | `_add_argument` on a single operator appends the oldest literal, stripped twice as the source does |
| ParserFacts.FeedOpen | fantastico/roa/query_parser.py:102-110 | opening the operator and adding an argument leaves it holding the column |
| ParserFacts.FeedValue | fantastico/roa/query_parser.py:88-105 | the comma's `nop` and the next argument leave the operator holding the column and the value |
| ParserFacts.FeedBinary | fantastico/roa/query_parser.py:88-110 | the first four actions build the operator with its two arguments |
| ParserFacts.CloseBinary | fantastico/roa/query_parser.py:93-100 | the closing action pops the operator and returns its filter or its error |
| ParserFacts.BinaryActions | fantastico/roa/query_parser.py:244-249 | the actions of the five-row derivation return the operator's filter or its error |
| ParserFacts.RouteToSyntax | fantastico/roa/query_parser.py:235-249 | a non-blank expression led by any other token goes through the LL pass and then the actions of its derivation |
| ParserFacts.BinaryFilterOf | fantastico/roa/query_parser_operations.py:142-168 | the filter of an operator holding two stripped, non-empty arguments: the unknown-column error, the JSON error, or the filter on the column with the decoded value |
| ParserFacts.BinaryParsesToActions | fantastico/roa/query_parser.py:226-249 | `parse_filter` on `op(col,val)` runs the five-row derivation's actions on the two discovered words |
| ParserFacts.ParseBinary | fantastico/roa/query_parser.py:226-249 | `parse_filter` on `op(col,val)` with plain words in the text class: the filter on the named column with the JSON value and the operator's operation; otherwise the missing-column error, or the JSON error naming the value |
| ParserFacts.OutsideTextDriver | fantastico/roa/query_parser.py:198-217 | after the comma, a value outside the text class is skipped by both remaining rules, and the driver stops with three rows |
| ParserFacts.OutsideTextDerivation | fantastico/roa/query_parser.py:180-224 | the LL pass over `op(col,val)` with the value outside the text class derives three rows and discovers only the column |
| ParserFacts.OutsideTextDrive | fantastico/roa/query_parser.py:194-224 | the driver over the tokens after `op` with the value outside the text class derives the first three rows and discovers only the column |
| ParserFacts.OutsideTextActions | fantastico/roa/query_parser.py:244-249 | the actions of those three rows return nothing |
| ParserFacts.ParseBinaryOutsideText | fantastico/roa/query_parser.py:226-249 | `parse_filter` on `op(col,val)` whose value does not start in the text class, a negative number say, returns no filter and no error |
| CallFacts.KeywordIsWord | fantastico/roa/query_parser_operations.py:251-261 | the compound and sort keywords are plain words of at most four characters with no `(` |
| CallFacts.LexHead | fantastico/roa/query_parser.py:239-241 | the first token of `kw(...)` is the keyword itself |
| CallFacts.ArgumentOfCall | fantastico/roa/query_parser_operations.py:214-217 | the raw argument of `kw(arg)` is `arg`, whatever it holds |
| CallFacts.RouteToCall | fantastico/roa/query_parser.py:235-241 | `kw(arg)` is not blank, leads with its keyword and hands over `arg` |
| CallFacts.ParseSortCall | fantastico/roa/query_parser_operations.py:105-130 | `parse_filter` on `asc(arg)` or `desc(arg)`: the sort on the column named by the stripped argument, in the keyword's direction, or the error naming it |
| CallFacts.ParseCompoundCall | fantastico/roa/query_parser_operations.py:218-261 | `parse_filter` on `and(arg)` or `or(arg)` is the compound, of the keyword's kind, built from the segments of `arg` |
| CallFacts.OperandsAreEach | fantastico/roa/query_parser_operations.py:249 | the operands of a compound are parsed exactly as `parse_filter` parses each of them alone |
| CallFacts.CompoundChildren | fantastico/roa/query_parser_operations.py:219-249 | with at least two collected sub-expressions, the compound is built from the `parse_filter` result of each, in collection order: the keyword's compound of their nodes, or the error of the first that fails or yields nothing |
| CallFacts.CompoundOfCalls | fantastico/roa/query_parser_operations.py:218-261 | `parse_filter` on `and(e1,...,en)` or `or(e1,...,en)` of simple calls: one call is the two-operands error; otherwise the compound of the keyword's kind whose children are the parses of the calls in order, the first failing or empty operand deciding the error |

## Left out

- `json.loads` is reduced to `null`, `true`, `false`, integers and strings without escapes. Floats, escapes, lists, objects and surrounding whitespace are rejected. Python's decoder is far larger, and a binary value can only be a scalar written in the text class.
- The regular expressions are not modelled as an engine. The text class is a first-character test, which is what `re.match` decides here. The `findall` searches are explicit left-to-right scans, with `.` not matching a newline.
- `print` on a bad input token is left out; the driver halts there as the source does.
- The parser's stack, operator stack and discovered-token list persist across calls in the source, and `_SYMBOLS` is a class-level dictionary. The model gives every parse a fresh stack. Registration is fixed as constant tables holding the six binary operators.
- The compound and sort operators are never registered in the source table, and their constructors do not match their base class. The model routes `and`, `or`, `asc` and `desc` by the first lexed token, with the text between the first `(` and the last `)` as the argument.
- A compound operand that parses to nothing becomes the error `CompoundOperandEmpty`. The source passes `None` on to `ModelFilterAnd`/`ModelFilterOr`, whose code is not part of this model. This also changes which error wins: the source's list comprehension raises the first operand that raises even after an operand that gave `None`, while `QueryParser.CollectNodes` stops at the earlier empty operand with `CompoundOperandEmpty`.
- The compound filter classes and `ModelSort` are reduced to their constructor arguments, because their code is not part of this model.
- The query-builder expression is symbolic, and SQLAlchemy column semantics are not modelled. `Build` appends the expression to a list of criteria.
- `Lexer.LiteralEnd` ends a literal that has no delimiter after it at the end of the input, where the source jumps back (see Findings).
- QueryParser.ParseFilter: its own contract states only blank input and compound arity. The full result is stated by lemmas for `op(col,val)` with plain words (`ParserFacts.ParseBinary`, `ParserFacts.ParseBinaryOutsideText`), for compounds of simple calls (`CallFacts.CompoundOfCalls`) and for sorts (`CallFacts.ParseSortCall`), not for arbitrary input.
- QueryParser.RunActions: its contract says only that a kept value is a binary filter. The value of a whole derivation is stated by `QueryParser.LastActionDecides` and the `ParserFacts` lemmas.
- The lexer lemmas about whole words (`LexerFacts.LexWord`, `LexerFacts.LexBinary`) assume words without whitespace or structural symbols and without a leading operator token. Inputs with spaces inside quotes are covered only by `Lexer.Step`.

## Findings

| source | as written | input that shows it | evidently intended | confidence | as-written member | corrected member |
|---|---|---|---|---|---|---|
| fantastico/roa/query_parser.py:156-170 | a literal longer than four characters with no `,` and no `)` after it gets `find` = -1, and the scan index becomes -1 or -3, before the literal | `abcdefg`: at the fifth character the scan jumps back to index -1 and rereads the input; `while idx < len(filter_expr)` never finishes | the literal runs to the end of the input and the scan ends | not executed | LexerFacts.NoDelimiterCounterexample | Lexer.LiteralEnd |
