# Verified models of a DuckDB fork's parser, list functions, time arithmetic, node stream and build scripts

The project models eight parts of the repository as Dafny programs in the form of the original code, and proves what
they are for. Verify it with `dafny verify dfyconfig.toml`.

| part | files | what is proved |
|---|---|---|
| PEG engine | `PegSyntax`, `PegGraph`, `PegSimulation`, `PegCompiler`, `PegMatcher`, `PegMeaning`, `PegResults`, `PegLaws`, `PegProgress`, `PegSharing`, `PegParser`, `PegSample` | Token lists are compiled through an explicit stack and a rule cache into a cyclic graph of matchers, which is then run as a backtracking parser. For every grammar whose rules are in order, a statement is accepted exactly when the grammar derives all of its tokens, with the one result its trees give. |
| List lambdas | `ListLambda` | Batching does not show: every row of `list_filter` and `list_transform` reads back its own filtered or mapped list. |
| SQL tokenizer | `Characters`, `Tokens`, `Tokenizer`, `TokenizerLaws`, `LexicalGrammar`, `Quoting`, `NumberLiterals` | The character machine refines a lexer of whole lexemes; which texts these are, character by character; tokens and blanks cover the text; re-lexing is stable; quoted texts survive; which number tokens their matcher takes. |
| Unicode spaces | `UnicodeSpaces`, `UnicodeSpaceLaws` | The goto automaton terminates, replaces exactly the Unicode spaces outside quotes and comments, and finds nothing the second time. |
| Node stream | `Chunks`, `JsonStream`, `BinaryStream`, `NodeSession` | JSON and binary responses do not depend on chunking; a JSON reader and the worker get the rows back, over any number of messages; when a category keeps its colour. |
| Timestamps | `Timestamps` | Adding is exact or an error, and months act at one instant, before the days; subtracting is exact except in one exactly described family. |
| Header tables | `HeaderTables`, `HeaderOverloads` | Printing and parsing undo each other exactly for the maps that can be printed. |
| Build scripts | `Amalgamation`, `TextReplacement`, `IncludeReplacement`, `IncludeTexts`, `IncludeSlips`, `IncludeOnce`, `IncludeSample`, `ConfigCleanup` | Replacing the texts of include statements writes every file once, exactly under a condition on where these texts stand; partitioning; inheritance clean-up conserves what is skipped. |

How the PEG proof is put together: the compiler's stack of matchers is shown to simulate a machine on expression trees
(`PegSimulation`), so the finished graph stands for the trees (`PegCompiler`); a graph and the trees it stands for have
the very same PEG derivations (`PegMeaning`) and parse results (`PegResults`); the running engine finds the one
derivable outcome with its one result (`PegMatcher`); the notation means what PEG says, operator by operator
(`PegLaws`); and a grammar makes progress exactly when it has no left recursion and repeats nothing that can be empty
(`PegProgress`).

A call of a function rule whose argument is a choice needs care, because the compiler shares that choice: its one
matcher stands at every use of the parameter, and `/` directly after the parameter adds an alternative to it. The trees
therefore come in two styles. In the sharing style the argument is a shared choice, whose alternatives are those of the
argument followed by all that the function's body adds; this is what the code does, for every grammar. In the copying
style each use of the parameter has its own copy of the argument; this is what the notation says. `PegSharing` proves
that the two mean the same where no function adds to the choice it is passed, or only in its one use of the parameter.
No condition that can be checked beforehand is exact for all grammars, as it would decide whether two grammars mean
the same; what is exact is when a call leaves its choice as it was (`PegSharing.LeftAlone`).

How the amalgamation proof is put together: `Amalgamation` splices files, which writes every file once and in order;
`IncludeReplacement` is the script, which replaces the text of each statement wherever it stands, as `str.replace` does
(`TextReplacement`). Every character is marked with the file and offset it was read from, so that copies and losses can
be told. As long as only statements in their places are replaced, the text so far runs on line by line as the files it
comes from (`IncludeTexts`), so whether a statement stands elsewhere in it can be told from the files. If it does, a
line end is doubled, an own character is lost, or blanks of a statement are left over, and no later replacement makes up
for that (`IncludeSlips`). Hence the if-and-only-if of `IncludeOnce`. It is stated for files made of lines: a file that
is not empty ends its last line, and no name in an include statement holds a line end. For all other files
`IncludeReplacement.AloneAllSpliced` gives one direction, with the condition on the texts as they are spliced; the other
one fails there, as a copy of a text without line end can be removed again (`IncludeSample.SlipMadeUpFor`).

## Where the code does not do what it says

- `text.replace` (amalgamation.py:227) replaces an include statement's text wherever it stands: also in a comment, in
  text already put in, and in another statement that is the same but for the blanks before it. Then a file is written
  twice, own text is lost, or blanks are left over. `IncludeOnce.EveryReachableFileOnceExactly` says exactly when not;
  `IncludeSample.IndentedIncludeWritesTwice` and `IncludeSample.CommentIsReplaced` give families of inputs.
- A choice passed to a function is shared, and `/` directly after the parameter extends it in place
  (matcher.cpp:1284-1285), for all other uses of the parameter too. `PegSharing.LeftAlone` says exactly when that does
  not happen, `PegSharing.SharingIsCopying` when it does no harm, and `PegSample.SharedChoiceIsExtended` gives a grammar
  and tokens which the notation refuses and the compiled grammar accepts. The function rules of the repository's own
  grammar have no such `/`.
- A number with two exponents, 1e5e5, is one token, and the number matcher throws an exception at it instead of refusing
  it (matcher.cpp:744-747, `NumberLiterals.TwoExponents`).
- A no-break space, U+00A0, that ends the query is not stripped, as the loop stops two bytes before the end
  (autocomplete_extension.cpp:501, `UnicodeSpaceLaws.LastSpaceStays`).
- A category of the node view keeps its number, and so its colour, only within one response: a request for a part of the
  rows numbers its categories anew (`NodeSession.BoundedRequestChangesColours`).
- Overloads come back sorted, whatever the order in which they are kept (generate_extensions_function.py:682,
  `HeaderOverloads.UnsortedOverloads`).
- Subtracting from the earliest whole millisecond of 64 bits overflows (`Timestamps.BorrowOverflowsOnce`).
- Before 1970 milliseconds are truncated toward zero, so that a difference can count one day too many, with negative
  microseconds making up for it (`Timestamps.RestBelowDay`, `Timestamps.MixedSigns`).
- A comment in icu-dateadd.cpp:160-161 says that borrowing one millisecond always works. It does not when the end lies in
  the first millisecond after 1970: division truncates toward zero and gives 1 ms too much
  (`Timestamps.SubtractTimestamps`, `Timestamps.SubtractionOffByOneMillisecond`).
- A comment in generate_extensions_function.py:107 says that quotes are always included in an item. The code drops them;
  the model follows the code.
- A numeric column can hold nan or inf, whose texts are not JSON numbers: the JSON stream is valid exactly when there is
  none (`JsonStream.StreamRoundTrip`).
- A table name written as a doubled-quote identifier loses a second pair of quotes when it is itself single-quoted
  (matcher.cpp:461-464, `Quoting.QuotedIdentifierRoundTrip`).
- With no bytes at all in the source files every file becomes its own partition (`Amalgamation.Partition`).
- A configuration that inherits from itself loses its own skip paths (`ConfigCleanup.CleaningKeepsEffective`).

## Model

| member | source | states |
|---|---|---|
| PegSyntax.ParsePrint | duckdb/extension/autocomplete/matcher.cpp:1207-1325 | Reading the printed tokens of a rule body gives back exactly its expression trees, for every body the notation can express; suffixes apply to the last element and `/` joins single neighbours. |
| PegSyntax.RunPrint | duckdb/extension/autocomplete/matcher.cpp:1207-1325 | From any stack of open brackets, running the tokens of one tree adds exactly that tree to the innermost bracket, completing a pending choice when there is one. |
| PegSyntax.ParsedPrintable | duckdb/extension/autocomplete/matcher.cpp:1207-1325 | The trees that can be printed are the only ones the tree machine reads, so that reading, printing and reading again gives the same trees. |
| PegGraph.BodyResolved | duckdb/extension/autocomplete/matcher.cpp:1214-1225 | The trees of a rule refer only to names that resolve, and function calls go to functions of smaller rank. |
| PegGraph.RepKept | duckdb/extension/autocomplete/matcher.cpp:914-918 | Allocating matchers and filling open lists never changes what a finished matcher stands for. |
| PegSimulation.AddSim | duckdb/extension/autocomplete/matcher.cpp:1104-1123 | Pushing a matcher keeps the matcher stack in step with the machine on trees, whether it goes to a list or completes a choice that is then popped. |
| PegSimulation.SuffixSim | duckdb/extension/autocomplete/matcher.cpp:1235-1271 | Wrapping the last child keeps the simulation: `*` is an optional repeat of it, `?` an optional, `+` a repeat. |
| PegSimulation.SlashSim | duckdb/extension/autocomplete/matcher.cpp:1272-1297 | `/` keeps the simulation: it reopens the bracket's own choice or the shared choice of the bare parameter, and makes a new choice of anything else. |
| PegSimulation.PushSim | duckdb/extension/autocomplete/matcher.cpp:1298-1303 | Opening a bracket keeps the simulation with a fresh, empty, open list. |
| PegSimulation.PopSim | duckdb/extension/autocomplete/matcher.cpp:1137-1166 | Closing a bracket leaves the brackets below in step; a choice of the closed one may be held open for a call. |
| PegSimulation.PoppedItems | duckdb/extension/autocomplete/matcher.cpp:1137-1166 | The list of the closed bracket stands for its trees. |
| PegSimulation.ExtFramesAdd | duckdb/extension/autocomplete/matcher.cpp:1113-1118 | Adding an element adds to the shared choice what the element adds, and the element itself if it is one of its alternatives. |
| PegSimulation.RootRep | duckdb/extension/autocomplete/matcher.cpp:1326-1330 | When one root is left on the stack, its list stands for the whole body. |
| PegSimulation.CacheKept | duckdb/extension/autocomplete/matcher.cpp:1189-1194 | Every rule has one shared matcher, which stands for the rule as soon as its body is complete, and keeps doing so. |
| PegSimulation.CacheShared | duckdb/extension/autocomplete/matcher.cpp:1154-1162 | A choice becomes shared when it is passed to a function, and stays open until the call is compiled. |
| PegSimulation.CacheUnshared | duckdb/extension/autocomplete/matcher.cpp:1161-1162 | Then it has all its alternatives, and nothing changes it any more. |
| PegCompiler.BodyCompiled | duckdb/extension/autocomplete/matcher.cpp:1196-1330 | After the last token the rule's matcher stands for its body, with the parameter replaced by the argument, and the rule leaves the ones in progress. |
| PegCompiler.CallStands | duckdb/extension/autocomplete/matcher.cpp:1154-1165 | The matcher compiled for a function call stands for the call inlined with its argument. |
| PegCompiler.CallEnds | duckdb/extension/autocomplete/matcher.cpp:1150-1165 | After a call its matcher stands for it, the shared choice has its alternatives and all that the body adds, and the brackets below are as they were. |
| PegCompiler.MatcherList.AddMatcher | duckdb/extension/autocomplete/matcher.cpp:1104-1123 | The top matcher gets the new child; a choice is popped afterwards; what is reported as an exception is a failure. |
| PegCompiler.MatcherList.BeginFunction | duckdb/extension/autocomplete/matcher.cpp:1133-1136 | A new bracket whose elements are the arguments of the named function. |
| PegCompiler.MatcherList.Suffix | duckdb/extension/autocomplete/matcher.cpp:1235-1271 | The tree machine's suffix step on the graph; failing exactly when there is nothing to wrap or a choice is pending. |
| PegCompiler.MatcherList.BeginChoice | duckdb/extension/autocomplete/matcher.cpp:1272-1297 | The tree machine's `/` step on the graph; failing exactly when there is nothing before it or a choice is pending. |
| PegCompiler.MatcherList.CloseBracket | duckdb/extension/autocomplete/matcher.cpp:1137-1166 | The tree machine's `)` step: a group is added to the bracket below, a function call is compiled and added. |
| PegCompiler.MatcherList.MakeCall | duckdb/extension/autocomplete/matcher.cpp:1150-1165 | The call's matcher stands for the function's body with the wrapped arguments in place of its parameter. |
| PegCompiler.MatcherList.WrapArguments | duckdb/extension/autocomplete/matcher.cpp:1155-1159 | One argument stands for itself, several for their sequence. |
| PegCompiler.MatcherFactory.Keyword | duckdb/extension/autocomplete/matcher.cpp:977-983 | The matcher of a literal takes the same texts as the literal, whether it is an override or new. |
| PegCompiler.MatcherFactory.CreateMatcher | duckdb/extension/autocomplete/matcher.cpp:1174-1331 | For rules in order compiling succeeds and terminates although rules are recursive: each rule gets one shared matcher cached before its body is read, each call the expanded body; of the earlier matchers only the shared choice that was passed changes, by what the body adds. Names are looked up without regard to case, the cache by exact text. |
| PegCompiler.MatcherFactory.ReadBody | duckdb/extension/autocomplete/matcher.cpp:1196-1328 | All tokens of a body, ending with exactly the root on the stack or an exception. |
| PegCompiler.MatcherFactory.ApplyToken | duckdb/extension/autocomplete/matcher.cpp:1207-1325 | One token moves the matcher stack as it moves the tree machine. |
| PegCompiler.MatcherFactory.ApplyReference | duckdb/extension/autocomplete/matcher.cpp:1214-1225 | A reference adds the parameter's matcher or the one shared matcher of the rule. |
| PegCompiler.MatcherFactory.ApplyOperator | duckdb/extension/autocomplete/matcher.cpp:1231-1318 | One operator moves the stack as it moves the tree machine; `!` changes nothing. |
| PegCompiler.MatcherFactory.AddKeywordOverride | duckdb/extension/autocomplete/matcher.cpp:1333-1336 | The first override of a keyword counts, without regard to case. |
| PegCompiler.MatcherFactory.AddRuleOverride | duckdb/extension/autocomplete/matcher.cpp:1338-1340 | The rule name is bound to the terminal matcher, unless it is bound already. |
| PegCompiler.MatcherFactory.CompileGrammar | duckdb/extension/autocomplete/matcher.cpp:1342-1380 | Compiling from the root rule succeeds when the rules it reaches are in order, and every cached matcher stands for its rule; a root that cannot be referred to is an exception. |
| PegMatcher.ProvesUnique | duckdb/extension/autocomplete/matcher.cpp:151-387 | The PEG relation is deterministic: one derivation and one outcome per goal and position. |
| PegMatcher.ProvesBounds | duckdb/extension/autocomplete/matcher.cpp:151-387 | A match ends inside the token list, not before its start, and consumes unless the goal is nullable. |
| PegMatcher.Total | duckdb/extension/autocomplete/matcher.cpp:349-387 | With no left recursion and no empty repetition every goal has an outcome: matching terminates on every token list. |
| PegMatcher.TotalWhole | duckdb/extension/autocomplete/matcher.cpp:349-387 | The same for every matcher of the graph at every position. |
| PegMatcher.Engine.MatchParseResult | duckdb/extension/autocomplete/matcher.cpp:63-387 | Sound and complete for the PEG relation: it succeeds with end j exactly when the relation derives j, leaves the token index alone on failure, and gives the one result of that match, whose leaves are the consumed tokens; there is an exception exactly when a terminal that is reached throws one. |
| PegMatcher.Engine.MatchList | duckdb/extension/autocomplete/matcher.cpp:151-169 | The same contract for sequences, on a copied state that is given back only on success; the result has one child per matcher, each at the token after the last one. |
| PegMatcher.Engine.MatchOptional | duckdb/extension/autocomplete/matcher.cpp:218-232 | The same contract for options: always succeeds, with the child's result if it matches, and with none if it fails. |
| PegMatcher.Engine.MatchChoice | duckdb/extension/autocomplete/matcher.cpp:270-286 | The same contract for ordered choice: the result of the first alternative that matches with its index, and all before it fail; none if all fail. |
| PegMatcher.Engine.MatchRepeat | duckdb/extension/autocomplete/matcher.cpp:349-387 | The same contract for greedy repetition, with the early exit at the end of the tokens; the result has one child per repetition, at least one, and the element fails after the last; it terminates. |
| PegMatcher.Engine.MatchTerminal | duckdb/extension/autocomplete/matcher.cpp:63-82 | A terminal takes exactly one token, which is its result, or nothing, or throws an exception. |
| Characters.EqualButForCase | duckdb/extension/autocomplete/matcher.cpp:93-107 | A keyword matches the texts that differ from it only in the case of letters. |
| PegResults.MirrorsMatch | duckdb/extension/autocomplete/matcher.cpp:63-387 | A parse result belongs to a match that covers as many tokens as it has leaves. |
| PegResults.MirrorsUnique | duckdb/extension/autocomplete/matcher.cpp:63-387 | A matcher has at most one result at a token: list, choice, option and repeat determine it down to the tokens. |
| PegResults.SameResults | duckdb/extension/autocomplete/matcher.cpp:1174-1331 | A compiled graph gives exactly the results that its expression trees say: one child per item, the index of the alternative, one child per repetition. |
| PegResults.SameThrows | duckdb/extension/autocomplete/matcher.cpp:744-747 | A compiled graph raises exactly the exceptions of its expression trees: at a terminal behind parts that match or alternatives that fail. |
| PegMeaning.SameDerivations | duckdb/extension/autocomplete/matcher.cpp:1174-1331 | A compiled graph and the expression trees it stands for have the very same PEG derivations, for all tokens, positions and outcomes. |
| PegMeaning.TProvesUnique | duckdb/extension/autocomplete/matcher.cpp:151-387 | The relation on trees is deterministic as well, in both styles. |
| PegLaws.SuffixRead | duckdb/extension/autocomplete/matcher.cpp:1255-1279 | `?` reads as an option, `+` as a repetition, `*` as an optional repetition of what stands before. |
| PegLaws.SlashRead | duckdb/extension/autocomplete/matcher.cpp:1280-1303 | A slash joins its two neighbours to a choice; items without one are a sequence. |
| PegLaws.BracketRead | duckdb/extension/autocomplete/matcher.cpp:1304-1316 | Brackets make one item, behind a name the call of a function. |
| PegLaws.SequenceMeans | duckdb/extension/autocomplete/matcher.cpp:151-169 | A sequence fails where its first item fails, and otherwise goes on behind it. |
| PegLaws.ChoiceMeans | duckdb/extension/autocomplete/matcher.cpp:270-286 | A choice is its first alternative where that matches, and the rest where it fails. |
| PegLaws.OptionMeans | duckdb/extension/autocomplete/matcher.cpp:218-232 | An option is its element where that matches, and takes nothing where it fails. |
| PegLaws.RepetitionMeans | duckdb/extension/autocomplete/matcher.cpp:349-387 | A repetition needs one match of its element, and goes on behind it exactly as long as the element does not fail. |
| PegMeaning.SameDepth | duckdb/extension/autocomplete/matcher.cpp:349-387 | However a matcher is read as a tree, its depth and nullability are the same. |
| PegMeaning.GraphProgress | duckdb/extension/autocomplete/matcher.cpp:1189-1194 | A grammar without left recursion and empty repetition compiles to a graph on which matching terminates. |
| PegProgress.ProgressExactly | duckdb/extension/autocomplete/matcher.cpp:349-387 | Names make progress if and only if no walk from name to name that consumes nothing comes back to its start, and nothing that can be empty is repeated. |
| PegProgress.SitesCover | duckdb/extension/autocomplete/matcher.cpp:1150-1165 | The shared choices that a tree creates, and those created in compiling its calls, are finitely many and name nothing else. |
| PegProgress.ReachedClosed | duckdb/extension/autocomplete/matcher.cpp:1174-1331 | Unrolling the rules and shared choices of a grammar leads to no other names. |
| PegSharing.ExtExactly | duckdb/extension/autocomplete/matcher.cpp:1272-1297 | A tree adds nothing to the shared choice if and only if no `/` stands directly after the parameter in it, or in a function to which it passes the parameter. |
| PegSharing.LeftAlone | duckdb/extension/autocomplete/matcher.cpp:1284-1285 | A call leaves the choice it is passed as it is if and only if its function has no such `/`. |
| PegSharing.ExpandAlike | duckdb/extension/autocomplete/matcher.cpp:1137-1166 | Where no shared choice is extended, both styles expand to like trees. |
| PegSharing.OnceAlike | duckdb/extension/autocomplete/matcher.cpp:1284-1295 | A function that uses its parameter only once, in front of a `/`, reads the extended choice exactly as the notation reads the extended argument. |
| PegSharing.SharingIsCopying | duckdb/extension/autocomplete/matcher.cpp:1137-1166 | Under these two conditions what the code does means the same as the notation, for all tokens, positions and outcomes. |
| PegParser.PrintedRules | duckdb/extension/autocomplete/matcher.cpp:1196-1325 | Rules printed from well-formed trees are accepted by the compiler, with exactly these trees as bodies. |
| PegParser.Accepts | duckdb/extension/autocomplete/matcher.cpp:1174-1331 | The outcome of the root matcher is the one outcome of the root rule. |
| PegParser.ParseStatement | duckdb/extension/autocomplete/transformer/peg_transformer_factory.cpp:29-60 | From rule tokens to answer: a statement is accepted exactly when the grammar, its choices shared, derives all of its tokens, and exactly when the notation does where sharing does no harm; then the leaves of the parse result are the tokens; the answer is exactly the one result that the tree of the root rule gives for all tokens; it throws exactly when a terminal that is reached does. |
| PegParser.Results | duckdb/extension/autocomplete/transformer/peg_transformer_factory.cpp:29-60 | The result of the root matcher is the one result of the root rule's tree, and there is none when it fails. |
| PegSample.SharedChoiceIsExtended | duckdb/extension/autocomplete/matcher.cpp:1284-1285 | A grammar, given by its rule tokens, and two tokens which it derives in the sharing style and refuses in the copying style. |
| PegSample.AcceptWhatTheNotationRefuses | duckdb/extension/autocomplete/matcher.cpp:1284-1285 | Compiling these rule tokens and running the graph accepts the two tokens. |
| ListLambda.FilterInfo.SkipEmpty | duckdb/extension/core_functions/lambda_functions.cpp:118-123 | Empty and NULL rows get an empty list at the current offset, and the cursor stops at a row with elements. |
| ListLambda.FilterInfo.Consume | duckdb/extension/core_functions/lambda_functions.cpp:125-144 | One predicate result: a finished row gets offset and length of exactly its kept elements, all earlier rows keep theirs. |
| ListLambda.FilterInfo.PushLength | duckdb/extension/core_functions/lambda_functions.cpp:94-102 | Announcing a row leaves the cursor and all finished entries valid. |
| ListLambda.FilterInfo.AtEnd | duckdb/extension/core_functions/lambda_functions.cpp:147-152 | With nothing outstanding the cursor ends at the row count. |
| ListLambda.FilterInfo.NotAtEnd | duckdb/extension/core_functions/lambda_functions.cpp:133-134 | While elements are outstanding the unguarded access to the current row's length is in range. |
| ListLambda.AppendFiltered | duckdb/extension/core_functions/lambda_functions.cpp:104-159 | One batch: the cursor consumes all results and exactly the elements with a valid, true result are appended in order. |
| ListLambda.StartRow | duckdb/extension/core_functions/lambda_functions.cpp:301-311 | A row is marked NULL, or announced, or laid out at the running offset. |
| ListLambda.Flush | duckdb/extension/core_functions/lambda_functions.cpp:347-351 | A batch reaches the result wherever it was cut, also when it is empty. |
| ListLambda.ExecuteLambda | duckdb/extension/core_functions/lambda_functions.cpp:271-356 | For every vector size of at least 1 and every mix of NULL, empty, straddling and overlapping lists the result is the per-row filter or map; filter entries are contiguous, in row order, and cover the child vector; the cursor ends at the row count. |
| ListLambda.MappedAt | duckdb/extension/core_functions/lambda_functions.cpp:318-344 | The mapped list has at each place the lambda's value at the element there, with its index counted from 1. |
| ListLambda.KeptAt | duckdb/extension/core_functions/lambda_functions.cpp:125-129 | The filtered list has an element, behind those kept before it, exactly when the lambda's value at it is neither NULL nor false. |
| ListLambda.FilterReadsBack | duckdb/extension/core_functions/lambda_functions.cpp:104-159 | The entry of a row reads back exactly the elements its predicate keeps, in order, the predicate seeing 1-based index and outer row. |
| ListLambda.TransformReadsBack | duckdb/extension/core_functions/lambda_functions.cpp:75-85 | The stretch of the child vector at a row's offset is the map of its list. |
| ListLambda.OccurrenceAt | duckdb/extension/core_functions/lambda_functions.cpp:318-344 | In the flattened elements a row's own elements stand together at the row's start. |
| ListLambda.RowSelected | duckdb/extension/core_functions/lambda_functions.cpp:125-129 | Selecting a row's elements by their results is the per-row filter. |
| ListLambda.PlacedContiguous | duckdb/extension/core_functions/lambda_functions.cpp:133-144 | Entries follow each other from offset 0 to the size of the child vector. |
| ListLambda.Finished | duckdb/extension/core_functions/lambda_functions.cpp:347-351 | All elements handled and all rows announced: the result is complete. |
| Tokenizer.BackTo | duckdb/extension/autocomplete/tokenizer.cpp:329-331 | Walking back from a bad number stops after a digit or dot and never passes the token start. |
| Tokenizer.ParserTokenizer.StandardStep | duckdb/extension/autocomplete/tokenizer.cpp:192-299 | In the standard state one turn reports a whole lexeme or enters one, and moves on. |
| Tokenizer.ParserTokenizer.DollarStep | duckdb/extension/autocomplete/tokenizer.cpp:209-247 | `$`: a parameter, a lone sign, or the start of a dollar quote with its marker. |
| Tokenizer.ParserTokenizer.NumericStep | duckdb/extension/autocomplete/tokenizer.cpp:300-336 | A number goes on as long as its next character may continue it, is walked back, and is pushed; `LexicalGrammar.NumberLexes` says which texts these are. |
| Tokenizer.ParserTokenizer.TrimOperator | duckdb/extension/autocomplete/tokenizer.cpp:340-356 | Trailing `+` are trimmed exactly when the operator has no special character. |
| Tokenizer.ParserTokenizer.OperatorStep | duckdb/extension/autocomplete/tokenizer.cpp:337-366 | The trimmed operator and each trimmed `+` are pushed in order. |
| Tokenizer.ParserTokenizer.QuoteStep | duckdb/extension/autocomplete/tokenizer.cpp:377-400 | A quoted text goes on over doubled quotes and is pushed with its closing quote. |
| Tokenizer.ParserTokenizer.DollarQuotedStep | duckdb/extension/autocomplete/tokenizer.cpp:414-453 | A dollar quote closes at its own marker and is pushed re-encoded. |
| Tokenizer.ParserTokenizer.TokenizeInput | duckdb/extension/autocomplete/tokenizer.cpp:185-475 | On every input the machine terminates, although it walks backwards, and reports exactly what the lexer of whole lexemes reports; it answers false exactly inside comments and dollar quotes. |
| Tokenizer.ParserTokenizer.OnStatementEnd | duckdb/extension/autocomplete/autocomplete_extension.cpp:762-765 | The tokens since the last `;` become a finished statement. |
| Tokenizer.ParserTokenizer.OnLastToken | duckdb/extension/autocomplete/autocomplete_extension.cpp:766-771 | The last word becomes a token unless it is empty. |
| Tokenizer.EnteredSteps | duckdb/extension/autocomplete/tokenizer.cpp:189-191 | A turn in the standard state keeps what the whole run reports and lowers the termination measure. |
| Tokenizer.ContinuedSteps | duckdb/extension/autocomplete/tokenizer.cpp:300-453 | So does a turn inside a lexeme. |
| TokenizerLaws.Coverage | duckdb/extension/autocomplete/tokenizer.cpp:155-475 | Without `$`, and not ending inside a string or comment: every token is the text at its offset, tokens are in order and disjoint, statements end exactly at a `;`, and all the rest is white space and comments. |
| TokenizerLaws.LexCovers | duckdb/extension/autocomplete/tokenizer.cpp:185-475 | The same from any place where a lexeme starts. |
| TokenizerLaws.LexStable | duckdb/extension/autocomplete/tokenizer.cpp:185-475 | Every reported token has a text that lexes to itself. |
| TokenizerLaws.StableStands | duckdb/extension/autocomplete/tokenizer.cpp:185-475 | Such a text, wherever it stands before a space or the end, is read as that one token. |
| TokenizerLaws.JoinedLexes | duckdb/extension/autocomplete/tokenizer.cpp:185-475 | Such texts joined by single spaces lex to the same texts. |
| TokenizerLaws.RelexingStable | duckdb/extension/autocomplete/autocomplete_extension.cpp:758-774 | Without `$`, and not ending inside a quote or comment: each statement's token texts joined by single spaces lex to the same texts, as one statement. |
| LexicalGrammar.CharacterKinds | duckdb/extension/autocomplete/tokenizer.cpp:58-134 | Every character is of exactly one kind: white space, word character, operator character, single-character operator, or one of dot, quotes, semicolon and dollar sign. |
| LexicalGrammar.Classes | duckdb/extension/autocomplete/tokenizer.cpp:58-144 | The tokenizer's character classes are these, spelt out. |
| LexicalGrammar.BlankSkipped | duckdb/extension/autocomplete/tokenizer.cpp:258-262 | White space is skipped. |
| LexicalGrammar.LineCommentSkipped | duckdb/extension/autocomplete/tokenizer.cpp:248-252 | From two dashes to the first line end nothing is reported; without one the text ends in a comment. |
| LexicalGrammar.BlockCommentSkipped | duckdb/extension/autocomplete/tokenizer.cpp:253-257 | From slash and star to the first star and slash nothing is reported; without them the text ends in a comment. |
| LexicalGrammar.WordLexes | duckdb/extension/autocomplete/tokenizer.cpp:367-376 | A longest run of word characters is one token, unless it starts with a digit or is a prefix of a string literal. |
| LexicalGrammar.LongOperatorLexes | duckdb/extension/autocomplete/tokenizer.cpp:20-56 | The operators of two and three characters are one token, the longest first. |
| LexicalGrammar.SingleLexes | duckdb/extension/autocomplete/tokenizer.cpp:271-276 | Brackets, comma, question mark, dash and number sign are tokens of their own. |
| LexicalGrammar.OperatorLexes | duckdb/extension/autocomplete/tokenizer.cpp:337-366 | A longest run of operator characters is one token, but plus signs at its end are tokens of their own unless one of ten characters allows them. |
| LexicalGrammar.StringLexes | duckdb/extension/autocomplete/tokenizer.cpp:284-291 | A string literal, with or without its one-letter prefix, is one token up to the first quote that is not doubled. |
| LexicalGrammar.IdentifierLexes | duckdb/extension/autocomplete/tokenizer.cpp:389-400 | So is a quoted identifier. |
| LexicalGrammar.NumberLexes | duckdb/extension/autocomplete/tokenizer.cpp:300-336 | A number is figures, single underscores before figures, and exponent marks with or without a sign, none right after a bare one; the longest one is the token, cut back to its last figure; at the end of the text it is left as the last word. |
| LexicalGrammar.NumberFound | duckdb/extension/autocomplete/tokenizer.cpp:300-336 | Wherever a digit or dot starts a lexeme there is such a longest number. |
| LexicalGrammar.DollarParameter | duckdb/extension/autocomplete/tokenizer.cpp:211-219 | A dollar sign before a digit is a token of its own, and is left over at the end of the text. |
| LexicalGrammar.DollarAlone | duckdb/extension/autocomplete/tokenizer.cpp:223-236 | A dollar sign whose tag is not closed is a token of its own. |
| LexicalGrammar.DollarQuoteLexes | duckdb/extension/autocomplete/tokenizer.cpp:414-453 | A dollar quote up to its first closing marker is one token, re-encoded as a string literal. |
| LexicalGrammar.FirstStatement | duckdb/extension/autocomplete/autocomplete_extension.cpp:758-774 | The tokens before the first semicolon are the first statement, and the rest is split likewise. |
| LexicalGrammar.UnfinishedString | duckdb/extension/autocomplete/tokenizer.cpp:459-474 | A text that ends inside a string literal has as its last word the text after the first character. |
| LexicalGrammar.StringLiteralValue | duckdb/extension/autocomplete/matcher.cpp:638-664 | A string literal stands for its body with doubled quotes halved, and its kind is that of its prefix: N, X, B, E in either case, or none. |
| LexicalGrammar.StringLiteralsOnly | duckdb/extension/autocomplete/matcher.cpp:675-690 | Only texts between single quotes, behind one of these prefixes or none, are string literals. |
| LexicalGrammar.WordIsIdentifier | duckdb/extension/autocomplete/matcher.cpp:436-456 | A word in at most one keyword category is an identifier unless it is reserved, a column name where a function is named, or a type or function name elsewhere; it stands for itself, or for itself in lower case. |
| LexicalGrammar.OverriddenWord | duckdb/extension/autocomplete/matcher.cpp:536-555 | A word that is also unreserved, or both a column name and a type or function name, is an identifier everywhere but as the name of a type. |
| LexicalGrammar.TypeWord | duckdb/extension/autocomplete/matcher.cpp:530-535 | The name of a type is neither reserved nor a type or function name. |
| LexicalGrammar.LiteralIsName | duckdb/extension/autocomplete/matcher.cpp:424-434 | A string literal is a name only for tables and files, and then stands for its body. |
| Quoting.HalvingUndoesDoubling | duckdb/extension/autocomplete/tokenizer.cpp:445-446 | Doubling every quote and replacing every pair by one gives the text back. |
| Quoting.ClosesAtMarker | duckdb/extension/autocomplete/tokenizer.cpp:416-440 | A dollar quote closes exactly where the whole marker stands. |
| Quoting.DollarQuoteRoundTrip | duckdb/extension/autocomplete/matcher.cpp:638-691 | The text between a dollar marker and its first repetition is one token, from which the string literal matcher recovers it exactly. |
| Quoting.QuotedIdentifierLexes | duckdb/extension/autocomplete/tokenizer.cpp:389-400 | Any name written between doubled quotes lexes as one token. |
| Quoting.QuotedIdentifierRoundTrip | duckdb/extension/autocomplete/matcher.cpp:444-466 | And its matcher returns exactly the name, if and only if the name is not a single-quoted text read as a table or file name. |
| Quoting.QuotedTableNameLosesItsQuotes | duckdb/extension/autocomplete/matcher.cpp:461-464 | A name for which it does not. |
| NumberLiterals.MatchNumberLiteral | duckdb/extension/autocomplete/matcher.cpp:733-760 | The loop over the characters of a number literal, with its exception. |
| NumberLiterals.NumberTokenMatches | duckdb/extension/autocomplete/matcher.cpp:733-760 | A number token of the tokenizer is taken, unless it is a lone dot; with two exponents it is an exception. |
| NumberLiterals.TwoExponents | duckdb/extension/autocomplete/tokenizer.cpp:311-317 | 1e5e5 is such a token. |
| UnicodeSpaces.RegularLoop | duckdb/extension/autocomplete/autocomplete_extension.cpp:500-563 | The loop records what the automaton records and jumps where it jumps; place or rank falls. |
| UnicodeSpaces.TagLoop | duckdb/extension/autocomplete/autocomplete_extension.cpp:544-558 | A dollar tag is read to its `$`, or given up at a character no tag may hold. |
| UnicodeSpaces.InQuotesLoop | duckdb/extension/autocomplete/autocomplete_extension.cpp:564-576 | Quoted text is passed, over doubled quotes, without recording. |
| UnicodeSpaces.InDollarQuotesLoop | duckdb/extension/autocomplete/autocomplete_extension.cpp:577-587 | Dollar-quoted text is passed to its closing marker, reading inside the bounds. |
| UnicodeSpaces.InCommentLoop | duckdb/extension/autocomplete/autocomplete_extension.cpp:588-594 | A comment is passed to its line end. |
| UnicodeSpaces.NextLower | duckdb/extension/autocomplete/autocomplete_extension.cpp:500-597 | Every jump moves on or lowers the label's rank: the gotos terminate. |
| UnicodeSpaces.StripUnicodeSpaces | duckdb/extension/autocomplete/autocomplete_extension.cpp:490-597 | The gotos stay in bounds and terminate; the answer says whether a space was found, and the new query is the old one with each range replaced by one space. |
| UnicodeSpaceLaws.SpaceLengthExactly | duckdb/extension/autocomplete/autocomplete_extension.cpp:502-538 | A length is found exactly for the UTF-8 encodings of U+00A0, U+2000 to U+200B, U+202F, U+205F, U+2060, U+3000 and U+FEFF, and it is theirs. |
| UnicodeSpaceLaws.StripsOutsideQuotes | duckdb/extension/autocomplete/autocomplete_extension.cpp:490-597 | A query of plain UTF-8 text, quotes, dollar quotes and comments, closed or left open at its end, has each Unicode space of the plain text replaced by one space, but for a no-break space that ends it, and all the rest kept. |
| UnicodeSpaceLaws.LastSpaceStays | duckdb/extension/autocomplete/autocomplete_extension.cpp:500-502 | Nothing is recorded in the last two bytes of a query, so that a no-break space that ends it stays. |
| UnicodeSpaces.ReplaceUnicodeSpaces | duckdb/extension/autocomplete/autocomplete_extension.cpp:462-475 | The splice keeps every byte outside the ranges, in order. |
| UnicodeSpaces.RunOrdered | duckdb/extension/autocomplete/autocomplete_extension.cpp:502-538 | The recorded ranges are in bounds, strictly increasing and disjoint, and each holds a Unicode space. |
| UnicodeSpaces.SpaceRecorded | duckdb/extension/autocomplete/autocomplete_extension.cpp:502-538 | After a space the run goes on behind it: its continuation bytes record nothing. |
| UnicodeSpaces.NextMirrors | duckdb/extension/autocomplete/autocomplete_extension.cpp:500-597 | On the stripped query the automaton makes the jumps it made on the query, and records nothing. |
| UnicodeSpaces.SecondRunSilent | duckdb/extension/autocomplete/autocomplete_extension.cpp:490-597 | From any place and label, the run on the stripped rest finds nothing. |
| UnicodeSpaces.StrippingIdempotent | duckdb/extension/autocomplete/autocomplete_extension.cpp:490-597 | A second run on the stripped query finds nothing. |
| Timestamps.CalendarAddHour | duckdb/extension/icu/icu-dateadd.cpp:47-65 | Steps of 32 bits add up to all the hours, for both signs. |
| Timestamps.BreakApart | duckdb/extension/icu/icu-dateadd.cpp:98-108 | Hours, minutes, seconds and milliseconds have the sign of the interval's time, are less than the next larger unit, fit their fields, and add up. |
| Timestamps.MoveCalendar | duckdb/extension/icu/icu-dateadd.cpp:110-130 | The calendar is moved by the whole interval: times before months if anything is negative, else after; it is asked for months once. |
| Timestamps.AddInterval | duckdb/extension/icu/icu-dateadd.cpp:67-133 | The sum or an overflow error, with infinite timestamps unchanged; the calendar is asked for months once, from the start, or from the start plus the time if anything is negative; negative microseconds survive the trip through unsigned. |
| Timestamps.GetTime | duckdb/extension/icu/icu-datefunc.cpp:102-132 | The timestamp of the instant, or an error when a step leaves 64 bits or the range of dates. |
| Timestamps.SetTime | duckdb/extension/icu/icu-datefunc.cpp:134-149 | Milliseconds and microseconds by floor division, before 1970 too. |
| Timestamps.SubtractField | duckdb/extension/icu/icu-datefunc.cpp:160-169 | The most whole units toward the truncated end, by which the calendar moves. |
| Timestamps.AddingIsExact | duckdb/extension/icu/icu-dateadd.cpp:67-133 | With no months the result is timestamp plus microseconds and days for every mix of signs, and an error exactly when the carried millisecond or the result is out of range. |
| Timestamps.AddingMonthsIsExact | duckdb/extension/icu/icu-dateadd.cpp:67-133 | On a calendar of equal months the sum is exact with months too, or an error under the same exact condition. |
| Timestamps.MonthsActOnce | duckdb/extension/icu/icu-dateadd.cpp:110-130 | For any calendar: months act on the start when nothing is negative, on the start plus the time otherwise, and before the days in both cases. |
| Timestamps.DatesRange | duckdb/extension/icu/icu-dateadd.cpp:86-90 | The timestamps that have a date, in numbers. |
| Timestamps.InfinityStays | duckdb/extension/icu/icu-dateadd.cpp:69-71 | Adding to an infinite timestamp leaves it as it is. |
| Timestamps.MicrosDiffExact | duckdb/extension/icu/icu-dateadd.cpp:176 | The mixed unsigned and 32-bit microsecond arithmetic cancels out. |
| Timestamps.FieldsAddUp | duckdb/extension/icu/icu-dateadd.cpp:170-175 | Days, hours, minutes, seconds and milliseconds, largest first, use the whole distance up. |
| Timestamps.BorrowedTotal | duckdb/extension/icu/icu-dateadd.cpp:157-165 | Borrowed or not, the parts recombine to the distance, but for 1 ms in one family. |
| Timestamps.SubtractTimestamps | duckdb/extension/icu/icu-dateadd.cpp:146-180 | The days in the truncated milliseconds between the two, which fit 32 bits, and the rest in microseconds; together they are end minus start if and only if no millisecond is borrowed from an end in the first millisecond after 1970; infinite timestamps are errors. |
| Timestamps.RestBelowDay | duckdb/extension/icu/icu-dateadd.cpp:167-177 | The rest is less than a day; it is negative, by less than two milliseconds, exactly when one day too many is counted, and only for an end before 1970 that is no whole millisecond. |
| Timestamps.MixedSigns | duckdb/extension/icu/icu-dateadd.cpp:167-177 | An instance: one day, less half a millisecond. |
| Timestamps.BorrowOverflowsOnce | duckdb/extension/icu/icu-dateadd.cpp:162-165 | The borrowed millisecond leaves 64 bits exactly when the end is the earliest whole millisecond and the start lies before it. |
| Timestamps.SubtractionOffByOneMillisecond | duckdb/extension/icu/icu-dateadd.cpp:162-165 | An instance of that family. |
| Timestamps.AddingTheDifference | duckdb/extension/icu/icu-dateadd.cpp:146-180 | Outside that family, adding the difference to the start gives the end, or an error exactly when the carried millisecond or the end is out of the range of dates, which happens at its borders only. |
| Timestamps.TakingAwayUndoesAdding | duckdb/extension/icu/icu-dateadd.cpp:140-144 | Taking away an added interval gives the timestamp back, or an error if and only if a date or 64 bits are left. |
| Chunks.NonEmptyChunksDeliverAll | src/cosmograph_extension.cpp:415-425 | Any split into non-empty chunks delivers all rows. |
| JsonStream.EscapeJSON | src/cosmograph_extension.cpp:53-72 | The escape of every byte in order. |
| JsonStream.EscapeRead | src/cosmograph_extension.cpp:53-72 | Every byte string survives escaping: section 7 of RFC 8259 reads it back. |
| JsonStream.WriteRow | src/cosmograph_extension.cpp:438-452 | One row as a JSON object, its columns in order. |
| JsonStream.WriteChunk | src/cosmograph_extension.cpp:427-453 | One chunk: every row but the first of all is preceded by a comma. |
| JsonStream.ContentProvider.Provide | src/cosmograph_extension.cpp:405-458 | One call sends the next chunk's rows, or ends the document at an empty chunk or none; what has been sent is always the beginning of the one document. |
| JsonStream.Stream | src/cosmograph_extension.cpp:403-459 | The bytes sent depend on the rows alone, not on the chunks. |
| JsonStream.StreamRoundTrip | src/cosmograph_extension.cpp:403-459 | A reader for sections 3 to 7 of RFC 8259 returns the rows sent, if and only if every number in them is a JSON number. |
| JsonStream.NanIsNoNumber | src/cosmograph_extension.cpp:444-445 | nan and inf are not, and then the document does not read back. |
| JsonStream.NumberGrammar | src/cosmograph_extension.cpp:444-445 | The numbers meant: an optional minus, digits without a leading zero, an optional fraction and an optional exponent (section 6 of RFC 8259), in both directions. |
| JsonStream.EscapeTable | src/cosmograph_extension.cpp:53-72 | The escapes a reader knows (section 7 of RFC 8259): eight short ones, and four hexadecimal digits. |
| BinaryStream.FastColorMap.GetOrInsert | src/cosmograph_extension.cpp:93-126 | The code of a key is the rank of its first occurrence among the categories seen, up to 2^24. |
| BinaryStream.CodeStays | src/cosmograph_extension.cpp:114-125 | Later keys do not change a code. |
| BinaryStream.CodesGradual | src/cosmograph_extension.cpp:114-125 | Every code but 0 comes after the code one below it. |
| BinaryStream.CodesTellApart | src/cosmograph_extension.cpp:114-125 | Up to the limit, equal codes are exactly equal categories. |
| BinaryStream.CodesAreColours | src/cosmograph_extension.cpp:236-240 | Rows with the same colour have the same code, NULL counting as the empty text; up to the limit no others do; the first row has code 0. |
| BinaryStream.CodeIsRank | src/cosmograph_extension.cpp:114-125 | A row's code is the number of different colours before the first row with its colour, as far as a float counts. |
| BinaryStream.PackRow | src/cosmograph_extension.cpp:242-248 | Twenty bytes for one row, behind those already packed. |
| BinaryStream.NodeProvider.PackChunk | src/cosmograph_extension.cpp:222-251 | A chunk's bytes continue the records of the rows before it; NULL shares the category of the empty text. |
| BinaryStream.NodeProvider.Provide | src/cosmograph_extension.cpp:199-258 | One call sends the next chunk's records, or ends the stream at an empty chunk or none. |
| BinaryStream.Stream | src/cosmograph_extension.cpp:197-259 | The bytes sent depend on the rows alone, not on the chunks. |
| BinaryStream.Worker.GetCategoryColor | frontend/worker.js:6-10 | Grey for category 0, else the colour kept, else the palette colour at the number of colours kept, which is kept from then on; the painted categories stay exactly 1..k, each in the palette colour of its number. |
| BinaryStream.Worker.Paint | frontend/worker.js:83-88 | A colour in the cache of a message is used as it is; any other is asked for once and kept there. |
| BinaryStream.Worker.OnMessage | frontend/worker.js:39-95 | The arrays hold position, size, id and colour of every record; over any number of messages with gradual categories the colour map is 1..k and category c is painted in palette colour (c - 1) mod 19. |
| BinaryStream.RecordAt | src/cosmograph_extension.cpp:242-248 | Record i of the stream is row i with its code. |
| BinaryStream.ServerAndWorkerAgree | frontend/worker.js:70-75 | The worker decodes exactly the rows sent; up to the limit two rows have one category exactly when they have one colour; a category is the number of different colours before its own, 0 the first row's; and they come in the order the worker's colour map relies on. |
| NodeSession.Session | frontend/worker.js:19-95 | Any number of requests, each streamed by the server and painted by the same worker: every message shows exactly the rows of its request, each in the colour of the number of different colours before its own. |
| NodeSession.ShownColours | frontend/worker.js:3-10 | In a message with at most twenty different colours two rows are painted alike exactly when they have the same colour, and grey exactly when they have the first row's. |
| NodeSession.ColoursTellApart | frontend/worker.js:3-10 | Two codes are painted alike if and only if they are the same place of the palette, or both 0. |
| NodeSession.ColoursKept | src/cosmograph_extension.cpp:114-125 | Categories keep their colours when those of one request come first, in the same order, in the other. |
| NodeSession.BoundedRequestChangesColours | src/cosmograph_extension.cpp:222-228 | A request that leaves the first category out paints the second one in another colour. |
| ConfigCleanup.Cleaner.GetInheritedSkipTests | duckdb/scripts/cleanup_config_skip_tests.py:27-63 | The walk terminates even on cycles and returns the paths of exactly the configurations reached. |
| ConfigCleanup.FilterGroups | duckdb/scripts/cleanup_config_skip_tests.py:85-106 | Inherited paths are filtered out, groups left empty are dropped, groups without paths stay; the flag says whether any path was inherited. |
| ConfigCleanup.Cleaner.CleanupConfig | duckdb/scripts/cleanup_config_skip_tests.py:66-124 | The file is rewritten exactly when it holds an inherited path and the run is no dry run. |
| ConfigCleanup.Cleaner.Run | duckdb/scripts/cleanup_config_skip_tests.py:178-186 | Cleaning the files in turn; a dry run changes nothing; a file that cannot be loaded is passed over. |
| ConfigCleanup.CleanOwn | duckdb/scripts/cleanup_config_skip_tests.py:85-118 | A cleaned configuration has exactly its own paths that are not inherited. |
| ConfigCleanup.AncestorsClosed | duckdb/scripts/cleanup_config_skip_tests.py:27-63 | The configurations the walk reaches are closed under inheritance. |
| ConfigCleanup.AncestorsLeast | duckdb/scripts/cleanup_config_skip_tests.py:27-63 | And no other configuration is reached. |
| ConfigCleanup.InheritedKept | duckdb/scripts/cleanup_config_skip_tests.py:66-124 | Cleaning a configuration that does not inherit from itself keeps what every configuration inherits. |
| ConfigCleanup.CleaningKeepsEffective | duckdb/scripts/cleanup_config_skip_tests.py:66-124 | Cleaning keeps a configuration's effective skip set if and only if it does not inherit from itself, or the others it inherits from skip its own paths too. |
| ConfigCleanup.SelfInheritanceLosesPaths | duckdb/scripts/cleanup_config_skip_tests.py:35-39 | A configuration for which it does not. |
| ConfigCleanup.CleaningConserves | duckdb/scripts/cleanup_config_skip_tests.py:178-186 | On acyclic inheritance, in any order: every inherited and every effective skip set is kept, and no cleaned configuration holds a path it inherits. |
| ConfigCleanup.SecondPassIdle | duckdb/scripts/cleanup_config_skip_tests.py:178-186 | A second pass changes nothing. |
| IncludeReplacement.Amalgamator.Write | duckdb/scripts/amalgamation.py:195-234 | The file is marked before its includes are written, so the recursion ends on cycles; in its text each include statement is replaced, wherever it stands, by what the included file gives. |
| IncludeReplacement.Amalgamator.WriteSources | duckdb/scripts/amalgamation.py:237-250 | All sources in order, sharing the files already written. |
| TextReplacement.CharsReplaced | duckdb/scripts/amalgamation.py:227 | Marking characters with their origin does not change what `str.replace` does to the characters. |
| TextReplacement.FirstHit | duckdb/scripts/amalgamation.py:227 | The first occurrence is replaced, and what comes after it on its own. |
| TextReplacement.Counts | duckdb/scripts/amalgamation.py:227 | How often a character stands after replacing: the number of hits times what is put in, and no line end is taken away. |
| TextReplacement.Cut | duckdb/scripts/amalgamation.py:227 | Text without a line end is replaced line by line. |
| IncludeReplacement.SameFiles | duckdb/scripts/amalgamation.py:195-234 | Whatever the texts, replacing and splicing write the same files and fail on the same inputs. |
| IncludeReplacement.AloneAllSpliced | duckdb/scripts/amalgamation.py:195-250 | For all texts: if each statement is found only in its place when it is replaced, the script writes the splicing of the files. |
| IncludeTexts.SameOccurrence | duckdb/scripts/amalgamation.py:221-227 | As long as nothing else was replaced, a statement stands in the text so far where it stands in the file that the character comes from. |
| IncludeTexts.FileWhole | duckdb/scripts/amalgamation.py:195-234 | The splicing of a file holds the own characters of the newly written files once, and every line runs on as in its file. |
| IncludeSlips.StatementInside | duckdb/scripts/amalgamation.py:115 | By the form of the regular expression, a statement stands in another one only at its end, after blanks. |
| IncludeSlips.ClearOnlyHere | duckdb/scripts/amalgamation.py:221-227 | A step is clear: the statement stands in the text so far only in its place. |
| IncludeSlips.UnclearElsewhere | duckdb/scripts/amalgamation.py:221-227 | A step is not clear: the statement stands in the text so far before its place or after it. |
| IncludeSlips.StepDamages | duckdb/scripts/amalgamation.py:227 | Replacing a statement that stands elsewhere too doubles a line end, loses an own character, or leaves blanks over. |
| IncludeSlips.StepShaped | duckdb/scripts/amalgamation.py:227 | No later replacement undoes such damage. |
| IncludeOnce.FileExactly | duckdb/scripts/amalgamation.py:195-234 | The text of a file is the splicing if every step is clear, and damaged otherwise. |
| IncludeOnce.SplicedExactly | duckdb/scripts/amalgamation.py:195-250 | The amalgamation is the splicing of the files if and only if every step is clear. |
| IncludeOnce.EveryReachableFileOnceExactly | duckdb/scripts/amalgamation.py:195-250 | Every own character of the files that a source reaches stands exactly once in the amalgamation, and nothing else does, if and only if every step is clear. |
| IncludeOnce.UnmistakableIsClear | duckdb/scripts/amalgamation.py:113-145 | Every step is clear when, in every file, the text of an include statement stands only as an include statement. |
| IncludeOnce.IncludesComeFirstInText | duckdb/scripts/amalgamation.py:195-250 | With clear steps and acyclic includes, all own text of a file stands before any text that follows its include. |
| IncludeSample.IndentedIncludeWritesTwice | duckdb/scripts/amalgamation.py:115-134 | A file with an include and the same include indented raises no exception, and the included text is written twice. |
| IncludeSample.CommentIsReplaced | duckdb/scripts/amalgamation.py:227 | A comment that holds the statement loses its text and gets the included text. |
| IncludeSample.NeitherIsClear | duckdb/scripts/amalgamation.py:221-227 | Both families are shut out by the condition. |
| IncludeSample.SlipMadeUpFor | duckdb/scripts/amalgamation.py:227 | In a file without line end, a text put in twice can be removed again, so that the text is the splicing although a statement was not found alone. |
| Amalgamation.FileOnce | duckdb/scripts/amalgamation.py:161-172 | Splicing a file gives the own text of each newly written file once, and nothing else. |
| Amalgamation.FileExplores | duckdb/scripts/amalgamation.py:195-234 | The newly written files are reachable, and what they include is written or excluded. |
| Amalgamation.WrittenAreReached | duckdb/scripts/amalgamation.py:195-250 | The files written are exactly those that a source reaches through files that are not excluded. |
| Amalgamation.EveryReachableFileOnce | duckdb/scripts/amalgamation.py:195-250 | Whatever the cycles, the own text of each file that a source reaches is spliced exactly once, and nothing else is. |
| Amalgamation.FileInOrder | duckdb/scripts/amalgamation.py:221-227 | Splicing one file keeps included text before the text that follows its include. |
| Amalgamation.IncludesComeFirst | duckdb/scripts/amalgamation.py:195-250 | On acyclic includes a file is spliced whole before any text that follows its include. |
| Amalgamation.Partition | duckdb/scripts/amalgamation.py:497-523 | All files in order; a full partition reaches the share with its last file and not before, the rest does not; at most nsplits are full if and only if there are any bytes or no more files than that. |
| Amalgamation.FullCount | duckdb/scripts/amalgamation.py:504-518 | The count of full partitions. |
| HeaderTables.ParseRecords | duckdb/scripts/generate_extensions_function.py:98-135 | The loop over the characters computes the records of the character machine. |
| HeaderTables.TokensGood | duckdb/scripts/generate_extensions_function.py:98-135 | Whatever the text, every token read is not empty, has no quote and no white space around it. |
| HeaderTables.RowFed | duckdb/scripts/generate_extensions_function.py:669-672 | A printed row whose quoted fields have no quotes and are not blank is read as one record of their contents without outer white space. |
| HeaderTables.TableRoundTrip | duckdb/scripts/generate_extensions_function.py:98-135 | Printing and parsing give a table back if and only if it is not empty and every quoted field is good. |
| HeaderTables.EmptyTableFed | duckdb/scripts/generate_extensions_function.py:109-124 | An empty table is read as one empty record. |
| HeaderTables.ExportFunctions | duckdb/scripts/generate_extensions_function.py:663-674 | The printed text is the table of the functions, in the order of the keys that is passed in. |
| HeaderOverloads.ExportOverloads | duckdb/scripts/generate_extensions_function.py:676-692 | The printed text is the table of the functions in the order passed in, the overloads of each function sorted. |
| HeaderTables.CreateFunctionMap | duckdb/scripts/generate_extensions_function.py:184-189 | The map of the records, later records winning; an exception for a short record or an unknown type. |
| HeaderOverloads.CreateOverloadMap | duckdb/scripts/generate_extensions_function.py:162-175 | The overloads of each function in the order of the records; an exception for what cannot be read. |
| HeaderTables.FunctionsRoundTrip | duckdb/scripts/generate_extensions_function.py:184-189 | Exporting the function map and reading it back gives the map if and only if it is not empty and its names are good. |
| HeaderOverloads.OverloadOrder | duckdb/scripts/generate_extensions_function.py:682 | The order of overloads, by extension, parameters and result, is total. |
| HeaderOverloads.DictionaryOrder | duckdb/scripts/generate_extensions_function.py:682 | Texts are in the order of a dictionary: a beginning comes first, else the first different character decides. |
| HeaderOverloads.ListsInOrder | duckdb/scripts/generate_extensions_function.py:682 | Lists are in the order of their first different elements, a beginning first. |
| HeaderOverloads.OverloadsInOrder | duckdb/scripts/generate_extensions_function.py:154-159 | Overloads of one function are ordered by extension, then parameters, then result. |
| HeaderOverloads.OneArrangement | duckdb/scripts/generate_extensions_function.py:682 | Lists with the same overloads have one sorted arrangement. |
| HeaderOverloads.SignatureRoundTrip | duckdb/scripts/generate_extensions_function.py:166-170 | A signature reads back as its parts if and only if there is a parameter, no parameter holds `,` or `>`, and the result holds no `>`. |
| HeaderOverloads.RereadCarried | duckdb/scripts/generate_extensions_function.py:166-170 | Whatever is read back can be carried by a signature; an overload comes back as it was if and only if it can, and its result has no white space at its end. |
| HeaderOverloads.ListReread | duckdb/scripts/generate_extensions_function.py:682 | A list of overloads comes back as it was if and only if it is in order and each overload does. |
| HeaderOverloads.OverloadsRoundTrip | duckdb/scripts/generate_extensions_function.py:162-175 | Exporting overloads and reading them back gives them if and only if there are any, every function has some and a good name, they are in order, and every overload has a good extension, types without quotes, and a signature that carries them. |
| HeaderOverloads.UnsortedOverloads | duckdb/scripts/generate_extensions_function.py:682 | Two overloads kept in another order come back sorted. |
| HeaderTables.TypeRead | duckdb/scripts/generate_extensions_function.py:70-81 | Every catalog type is recognised by its own text. |

## Left out

- PegMatcher.Engine.MatchTerminal: the terminal tests (identifier, number, string, operator) and their exceptions are arbitrary functions of the token's kind and text, except where `Quoting` and `NumberLiterals` model three of them; keyword tables are data.
- PegMatcher.Engine.MatchParseResult: names and offsets in parse results and the furthest token reached, which only serve error messages, are not modelled.
- PegCompiler.MatcherFactory.CreateMatcher: parse-result names are not kept, and the certificate that function rules do not call themselves, with the names that can be reached, comes with the grammar.
- PegSyntax.ParsedPrintable: a body with `)` directly after `/` is rejected by the tree machine, and so counts as not in order; the compiler takes that `)` to close the choice and adds the choice to its list a second time (matcher.cpp:1137-1148).
- PegParser.ParseStatement: starts from rule token lists; the text of the grammar is parsed by code that is not part of this model. When exactly sharing and copying mean the same cannot be decided for grammars in general; the condition given goes one way.
- The suggestion side of the matchers (`Match`, `AddSuggestion`) deliberately differs from the parse side and is not modelled.
- ListLambda.ExecuteLambda: the lambda is an arbitrary function of element, index and row; captured columns are reached through the row, vectors are sequences with a selection, and the constant-vector shortcut and `list_reduce` are not modelled.
- Tokenizer.ParserTokenizer.TokenizeInput: characters stand for bytes; the suggestion tokenizer, which clears its tokens at a `;`, is not modelled.
- TokenizerLaws.Coverage: is stated without `$`, around which the source's offsets are not exact.
- Quoting.QuotedIdentifierRoundTrip: the keyword tables are an arbitrary function that knows no quoted text; the empty name is excluded, as the source then reads the first character of an empty string.
- Timestamps.AddInterval: ICU is an instant in milliseconds with fixed units up to the day; months are an arbitrary function of the calendar, time zones and daylight saving are not modelled, and the calendar's floating-point instant is exact.
- Timestamps.SubtractTimestamps: leaves out the one end from which borrowing a millisecond leaves 64 bits, which C++ does not define.
- JsonStream.StreamRoundTrip: the reader takes `\u` escapes only below U+0080, the only ones the writer uses.
- BinaryStream.Worker.OnMessage: node scaling and sizing are not modelled; the arrays hold the words as they came.
- NodeSession.Session: shows positions and sizes as the words that were sent, for the same reason.
- BinaryStream.ServerAndWorkerAgree: floats are opaque words; the format is any that holds whole numbers up to 2^24 exactly.
- IncludeReplacement.Amalgamator.Write: which texts in a file are include statements, and the files they name, come with the file; license markers, `#line` directives and the removal of `#pragma once` from each text (`cleanup_file`) are not modelled.
- Amalgamation.EveryReachableFileOnce: is about the splicing; `IncludeOnce.EveryReachableFileOnceExactly` is about the text the script writes. The same holds for `FileOnce`, `FileInOrder` and `IncludesComeFirst`.
- IncludeOnce.EveryReachableFileOnceExactly: is stated for files whose last line ends, and statements within one line.
- Amalgamation.Partition: the share is exact, where the source divides in floating point.
- ConfigCleanup.Cleaner.Run: paths are already resolved, and files that are not valid JSON count as not loaded.
- HeaderOverloads.OverloadsRoundTrip: cutting the table out of the whole header file is not modelled, and neither is Python's distinction between tuples and lists.
- Settings, secret types and copy functions are printed and read like functions, with two fields, and would only add easy members.
- The HTTP server, threads, token check and SQL text of `src/cosmograph_extension.cpp`, file access and regular expressions in the scripts, and generated keyword maps are input and output or data.
