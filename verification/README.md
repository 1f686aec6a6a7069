# A verified model of the dynamic value library

This project models four parts of the C++ library in Dafny and proves what they promise:

- the **JSON engine** of `lib/ccljson.cc`: a hand-compiled lexer, a table-driven LALR(1) parser whose actions
  spread their results over four value stacks, and two printers that replace recursion by a stack of
  half-consumed iterators;
- the **dynamic value** `var_c`/`loc_c` of `lib/cclvar.h`: its three-way order, on which sets and dictionaries
  rely, its intrusive reference counts with cascading release, and its deep copy;
- the **schema validator** of `lib/cclvarval.cc`: a recursion over value and schema that reports a failure by
  filling two path stacks while it unwinds;
- **split**, **join** and **replace** of `lib/cclstr.cc`.

Each imperative part keeps its form: classes with the source's fields, methods with its loops. Every such method
is proved against a function or a declarative predicate, and the lemmas prove what the source promises about
those.

## The main results

- *The parser decides the grammar.* `JsonSoundness.DriveExact`: the driver accepts a token string if and only if
  it is the yield of a derivation from rules 1..23 without undecodable strings, and then pushes exactly the
  value of that derivation; said of the text, `JsonAcceptance.AcceptedExactly`. `JsonAborts.AbortsExactly` tells the
  texts that run into the decoder's assertion from those that are refused, and `JsonAborts.OutcomeExactly` gives
  every outcome by a condition on the tokens. The class `JsonParser.Parser` computes
  this function; its stacks never underflow and its loop terminates on every input.
- *The lexer decides its languages.* `JsonLexerLanguage.LexExact`: the automaton returns a terminal with a length
  exactly when that prefix is a literal of the terminal and the next character does not continue it.
- *Printing and parsing undo each other.* `JsonRoundTrip.RoundTrip`: the text of a printable dictionary is accepted
  if and only if no string in it contains a NUL byte and no float in it is infinite or not a number, and then the
  value comes back with lists turned into arrays.
  `JsonRoundTrip.LayoutDoesNotMatter`: every indentation made of skip bytes gives the same tokens and the same
  result; both layouts write the same lines, `JsonLines.PrintedIsLines`. `JsonPrinter.Create` and `JsonPrinter.CreateNice` write exactly the recursive text, or fail with the
  first obstacle.
- *The order is total*, zero exactly on equal values, negative exactly on the pairs that `Order.Below` lists, and
  enumerations depend on the members alone.
- *Counts are exact through every run*, `Runs.RunIsExact`, and on every heap, with cycles or without, a location is
  live if and only if a handle outside the heap or a cycle of handles leads to it, `Reachability.LiveIsHeld`.
  Releasing a handle spares exactly what is held without it, `Reachability.ReleaseSparesHeld`; and assignment,
  which reads its source a second time after the release, is safe exactly when the containers of source and target
  are held without the handle it overwrites, `Handles.AssignIsSafe`.
- *The validator accepts a value if and only if all properties hold*, and otherwise reports the first that fails,
  with stacks that lead, through value and schema together, to the part of the value and the schema whose own
  check failed. It does so whenever the recursion ends, and `SchemaEnds.EndsExactly` says when it does;
  `SchemaMeanings` says what each property asks, and reports, by its name in bytes.
- *A deep copy is independent of its source*: no run of operations on the containers of one changes the other,
  `Independence.SourceOutlivesCopy` and `Independence.CopyOutlivesSource`.

Five properties one might expect do not hold of the code; the condition under which each holds is proved, and the
failing input is part of the statement or a lemma of its own:

- a string with a NUL byte is printed as it is, and cannot be read back; the escape `\u0000` is a way to get one
  (`JsonReprint.NulTextIsAccepted`, `JsonStrings.EscapeIsBody`, `JsonRoundTrip.RoundTrip`);
- a float such as `1e999`, which is accepted and overflows, is printed as `inf`, and cannot be read back
  (`JsonReprint.OverflowIsNotReadBack`, `JsonPrintedTokens.Readable`, `JsonReprint.ReprintReparses`);
- the lexer accepts `\/` inside a string, for which the decoder has no case (`JsonAcceptance.SlashTextFails`,
  `JsonStrings.DecoderCoversLexer`, `JsonAborts.AbortsExactly`);
- `x = x[0]` releases the array that holds the source slot when `x` is its only handle, and storing a variable in a
  slot of a cycle can release the container of that slot (`Handles.AssignFromOwnElement`, `Handles.AssignIntoCycle`,
  `Handles.AssignIsSafe`);
- a schema that refers to itself for the same value makes the validator recurse for ever (`SchemaEnds.LoopNeverEnds`,
  `SchemaEnds.EndsExactly`).

## Parameters

Floating point stays uninterpreted. `strtod: bytes -> real` stands for the C function, `fixed: real -> bytes` for
the stream output with six digits; the only thing assumed of the latter, where needed, is `WritesFloats`: the text
is a float literal, or begins like `inf` or `nan` after an optional sign. What stands for an infinity is a `real` of
which nothing else is known. The answers of the regular expression library are a parameter `matches` of the
validator. A byte is a number below 256 and a string a sequence of bytes.

## Reading order

`Base`, `Values`, `Order` and `Containers` give the values. `JsonTables`, `JsonGrammar`, `JsonMachine`,
`JsonCompleteness`, `JsonSoundness` and `JsonStackSizes` treat the parser tables and the driver; `JsonStrings`,
`JsonNumbers`, `JsonLexer`, `JsonClasses`, `JsonLexerLanguage` and `JsonTokens` the text; `JsonRender`, `JsonLines`,
`JsonPrinter` and `JsonPrintedTokens` the printers. `JsonRoundTrip`, `JsonAcceptance`, `JsonReprint` and `JsonParser` put them
together, and `JsonAborts` treats the decoder's assertion. `RefCounts`, `Reachability`, `Handles`, `Runs`,
`HeapValues`, `CopySteps`, `Independence` and `Heaps` treat the heap; `Schemas`, `SchemaBlames`, `SchemaMeanings`,
`SchemaPaths`, `SchemaLaws`, `SchemaEnds` and `Validators` the validator. `Strings` stands alone, and `Sequences` regroups
concatenations. `dafny verify dfyconfig.toml` checks the whole project.

`hide` statements at the head of a body keep definitions that the proof does not need out of the solver's sight;
they change the cost, never the statement.

## Model

| member | source | states |
|---|---|---|
| Order.CompareOrder | lib/cclvar.h:115-120 | comparing is antisymmetric in sign, and zero exactly on structurally equal values |
| Order.CompareTransitive | lib/cclvar.cc:30-164 | the order is transitive, through every nesting of containers |
| Order.CompareSign | lib/cclvar.cc:30-164 | the comparison is negative exactly when the first value comes first: by kind in the order of the type tags; `false` before `true`, numbers by size, strings by a proper prefix or the first smaller byte, containers by size and then by the first member, or key before value, that differs |
| Order.CompareLocs | lib/cclvar.h:115-120 | the dispatch on type tags and the walks below it compute the order: negative exactly below, zero exactly on equal values |
| Order.CompareSequences | lib/cclvar.cc:54-117 | size first, then the first differing element decides |
| Order.CompareDicts | lib/cclvar.cc:118-160 | size first, then key before value, entry by entry |
| Containers.SetInsertSorted | lib/cclvar.h:63-64 | `std::set` insertion keeps the enumeration sorted and adds exactly the new member |
| Containers.SetOrderIndependent | lib/cclvar.cc:97-117 | two sets with the same members compare equal whatever the insertion order |
| Containers.SortedItemsUnique | lib/cclvar.cc:97-117 | a sorted enumeration is determined by its members |
| Containers.FirstPairWins | lib/ccljson_parse_actions.cc:63-72 | a dictionary built by insertion answers every key with the first pair that carried it |
| Containers.DictOrderIndependent | lib/cclvar.cc:118-160 | two dictionaries with the same associations compare equal whatever the insertion order |
| JsonTables.PathEndsWithHandle | lib/ccljson.cc:22-55 | when a row reduces, the path spells the rule's body and the state below has a goto on its head |
| JsonTables.TransEntersBySymbol | lib/ccljson.cc:22-55 | every state is entered by one symbol only |
| JsonTables.UnitReductionLowersRank | lib/ccljson.cc:22-55 | no chain of unit reductions can repeat on one terminal |
| JsonGrammar.ValueEffect | lib/ccljson_parse_actions.cc:88-166 | replaying the actions of a value pushes exactly its meaning on the value stack, and touches nothing below |
| JsonGrammar.ObjectEffect | lib/ccljson_parse_actions.cc:57-72 | replaying the actions of an object pushes its dictionary, first duplicate key kept |
| JsonGrammar.ArrayEffect | lib/ccljson_parse_actions.cc:74-86 | replaying the actions of an array pushes its items in order |
| JsonMachine.ReduceKeepsValid | lib/ccljson.cc:1064-1084 | a reduction stays on the automaton: no underflow, no blank goto, and the termination measure drops |
| JsonMachine.PushKeepsValid | lib/ccljson.cc:1051-1062 | a shift extends the path of the automaton |
| JsonCompleteness.Complete | lib/ccljson.cc:1021-1088 | in any valid context the driver consumes the yield of a derivation and leaves its effect |
| JsonCompleteness.DocumentAccepted | lib/ccljson.cc:1011-1089 | every decodable document is accepted with its value |
| JsonSoundness.DriveExact | lib/ccljson.cc:1011-1089 | acceptance if and only if there is a decodable derivation, and the value stacks are then the initial ones with its object pushed |
| JsonAcceptance.AcceptedExactly | lib/ccljson.cc:1011-1089 | a text is accepted if and only if its tokens are derived from the grammar and none of its strings escapes a slash |
| JsonAcceptance.SlashTextFails | lib/ccljson_parse_actions.cc:236-261 | `{"\/":null}` passes the lexer and ends in the decoder's assertion |
| JsonAborts.AbortsExactly | lib/ccljson_parse_actions.cc:232-270 | parsing runs into the decoder's assertion if and only if the first escaped slash is in a string that some document can continue with and that stands in front of a terminal which can follow a string |
| JsonAborts.NoSlashNoAbort | lib/ccljson_parse_actions.cc:178-270 | without an escaped slash in a string token the assertion is never reached |
| JsonAborts.CommaTextAborts | lib/ccljson.cc:33-34 | the text `{"\/",` runs into the assertion, although no document begins with it |
| JsonAborts.OutcomeExactly | lib/ccljson.cc:1011-1089 | acceptance, the decoder's assertion, an unrecognized terminal and a syntax error, each if and only if the tokens meet its condition |
| JsonStackSizes.ReduceKeepsSizes | lib/ccljson_parse_actions.cc:57-166 | the value stack sizes follow from the states on the parser stack, so no action pops an empty stack |
| JsonStackSizes.ShiftKeepsSizes | lib/ccljson.cc:1051-1062 | a shift changes no value stack size |
| JsonLexer.ScanExact | lib/ccljson.cc:477-1009 | the scan stops where the walk of its text ends for good in an accepting state, never past a NUL |
| JsonClasses.SkipBytes | lib/ccljson.cc:504-510 | the lexer skips a byte exactly if it is one of 8 to 13 or 32, whatever follows |
| JsonClasses.DigitBytes | lib/ccljson.cc:477-1009 | the digits are the bytes 48 to 57 |
| JsonClasses.SignBytes | lib/ccljson.cc:477-1009 | 45 alone may stand in front of a number |
| JsonClasses.PointByte | lib/ccljson.cc:477-1009 | 46 makes a float of an integer |
| JsonClasses.ExponentBytes | lib/ccljson.cc:477-1009 | 69 and 101 begin an exponent |
| JsonClasses.ExponentSignBytes | lib/ccljson.cc:477-1009 | 43 and 45 are the signs of an exponent |
| JsonClasses.PlainBytes | lib/ccljson.cc:477-1009 | every byte but 0, 34 and 92 may stand in a string |
| JsonClasses.EscapeBytes | lib/ccljson.cc:477-1009 | eight bytes may follow a backslash by themselves, the slash among them |
| JsonClasses.HexBytes | lib/ccljson.cc:477-1009 | behind an escaped `u` there stand four of 22 bytes |
| JsonLexerLanguage.LexExact | lib/ccljson.cc:477-1009 | a terminal of length n if and only if the prefix is one of its literals and the next character does not continue it |
| JsonTokens.TokensAreStream | lib/ccljson.cc:1021-1042 | the terminals seen by the driver end in one end or unrecognized terminal, without skips |
| JsonTokens.TokensAreLiterals | lib/ccljson.cc:477-1009 | every terminal but the last comes with one of its literals |
| JsonTokens.LexInContext | lib/ccljson.cc:477-1009 | a literal followed by a character that does not continue it is one token |
| JsonTokens.TokensSkipSpaces | lib/ccljson.cc:504-510 | bytes 8 to 13 and 32 in front of a text change none of its terminals |
| JsonTokens.QuotedInContext | lib/ccljson.cc:572-596 | a printed string followed by anything is one token exactly when it is free of NUL, and unrecognized otherwise |
| JsonTokens.QuotedDecodes | lib/ccljson_parse_actions.cc:168-281 | the literal of a printed string decodes to that string |
| JsonStrings.UnescapeEscape | lib/ccljson.cc:57-100 | decoding undoes escaping, for all bytes |
| JsonStrings.EscapeWrites | lib/ccljson.cc:57-102 | no control byte that has an escape is written raw, and the text grows by one byte for each of seven |
| JsonStrings.EscapesByName | lib/ccljson.cc:63-97 | the seven escapes of section 7 of RFC 8259 by their letters; every other byte is written as it is |
| JsonStrings.EscapeIsBody | lib/ccljson.cc:57-100 | the escaped text is a string body of the lexer if and only if it has no NUL |
| JsonStrings.DecoderCoversLexer | lib/ccljson_parse_actions.cc:236-261 | on what the lexer accepts, the decoder reaches its assertion exactly at an escaped slash |
| JsonStrings.EncodeCodeIsUtf8 | lib/ccljson_parse_actions.cc:199-234 | `\uXXXX` becomes the octets of its code, and these are UTF-8 by section 3 of RFC 3629 exactly if the code is not a surrogate |
| JsonStrings.CodeIsDecoded | lib/ccljson_parse_actions.cc:198-234 | the escape of a code, its digits in any case, decodes to the octets of that code in front of the rest |
| JsonStrings.DigitsAreCodeText | lib/ccljson_parse_actions.cc:200-212 | any four hexadecimal digits are the text of a code |
| JsonNumbers.StrtollReadsLiteral | lib/ccljson_parse_actions.cc:96-113 | `strtoll` started at an integer literal reads that literal, saturated, whatever follows that is no digit |
| JsonNumbers.PrintedIntReadsBack | lib/ccljson.cc:128-131 | printing any 64-bit integer and reading it restores it |
| JsonNumbers.NatTextIsDecimal | lib/ccljson.cc:127-130 | a number is written with its decimal digits and no leading zero |
| JsonNumbers.IntTextIsSigned | lib/ccljson.cc:127-130 | a negative number has byte 45 in front of its magnitude |
| JsonNumbers.OverflowIsBound | lib/ccljson_parse_actions.cc:96-113 | an integer beyond 64 bits is read as the nearest bound |
| JsonNumbers.StrtollPassesOver | lib/ccljson_parse_actions.cc:96-113 | `strtoll` passes over the space of the C locale and a plus |
| JsonRender.PrintableHasNoError | lib/ccljson.cc:111-253 | an obstacle is met exactly when the tree holds a set or a key that is not a string |
| JsonRender.FirstErrorObstructs | lib/ccljson.cc:220-250 | the error thrown is that of the obstacle that comes first from left to right, a key before its value |
| JsonLines.PrintedIsLines | lib/ccljson.cc:252-469 | the printed text is a list of lines: indented, each behind one tab for every open container and a line break between them; compact, the same lines run together |
| JsonLines.LinesAreUnbroken | lib/ccljson.cc:57-102 | no line holds a line break inside |
| JsonPrinter.AppendString | lib/ccljson.cc:57-100 | the character loop writes the escaped text |
| JsonPrinter.StepKeepsPending | lib/ccljson.cc:111-253 | one iteration writes a prefix of what the iterator stack still owes, and lowers the cost |
| JsonPrinter.Create | lib/ccljson.cc:102-254 | the iterator stack writes the recursive rendering, or fails with the first obstacle |
| JsonPrinter.CreateNice | lib/ccljson.cc:256-469 | the same with one tab for every open container |
| JsonPrinter.Indentation.Push | lib/ccljson.cc:271-277 | the size follows the nesting and never exceeds the buffer |
| JsonPrinter.Indentation.Pop | lib/ccljson.cc:279-282 | the size goes back by one tab |
| JsonPrinter.Indentation.Write | lib/ccljson.cc:284-288 | a line break and one tab for every open container |
| JsonPrintedTokens.LexesValue | lib/ccljson.cc:290-468 | the text of a value lexes to the tokens of its tree wherever it stands, up to the first string with a NUL or float without a literal, on which the lexer breaks down |
| JsonRoundTrip.LayoutDoesNotMatter | lib/ccljson.cc:256-469 | all layouts made of skip bytes give the same tokens and the same parse, for every printable value |
| JsonRoundTrip.TokensOfText | lib/ccljson.cc:102-469 | the whole text of a value has the tokens of its tree and the end, cut at the first string with a NUL or float without a literal |
| JsonRoundTrip.RoundTrip | lib/ccljson.cc:471-475 | parsing the text of a printable dictionary succeeds if and only if it has no NUL and no infinite float, and gives the value with lists as arrays |
| JsonReprint.ParsedIsPlain | lib/ccljson.cc:1011-1089 | every value that parsing returns is a dictionary in its own order with string keys and without sets or lists, so both printers accept it |
| JsonReprint.ReprintReparses | lib/ccljson.cc:471-475 | parsing the print of a parsed value succeeds if and only if it has no NUL and no infinite float, and returns the same value if it has no float |
| JsonReprint.NulTextIsAccepted | lib/ccljson_parse_actions.cc:184-230 | `{"\u0000":null}` is accepted, and its value cannot be printed and read back |
| JsonReprint.OverflowIsNotReadBack | lib/ccljson_parse_actions.cc:115-132 | `{"a":1e999}` is accepted, and where its float overflows the printed value is not |
| JsonParser.Parser.RecognizeTerminal | lib/ccljson.cc:477-1009 | the index-advancing automaton computes the lexer function at every position |
| JsonParser.Parser.NextTerminal | lib/ccljson.cc:1024-1042 | skips are passed over and the start of the terminal is remembered |
| JsonParser.Parser.PaJsonObjectBegin | lib/ccljson_parse_actions.cc:57-61 | pushes an empty dictionary |
| JsonParser.Parser.PaJsonObjectPair | lib/ccljson_parse_actions.cc:63-72 | takes key and value off their stacks into the top dictionary, unless the key is there |
| JsonParser.Parser.PaJsonArrayBegin | lib/ccljson_parse_actions.cc:74-78 | pushes an empty array |
| JsonParser.Parser.PaJsonArrayValue | lib/ccljson_parse_actions.cc:80-86 | moves the top value to the end of the top array |
| JsonParser.Parser.PaJsonValString | lib/ccljson_parse_actions.cc:88-94 | moves the top string to the values |
| JsonParser.Parser.PaJsonValInteger | lib/ccljson_parse_actions.cc:96-113 | reads the number from the source where its literal starts, and interns it |
| JsonParser.Parser.PaJsonValFloat | lib/ccljson_parse_actions.cc:115-132 | reads the float literal, and interns it |
| JsonParser.Parser.PaJsonValObject | lib/ccljson_parse_actions.cc:134-140 | moves the top dictionary to the values |
| JsonParser.Parser.PaJsonValArray | lib/ccljson_parse_actions.cc:142-148 | moves the top array to the values |
| JsonParser.Parser.PaJsonValConstant | lib/ccljson_parse_actions.cc:150-166 | pushes a shared constant |
| JsonParser.Parser.DecodeString | lib/ccljson_parse_actions.cc:178-270 | the decoding loop meets the end exactly and yields the unescaped text, or stops at the assertion |
| JsonParser.Parser.PaJsonString | lib/ccljson_parse_actions.cc:168-281 | pushes the decoded literal, interned |
| JsonParser.Parser.CallAction | lib/ccljson.cc:1068-1076 | the entry of the call table computes the rule's action; the entry that asserts is never called |
| JsonParser.Parser.ParseSource | lib/ccljson.cc:1011-1089 | the whole driver on the text equals its specification on the tokens, for every input |
| JsonParser.Parse | lib/ccljson.cc:471-475 | a fresh parser returns the object of the text, or the failure |
| RefCounts.ReleaseCounted | lib/cclvar.h:102-102 | a release, with the cascade it sets off, keeps every count exact and touches live locations only |
| RefCounts.ReleaseSurvives | lib/cclvar.cc:6-28 | a release revives nothing and leaves the data of the survivors alone |
| Reachability.LiveIsHeld | lib/cclvar.h:101-102 | on every heap with exact counts a location is live if and only if an outside handle reaches it or a chain of handles leads to it from a cycle |
| Reachability.ReleaseSparesHeld | lib/cclvar.cc:6-28 | on every such heap a release spares exactly what an outside handle or a cycle still leads to |
| Reachability.LiveIsReachable | lib/cclvar.h:101-102 | without cycles a location is live if and only if an outside handle reaches it |
| Reachability.ReleaseFreesUnreachable | lib/cclvar.cc:6-28 | without cycles a release frees exactly what the remaining handles do not reach |
| Handles.AtIsLive | lib/cclvar.h:162-172 | no handle, in a variable or a live container, points to a freed location |
| Handles.AssignedCounted | lib/cclvar.h:174-180 | a completed assignment keeps every count exact, and the target holds the source's location |
| Handles.AssignIsSafe | lib/cclvar.h:174-180 | on every heap, assignment completes if and only if the containers of a source slot and of a target slot are held, by other handles, the source's location or a cycle, without the target's handle |
| Handles.AssignIsSafeWithoutCycles | lib/cclvar.h:174-180 | on a heap without cycles it completes if and only if the source is a variable or variables reach its container without the target's handle |
| Handles.AssignFromOwnElement | lib/cclvar.h:174-180 | `x = x[0]` with a single handle on the array reads a freed slot |
| Handles.AssignFromCycle | lib/cclvar.h:174-180 | `x = x[0]` completes when `x[0]` is the array itself, although no variable but the target holds it |
| Handles.AssignIntoCycle | lib/cclvar.h:174-180 | storing a variable in a slot of a cycle frees the container of the slot |
| Runs.LiterallyKeeps | lib/cclvar.cc:166-183 | the entry of the interning map for a text is made once and holds that text |
| Runs.CStringIsPrefix | lib/cclvar.cc:168-183 | a C string is the longest prefix without a NUL, and all of a text that has none |
| Runs.LiteralHolds | lib/cclvar.cc:166-183 | the variable made from a text without NUL holds that text |
| Runs.StepKeeps | lib/cclvar.h:144-180 | every operation keeps the counts exact and the interned texts; only assignment can touch a freed location |
| Runs.InsertPlaces | lib/cclvar.h:106-111 | the handle is stored at its place, and the others keep their order |
| Runs.EraseRemoves | lib/cclvar.h:106-111 | one handle goes, and the others keep their order |
| Runs.RunIsExact | lib/cclvar.h:144-180 | after every run each count equals the handles, no handle dangles, live is what variables or cycles lead to, and without cycles what variables reach |
| Runs.CycleLeaks | lib/cclvar.h:102-102 | an array that holds itself stays live without any variable |
| HeapValues.ShowsUnique | lib/cclvar.h:77-79 | a location holds at most one finite value |
| HeapValues.OrderedBefore | lib/cclvar.cc:227-258 | in a set or dictionary in order, every member or key is greater than all before it, so copies are inserted at the end |
| CopySteps.ItemMoves | lib/cclvar.cc:199-212 | inserting a temporary and destroying it moves its handle into the container, with every count as before |
| CopySteps.PairMoves | lib/cclvar.cc:254-254 | storing a key with a blank value, assigning the value over the blank and destroying the temporaries moves both handles into the dictionary and frees the blank |
| Independence.ValueOutlivesRun | lib/cclvar.h:144-180 | a value outlives every run that leaves its containers alone, whatever is released elsewhere |
| Independence.SourceOutlivesCopy | lib/cclvar.cc:185-262 | after a copy no run of writes to the copy's containers changes what any older location holds |
| Independence.CopyOutlivesSource | lib/cclvar.cc:185-262 | after a copy no run of writes to older containers changes the copy |
| Heaps.Heap.Ref | lib/cclvar.h:101-101 | one more |
| Heaps.Heap.Unref | lib/cclvar.cc:6-28 | the recursion through destructors computes the release, without visiting a freed location |
| Heaps.Heap.Create | lib/cclvar.h:146-170 | a variable with the only handle to a new location |
| Heaps.Heap.CopyHandle | lib/cclvar.h:162-162 | a second handle to the same location |
| Heaps.Heap.Destroy | lib/cclvar.h:172-172 | the variable's handle is released |
| Heaps.Heap.Assign | lib/cclvar.h:174-180 | the three statements in their order compute the assignment |
| Heaps.Heap.Literal | lib/cclvar.cc:168-183 | equal texts share the location of their map entry |
| Heaps.Heap.Insert | lib/cclvar.cc:199-212 | a container gains a handle |
| Heaps.Heap.Erase | lib/cclvar.h:106-111 | a container loses a handle, which is released |
| Heaps.Heap.Copy | lib/cclvar.cc:185-262 | the copy has the same value in containers that are all new, everything older keeps its data, and the copy is itself a run of the operations, so counts stay exact |
| Heaps.Heap.CopyContainer | lib/cclvar.cc:195-258 | the loops fill a fresh container with copies of the children |
| Heaps.Heap.Position | lib/cclvar.h:192-196 | a member or key belongs before the first that is not smaller, found by comparing the values in the heap |
| Heaps.Heap.ReadBack | lib/cclvar.h:77-79 | walking the handles below a location yields its value |
| SchemaBlames.BlameRejects | lib/cclvarval.cc:87-513 | a value for which a failure is reported is not accepted |
| SchemaBlames.OwnFaultRejects | lib/cclvarval.cc:118-300 | the properties that look at the value alone fail exactly when their declared relation does not hold |
| SchemaMeanings.PropertiesByName | lib/cclvarval.cc:21-41 | the table of property names, in bytes |
| SchemaMeanings.ComparisonsMean | lib/cclvarval.cc:139-186 | each of the six comparisons accepts exactly by the order of values, and reports an invalid value otherwise |
| SchemaMeanings.IntegersCompare | lib/cclvarval.cc:139-186 | on integers they are the six relations of numbers |
| SchemaMeanings.SizesMean | lib/cclvarval.cc:187-271 | each of the six size properties accepts exactly by the number of bytes, members or pairs |
| SchemaMeanings.SizesRefuse | lib/cclvarval.cc:195-220 | what is refused without a size or without a number to compare with |
| SchemaMeanings.TypesMean | lib/cclvarval.cc:118-136 | each of the nine type names accepts exactly the values of its kind |
| SchemaMeanings.OtherTypesRefuse | lib/cclvarval.cc:122-130 | any other type name is a fault of the schema |
| SchemaMeanings.RegexMeans | lib/cclvarval.cc:273-300 | a string is accepted exactly if the library matches it |
| SchemaMeanings.ArrayItemsMean | lib/cclvarval.cc:303-337 | every index named is in range and its element meets its schema |
| SchemaMeanings.DictItemsMean | lib/cclvarval.cc:338-362 | every key named is there and its value meets its schema |
| SchemaMeanings.OptItemsMean | lib/cclvarval.cc:370-400 | the value under a named key meets its schema if it is there |
| SchemaMeanings.AllKeysMean | lib/cclvarval.cc:402-427 | every key meets the schema |
| SchemaMeanings.AllItemsMean | lib/cclvarval.cc:429-504 | every element, or value of a dictionary, meets the schema |
| SchemaMeanings.PartsRefuse | lib/cclvarval.cc:303-513 | the error on a value without such parts, or without a dictionary of schemas |
| SchemaMeanings.MissingItem | lib/cclvarval.cc:317-326 | a missing index or key is the error, and stands on both stacks behind `items` |
| SchemaMeanings.ElementReported | lib/cclvarval.cc:429-504 | the first element that fails is reported as its position, or its key in a dictionary, behind `all-items` |
| SchemaMeanings.KeyReported | lib/cclvarval.cc:402-427 | the first key that fails is reported behind `all-keys` |
| SchemaMeanings.ItemReported | lib/cclvarval.cc:303-400 | an item that fails is reported behind `items` or `opt-items` |
| SchemaMeanings.ReferencesMean | lib/cclvarval.cc:43-68 | a name that begins with `ref` asks for the schema that its argument names, and reports one that is not there |
| SchemaMeanings.OtherNamesRefuse | lib/cclvarval.cc:103-115 | any other property name is a fault of the schema and stands on the second stack |
| SchemaMeanings.OtherKeysRefuse | lib/cclvarval.cc:99-106 | so is a property key that is no string |
| SchemaPaths.BlameIsUnique | lib/cclvarval.cc:87-513 | the reported error and both stacks are determined by value and schema: the first failure in order |
| SchemaPaths.BlameIsPath | lib/cclvarval.cc:43-85 | read through value and schema together, the stacks lead to a part of the value and the schema in the given one whose own check of that part raises the reported error, with what is left of the stacks naming the unknown property, missing item or missing schema |
| SchemaLaws.InliningKeepsVerdict | lib/cclvarval.cc:70-85 | putting a named schema in place of its name, wherever a part of the value is passed on, does not change the verdict |
| SchemaLaws.SplicingKeepsVerdict | lib/cclvarval.cc:104-110 | writing out a reference that passes on the same value does not change the verdict |
| SchemaLaws.SpliceIsDictionary | lib/cclvarval.cc:104-110 | the properties so obtained are those of a dictionary if and only if none of the schema's keys is there already |
| SchemaLaws.SplicedDictionaryKeepsVerdict | lib/cclvarval.cc:104-110 | and that dictionary, in its own order, gives the same verdict |
| SchemaEnds.EndsExactly | lib/cclvarval.cc:43-85 | the rules accept or blame a value if and only if no endless sequence of checks, each entered from the one before, starts at it |
| SchemaEnds.ClosedDecides | lib/cclvarval.cc:43-85 | if no name within reach leads into a cycle of references that pass on the same value, every value is accepted or blamed |
| SchemaEnds.LoopNeverEnds | lib/cclvarval.cc:104-110 | a schema that refers to itself for the same value accepts nothing and blames nothing |
| SchemaEnds.EmptyNeedsNoSchema | lib/cclvarval.cc:429-504 | a cycle that is named and not entered does no harm: an empty array is accepted whatever schema its elements are to meet |
| Validators.Validator.ValidatePair | lib/cclvarval.cc:87-513 | success if and only if every property holds, otherwise the stacks gain exactly the steps of the first failure |
| Validators.Validator.ValidateProperty | lib/cclvarval.cc:92-119 | the turn of the loop for one property, with the reference and unknown-name cases; what the names ask for is in `SchemaMeanings` |
| Validators.Validator.CheckOwn | lib/cclvarval.cc:118-300 | type, comparison, size and regex properties give the declared error |
| Validators.Validator.CheckRegex | lib/cclvarval.cc:273-300 | the cached expression for a text is the one compiled from it |
| Validators.Validator.ValidateReference | lib/cclvarval.cc:43-68 | a reference is followed by name, and its handler records it |
| Validators.Validator.ValidateCall | lib/cclvarval.cc:70-85 | a part of the value is checked in place or by name, and its handler records the step |
| Validators.Validator.ValidateItems | lib/cclvarval.cc:303-368 | every named item is there and meets its schema, or the first that does not is reported |
| Validators.Validator.ValidateOptItems | lib/cclvarval.cc:370-400 | every named item that is there meets its schema |
| Validators.Validator.ValidateAllKeys | lib/cclvarval.cc:402-427 | every key meets the schema |
| Validators.Validator.ValidateAllItems | lib/cclvarval.cc:429-504 | every element meets the schema, in arrays, sets, lists and dictionaries |
| Validators.Validator.Validate | lib/cclvarval.cc:525-545 | wherever the recursion ends: success if and only if the schema under the bytes of `root` accepts, with empty stacks; otherwise the reversed stacks spell the failure from the root |
| Validators.RootIsFound | lib/cclvarval.cc:533-533 | the lookup of `root` finds an entry, made blank if there was none |
| Validators.RootedAssociates | lib/cclvarval.cc:533-533 | and changes no other |
| Strings.FindIsLeftmost | lib/cclstr.cc:45-45 | `find` returns the leftmost match at or behind the position |
| Strings.Split | lib/cclstr.cc:37-65 | the pieces between leftmost matches that do not overlap |
| Strings.Join | lib/cclstr.cc:67-101 | the tokens with the delimiter between them |
| Strings.JoinedLength | lib/cclstr.cc:67-101 | the joined text is as long as the source reserves for it: the tokens, and one delimiter less than there are |
| Strings.Replace | lib/cclstr.cc:130-166 | replacing is splitting by the old and joining by the new text, the identity for an empty old text |
| Strings.JoinUndoesSplit | lib/cclstr.cc:37-101 | joining the pieces gives the text back |
| Strings.SplitUndoesJoin | lib/cclstr.cc:37-101 | splitting a joined list gives the list back if and only if the delimiter first occurs, in each token followed by it, behind that token |
| Strings.ReplaceBySame | lib/cclstr.cc:130-166 | replacing a text by itself changes nothing |
| Strings.EmptyDelimiterStays | lib/cclstr.cc:45-51 | an empty delimiter is found where the search starts, so the loop of `split` never advances |

## Left out

- Strings.Split: requires a non-empty delimiter, because with an empty one the loop of the source does not end (`Strings.EmptyDelimiterStays`).
- Order.CompareLocs: the magnitude returned by `std::string::compare` is reduced to its sign; every user of the order looks at the sign only.
- Heaps.Heap.Insert: the position is given by the caller, since the operation stands for `push_back` as well; where an ordered container puts a member is computed by `Heaps.Heap.Position`, for the insertions of `copy`.
- Heaps.Heap.Copy: key and value of a pair are copied in this order; the language leaves the order of the two calls open.
- Heaps.Heap.Unref: a container's handles are released in slot order; the order the standard containers use is not specified.
- Validators.Validator.CheckRegex: patterns are assumed to compile; `regcomp` errors and POSIX matching itself are outside the model.
- Validators.Validator.ValidatePair: like the methods it calls, requires that its check has an outcome, which it takes as a ghost parameter; that is where the recursion of the source ends (`SchemaEnds.EndsExactly`).
- Validators.Validator.Validate: requires that the recursion ends, with the value accepted or blamed (`SchemaEnds.EndsExactly`, and `SchemaEnds.ClosedDecides` for a condition on the schema alone); elsewhere the source recurses without end.
- JsonParser.Parser.PaJsonValFloat: `strtod` is given the literal alone, although the source hands over the text from the literal's start.
- JsonRoundTrip.RoundTrip: what a float comes back as is whatever `strtod` makes of its six digits; precision is not part of this model.
- An escaped slash ends in the failure `DecoderAssertion`; what a build without assertions does there is not modelled.
- The parser follows the code where it differs from RFC 8259: the root must be an object, white space is bytes 8..13 and 32, `1.` is a float, control bytes may stand in strings, a NUL ends the input.
- Indices of 2^32 bytes and more, and containers of 2^63 elements and more, which the source's types cannot express.
- Sharing of locations among the values of a parse, and of a schema between its owner and the validator: both are modelled on values.
- Names of freed locations are not used again in the model; threads, although the counts of the source are atomic.
- Cyclic values are covered by the counts, not by copy, order or the printers, which are stated on finite trees.
- `operator <<`, `to_string` and `keys` of values: display and enumeration only.
- `regex_c`, `format` and `read_file`.
- `lib/cclcrypto.*`, `lib/cclhttp.*`, `lib/cclcurl.*`, `lib/cclwebs.*`, `lib/cclsys.*` and `lib/cclxml.*`: wrappers around foreign libraries and the operating system.
