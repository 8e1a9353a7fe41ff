# Proofs about the hub's algorithms

A Dafny project that models the parts of the security-log hub that decide something without I/O, and
proves what they promise. Code that works step by step is modelled step by step: its loops are methods with
invariants, its objects are classes, and each method is proved against a function or a predicate about
which the theorems are stated. Where a promise does not hold for all inputs, the exact condition under which
it does is proved as an equivalence, and an input that fails is given.

`dafny verify dfyconfig.toml` checks everything.

| modules | what they model |
|---|---|
| Anchors, Hunks, Diff, DiffText | the anchored diff: longest chain of unique lines, hunks, and their text |
| Glob | the shard pattern matcher |
| Bytes, Arith, Strings, Wrappers | bytes, arithmetic, searching, options and results |
| Bech32Checksum, Bech32, Bech32Codec, Bech32Vector | Bech32 as BIP 173 defines it |
| PatternGrammar, PatternMeaning, PatternShapes, PatternExamples | from the text of a line pattern to a grammar |
| PatternPieces, PatternCaptures | what a pattern asks of a line, said of its literals and holes |
| PatternCompile | from a grammar to linked instructions |
| PatternSplit, PatternEager | what a pattern means, and what its instructions find |
| PatternMachine, PatternBacktrack, PatternMatch | captures, the matching machine, and the whole way from text to record |
| PatternPrinted | the same grammar after it was stored as text |
| Ebnf, EbnfParser, EbnfLanguage, EbnfRound, EbnfPrinter, EbnfDots | grammars, their printer and their parser, over tokens |
| RuneRanges, RuneLookahead | rune sets, first runes of expressions, and the choices made one rune ahead |
| RecordNode, RecordTree, RecordRound | the byte code of records |
| WalkModel, WalkSafety, WalkEnd | the concurrent directory walk |
| WindowModel, WindowSpec, WindowRecords | the sliding-window evaluator |
| EntityForest, EntityRender, EntityEngine | the entity tree of two render generations |
| EntityShown, EntityBrowser | what a pass shows, and the document its instructions build |
| ColumnIndex | the double-hashed column index |
| UlidText, UlidMonotonic | ULIDs: text, order, prefix, monotonic entropy |
| SqlitePool | the connection pool and its savepoints |
| Txtar | text archives |
| Histograms | the high-dynamic-range histogram |

Where the code and its comments differ, the code is modelled. The matcher's comment lets `*` match any
sequence without a slash, and says nothing of `**`; the code drops what stands behind the second star.
The comment on `random` in internal/ulid/ulid.go promises values below `inc`; the code can return `inc`.
The comment on `Monotonic` there guarantees rising entropy within a millisecond; it does not rise after
entropy 0 and after an overflow, as UlidMonotonic.RisesExactly and UlidMonotonic.OverflowFalls say.

## Model

| member | source | states |
|---|---|---|
| Anchors.Tgs | internal/diff/diff.go:189-261 | between the sentinels (0,0) and (len x, len y) the result pairs equal lines that occur once in each text, rising strictly on both sides, and no such chain is longer |
| Anchors.UniqueLines | internal/diff/diff.go:190-222 | xi and yi list exactly the positions of the lines that occur once in each text, in order, and inv sends each to its partner |
| Anchors.Patience | internal/diff/diff.go:224-240 | the label of a position is the length of the longest rising run that ends there, which bounds every chain through it |
| Anchors.Backtrack | internal/diff/diff.go:241-259 | the backward pass picks one position for each label, falling in both coordinates, although lastj is never updated |
| Anchors.ChainsBounded | internal/diff/diff.go:181-189 | every chain of equal, unique, rising lines has at most as many pairs as the highest label |
| Diff.Diff | internal/diff/diff.go:46-164 | nothing exactly for equal texts; otherwise hunks that lead from the old lines to the new ones and, flipped, back; no chain of unique lines is longer than the number of unique lines left unmarked, and no other hunks leave more; every hunk has three lines of context, or fewer at the ends of both texts, never six common lines in a row, and removals before additions |
| Diff.DiffAlong | internal/diff/diff.go:62-162 | along any course of anchors the emitted hunks fit both texts up to their ends, and leave every anchor unmarked |
| Hunks.FitBothWays | internal/diff/diff.go:25-45 | hunks that fit two texts patch the first into the second and back |
| Hunks.FewStay | internal/diff/diff.go:33-36 | whatever hunks lead from one text to the other, the unique lines that they leave unmarked are no more than a chain of unique lines has |
| Diff.EndChunk | internal/diff/diff.go:103-139 | a chunk with lines becomes one more hunk, with at most three lines of trailing context; without lines nothing is written |
| Diff.Stretch | internal/diff/diff.go:74-88 | an anchor grows to the common lines around it as far as they go, but not before what was already written |
| Diff.LinesRecoverText | internal/diff/diff.go:169-179 | splitting into lines loses nothing: the text comes back, with or without a newline at its end |
| DiffText.DiffOf | internal/diff/diff.go:46-164 | the text is empty exactly for equal texts; otherwise, behind its header, the hunks can be read back from it, lead from one text to the other, both ways, and mark the fewest unique lines |
| DiffText.HunksRead | internal/diff/diff.go:131-139 | headings and bodies of any hunks with whole lines are read back from their text, the note about a missing newline included |
| DiffText.LineChanged | internal/diff/diff.go:131-139 | the whole output for one line that changed |
| Glob.Match | internal/shards/pattern.go:255-331 | true exactly when the name splits along the pattern read up to its first `**`, each `*` taking a run without `/` and each `?` one other byte |
| Glob.MatchesSpelled | internal/shards/pattern.go:230-255 | a name splits along a pattern if and only if it is one string for each character of it: any run without a slash for `*`, one other byte for `?`, and the character itself |
| Glob.ScanChunk | internal/shards/pattern.go:335-372 | the pattern is cut into an optional star, a chunk without stars and the rest |
| Glob.MatchChunk | internal/shards/pattern.go:377-460 | the chunk fits at the start of the name or not; what is left is the name behind it |
| Glob.LeftmostSuffices | internal/shards/pattern.go:288-318 | if a chunk followed by a star fits in two places and the later one leads to a match, so does the earlier one |
| Glob.MatchExact | internal/shards/pattern.go:255-331 | the matcher agrees with the meaning of the pattern on all names if and only if only stars follow the first star of its first `**` |
| Glob.AdjacentStarsDiffer | internal/shards/pattern.go:345-349 | `**a` is taken as `*`: it matches "b", which has no such split |
| Bech32Checksum.RunLinear | internal/bech32/bech32.go:34-48 | polymod is linear over exclusive or, in its state and in its symbols |
| Bech32Checksum.ZeroStepInjective | internal/bech32/bech32.go:36-45 | only the zero state steps to zero |
| Bech32Checksum.VerifyChecksum | internal/bech32/bech32.go:63-65 | accepts exactly when the run over the expanded prefix and the data ends in 1 |
| Bech32Checksum.CreateChecksum | internal/bech32/bech32.go:67-77 | returns the six symbols that complete the data |
| Bech32Vector.ExpandedExact | internal/bech32/bech32.go:50-61 | a prefix of n letters gives 2n + 1 symbols with a 0 in the middle, and those before and behind it are the high and the low bits of the small letters |
| Bech32Checksum.ChecksumExact | internal/bech32/bech32.go:63-77 | six symbols complete the data to one that verifies if and only if they are those of createChecksum |
| Bech32Checksum.BurstRejected | internal/bech32/bech32.go:34-65 | of two data parts of any length that differ only within six neighbouring symbols at most one verifies; a single changed symbol is the shortest case |
| Bech32.ConvertBits | internal/bech32/bech32.go:79-105 | regroups the bits although the accumulator wraps at 32 bits: with padding the number is kept and filled up with zeros; without, each error is returned exactly in its case, the illegal padding when a whole input group is left over |
| Bech32Codec.Encode | internal/bech32/bech32.go:109-140 | each error exactly in its case; otherwise a string in the case of the prefix that denotes the prefix and the bytes |
| Bech32Codec.Decode | internal/bech32/bech32.go:143-173 | succeeds exactly on the strings that denote a pair, with that pair; otherwise the error is that of the first test that fails |
| Bech32Codec.DenotesUnique | internal/bech32/bech32.go:143-173 | a string denotes at most one prefix and one byte string |
| Bech32Codec.DenotesOnce | internal/bech32/bech32.go:109-140 | a pair is denoted by one string, up to case |
| Bech32Codec.EncodeThenDecode | internal/bech32/bech32.go:107-173 | decoding an encoding gives back prefix and bytes, for every non-empty single-case prefix of characters 33 to 126 |
| Bech32Codec.DecodeThenEncode | internal/bech32/bech32.go:107-173 | encoding what a string decodes to gives back the string, in lower case when the prefix has no upper-case letter |
| Bech32Vector.ShortestString | internal/bech32/bech32_test.go:31-32 | "a12uel5l" decodes to the prefix a and no bytes, which encode to it |
| PatternSplit.ExecFindsLeast | internal/mdt/backtrack.go:57-184 | run from any position, the instructions find the lexicographically least split of the line, or fail and there is none |
| PatternSplit.MachineIsLeftmost | internal/mdt/backtrack.go:57-184 | a pattern that ends in a stretch accepts exactly the lines that split along it, with the captures of the leftmost split |
| PatternSplit.LiteralEndFails | internal/mdt/compile.go:108-130 | for every pattern that ends in a literal behind a stretch there is a line that splits and is refused |
| PatternSplit.AcceptsExactly | internal/mdt/compile.go:93-130 | accepted lines are the lines that split if and only if the pattern does not end in a literal behind a stretch |
| PatternEager.AcceptsEager | internal/mdt/backtrack.go:57-184 | whatever the pattern ends in, a line is accepted if and only if it has a split in which every literal stands where it is met first; the captures are those of that split |
| PatternEager.EagerIsLeftmost | internal/mdt/backtrack.go:64-84 | when the pattern ends in a stretch that split is the leftmost one |
| PatternGrammar.CompilePattern | internal/mdt/pattern.go:15-100 | the scanning loop, with its three positions, gives a grammar if and only if the text is whole and every hole of its pieces stands first or behind a literal, has a name of small letters, underscores and digits that are not first, and shares it only with holes that no other name parts from it; otherwise the error of the first hole that does not; the grammar has the names of the holes, with the metadata of the first hole of each |
| PatternGrammar.Acceptance | internal/mdt/pattern.go:30-110 | which error each fault of a hole means, and that the panic comes behind them |
| PatternGrammar.BrokenText | internal/mdt/pattern.go:31-50 | a text that is not whole has, behind the pieces that are read, a `:` between two `<` and before a `>` |
| PatternExamples.ThreeNames | internal/mdt/pattern_test.go:15-19 | the grammar of the first pattern of the tests |
| PatternExamples.NameTwice | internal/mdt/pattern_test.go:44-47 | the grammar of a pattern with metadata and a name that comes twice |
| PatternGrammar.PatternAssembles | internal/mdt/pattern.go:15-100 | every text that reads as whole pieces gives the grammar, or the error, assembled from them one by one; a text that is accepted reads as whole pieces |
| PatternGrammar.ReadExact | internal/mdt/pattern.go:26-92 | a text reads as a list of pieces if and only if it is their rendering: literals without a `>` after a `<`, and without a `:` after a `<` before a hole |
| PatternGrammar.ReadWhole | internal/mdt/pattern.go:26-92 | the pieces of a text are in that form, and together they are the text |
| PatternGrammar.BracketInText | internal/mdt/pattern_test.go:21-24 | `<foo> < <bar>` reads as two holes and the literal between them |
| PatternMeaning.GrammarMeansPieces | internal/mdt/pattern.go:26-92 | the grammar of an accepted text without a hole named root has the literals and stretches of its pieces, in order, if and only if no name comes again after another hole |
| PatternMeaning.ResumedName | internal/mdt/pattern.go:51-69 | `<a>,<_>;<a>` is accepted and has not: its last literal goes into the first capture |
| PatternMeaning.MeaningEndsInStretch | internal/mdt/pattern.go:84-92 | an accepted text that ends in a hole asks for a stretch last |
| PatternCompile.Compiler.CompileAny | internal/mdt/compile.go:93-132 | free text compiles to the end of the line, or to a scan for the literal behind it and a skip after the captures that close, and leaves every other program intact |
| PatternCompile.Compiler.CompileToken | internal/mdt/compile.go:82-91 | a token compiles to one instruction a character, in order, in front of what follows |
| PatternCompile.Compiler.CompileName | internal/mdt/compile.go:221-233 | a name compiles to a start, its body and an end, and is cached |
| PatternCompile.Compiler.CompileSequence | internal/mdt/compile.go:134-148 | a sequence compiles, last expression first, to the instructions of all its elements in order |
| PatternCompile.Compiler.CompileExpr | internal/mdt/compile.go:75-237 | any expression a pattern gives compiles to the instructions of its elements, in front of those that follow |
| PatternCompile.LinkScan | internal/mdt/compile.go:109-130 | replacing the characters of the literal by one scan and one skip links the program of free text followed by what was there |
| PatternShapes.PatternRegular | internal/mdt/pattern.go:15-100 | the grammar of an accepted text is one that compiles to a straight program if and only if the text is not empty and no hole is named root |
| PatternShapes.IrregularPatterns | internal/mdt/pattern.go:94-99 | the texts "" and `<root>` are accepted, and their grammars are not regular |
| PatternShapes.ElementsAgree | internal/mdt/compile.go:61-66 | the compiler visits exactly the elements of the grammar |
| PatternShapes.CompileGrammar | internal/mdt/compile.go:61-66 | the compiled root is the instructions of the grammar's elements, then the end of the match |
| PatternMachine.Captures.StartCap | internal/mdt/backtrack.go:195-208 | one start with its name and position is added, and names already referred to keep their numbers |
| PatternMachine.Captures.EndCap | internal/mdt/backtrack.go:212-214 | one end with its position is added |
| PatternMachine.Add | internal/mdt/record.go:324-341 | the node becomes the last child of the root, and no other node changes |
| PatternMachine.Clean | internal/mdt/record.go:344-360 | the children left are those the pairwise cleaning rule leaves, in order |
| PatternMachine.CleanExact | internal/mdt/record.go:344-360 | cleaning keeps exactly the captures that are not empty if and only if all are empty, or the first is not and no two empty ones are neighbours |
| PatternMachine.BuildRecord | internal/mdt/backtrack.go:216-231 | from starts and ends in pairs the root gets one child for each pair, with name and bounds, less those cleaned away |
| PatternBacktrack.Backtrack | internal/mdt/backtrack.go:25-184 | the machine accepts exactly the lines its program accepts, and returns the record of the captures made, or the whole line |
| PatternMatch.SafeOps | internal/mdt/backtrack.go:64-84 | a compiled program never skips past the end of the line |
| PatternMatch.SplitIsFill | internal/mdt/pattern.go:15-100 | a line splits along a pattern if and only if it is the pattern with some text for every stretch |
| PatternPieces.SplitsAsPieces | internal/mdt/pattern.go:15-100 | a line splits as a pattern asks if and only if it is one string for each piece, a literal standing for itself; literals are met first if and only if none is held by the string before it |
| PatternCaptures.SplitCaptures | internal/mdt/pattern.go:50-82 | the captures of a split are one for each name, in the order of their first holes, each from the place of the first hole of the name to the end of the last |
| PatternMatch.ReadLine | internal/mdt/compile.go:53-66 | compiling and running a regular grammar accepts exactly the lines with a split in which every literal stands where it is met first, with the record of that split; all lines that split, when the pattern ends in a stretch |
| PatternMatch.PatternExact | internal/mdt/compile.go:93-148 | a compiled pattern accepts exactly the lines that split if and only if it is one expression or does not end in a token |
| PatternMatch.NoneCleaned | internal/mdt/record.go:344-360 | when no capture is empty none is cleaned away |
| PatternMatch.MatchPattern | internal/mdt/record.go:39-63 | from any pattern text to the record of a line: accepted texts and errors as for CompilePattern; the lines accepted are those that split into the elements of the grammar with every literal where it is met first, with the captures of that split; if no name comes again after another hole, these are the lines made of one string for each piece, none of which holds the literal behind it (any strings when the text ends in a hole), and the captures are where the holes are |
| PatternMatch.SecondCaptureLost | internal/mdt/record.go:39-63 | `<a>;<b>` matches ";x" with "x" for b, and the record has no capture at all: the empty one of a takes the other along |
| PatternPrinted.StoreAndLoad | hub/notebook.go:131 | the grammar of an accepted text is printed and parsed again without an error if and only if no hole has an empty name; it comes back the same, but for a root of one expression, which loses its sequence, if and only if the text is not empty either |
| PatternPrinted.NamelessText | hub/notebook.go:325 | the text `<>` is accepted, and its stored form does not parse without an error |
| PatternPrinted.TrimmedElements | hub/notebook.go:325 | that root has the same elements, and so compiles to the same program |
| PatternPrinted.WrittenTokens | internal/mdt/pprint.go:40-74 | the tokens that are printed for two productions of a pattern |
| WalkSafety.StepKeeps | cells/logstream/sftp.go:452-537 | every step of coordinator, worker, collector and caller keeps the invariant |
| WalkSafety.RunKeeps | cells/logstream/sftp.go:452-537 | the invariant holds after every interleaving |
| WalkEnd.WalkIsSafe | cells/logstream/sftp.go:479-513 | inflight counts the paths handed out and not answered, pop and pull are closed only when nothing is outstanding, nothing is sent on a closed channel, and there are at most 16 workers |
| WalkEnd.NeverStuck | cells/logstream/sftp.go:452-537 | until the walk returns, some step is enabled |
| WalkEnd.WalkEnds | cells/logstream/sftp.go:452-537 | over n paths no run has more than 24 n + 30 steps |
| WalkEnd.WalkReturns | cells/logstream/sftp.go:515-536 | an error exactly when a reachable path fails; otherwise every reachable matching file, each once |
| WindowModel.Evaluator.Process | internal/piql/impeller.go:119-217 | one record changes window, groups, captures and output as one step of the specification |
| WindowModel.Evaluator.SlideWindow | internal/piql/impeller.go:220-309 | no place for a record without a timestamp, or for a late one in an empty window; a newer one slides the window; a late one shares the last place |
| WindowModel.Evaluator.Compact | internal/piql/impeller.go:275-300 | what left the window is counted down once, and what stays keeps its order |
| WindowModel.Evaluator.MatchRecord | internal/piql/impeller.go:136-213 | the record is captured, counted in its group and, once there are enough, its partition is offered |
| WindowModel.Evaluator.Offer | internal/piql/impeller.go:186-213 | exactly the entries of the partition not offered yet are appended to the output and marked |
| WindowSpec.WMinMoves | internal/piql/impeller.go:231-262 | the start of the window is a multiple of the hop, moves forward only, and is never after the newest record |
| WindowSpec.KeepWindow | internal/piql/impeller.go:220-309 | sliding keeps exactly the entries still in the window |
| WindowSpec.ExitMembers | internal/piql/impeller.go:275-300 | each group counts down by its records that leave, and by no others |
| WindowSpec.NextTracks | internal/piql/impeller.go:119-321 | one more record after the epoch keeps window, counts and output those of the stream so far |
| WindowSpec.EvaluatorExact | internal/piql/impeller.go:119-321 | after every stream with rising timestamps each group counts its referenced window entries, all of them inside the window, and the output holds exactly the records due, none twice; records without a timestamp or not after the epoch have no part in it |
| WindowRecords.PassesExact | internal/piql/impeller.go:136-145 | a record with every filtered field once at most passes if and only if every plain clause has a field that satisfies its test, and no negated one has |
| WindowRecords.PassesAlways | internal/piql/impeller.go:136-145 | any record passes if and only if every plain clause finds a field, and for every negated one the fields of its name end with an even number that satisfy the test |
| WindowRecords.TwiceForbidden | internal/piql/impeller.go:136-145 | a record with a forbidden value twice passes |
| WindowRecords.KeyExact | internal/piql/ops.go:54-60 | with values free of the separator, two records share a partition if and only if the last values of every partition field are equal |
| WindowRecords.SeparatorCollides | internal/piql/ops.go:54-60 | with the separator in a value, records with other values share one |
| WindowRecords.WMinExact | internal/piql/impeller.go:258-262 | the window moves once the newest record is its length behind the start, to the last multiple of the hop that leaves it that length |
| WindowRecords.FiresExact | internal/piql/windowfuncs.go:33-36 | a record fires if and only if it passes and at least as many records as the limit says are in the window and its partition |
| WindowSpec.OnlyLively | internal/piql/impeller.go:220-236 | records without a timestamp, and those at or before the epoch, leave the evaluator as it was |
| WindowSpec.OutputExact | internal/piql/impeller.go:186-213 | the records offered are those that some later record of their partition fires for, each once |
| WindowRecords.OutputOrder | internal/piql/impeller.go:186-213 | the output only grows, and what one record adds is in the order of the stream |
| WindowSpec.LateRecord | internal/piql/impeller.go:225-236 | a record that is not newer keeps counts and window in agreement if and only if it does not pass or the entry it shares holds no reference |
| WindowSpec.SameRecordTwice | internal/piql/impeller.go:225-236 | the same record twice is counted twice and held once |
| EntityForest.FlatNested | rx-browser/rx/etree.go:4-16 | the array of any forest is a well-nested preorder with exact subtree sizes |
| EntityForest.FindStands | rx-browser/rx/etree.go:65-99 | an entity is in the forest exactly when the array holds its subtree in one piece |
| EntityForest.EnclosingIsChain | rx-browser/rx/etree.go:74-88 | going back over the array from an entity gives exactly its enclosing entities, innermost first |
| EntityRender.RenameFlat | rx-browser/rx/etree.go:38-58 | renaming a subtree gives its array fresh entities in order, with scopes and handlers kept |
| EntityRender.PassIssues | rx-browser/rx/engine.go:195-197 | a render pass hands out distinct entities, all of the parity of its generation |
| EntityRender.AllAnnounced | rx-browser/rx/render.go:166-231 | what is announced to the browser is exactly the entities of a reused subtree whose name changed, each one once and in order |
| EntityShown.KeysShown | rx-browser/rx/render.go:166-231 | every key of the nodes but those of trees that were not found is shown, in the order of the nodes |
| EntityShown.ElementShown | rx-browser/rx/render.go:166-231 | every element with a key or a handler is shown with it, and the keys below it are below it there |
| EntityBrowser.BrowserAgrees | rx-browser/webc/datacell.ts:439-560 | run as the browser does, the instructions of a pass build a document that shows the nodes, and whose named elements are the entities of the engine's array, nested alike |
| EntityEngine.Engine.TurnCrank | rx-browser/rx/engine.go:102-130 | after a pass the shown forest is the rendered one, well nested, and shares no entity with the one shown before |
| EntityEngine.Engine.Serialize | rx-browser/rx/render.go:166-231 | visiting the nodes appends the array of the rendered forest, advances the counter and announces the renamings |
| EntityEngine.Engine.Carry | rx-browser/rx/etree.go:38-58 | reusing a subtree appends it with new entities, or nothing if it was not shown |
| EntityEngine.Engine.Locate | rx-browser/rx/etree.go:90-99 | the index of the entity in the array, or -1 exactly when it is not there |
| EntityEngine.Engine.Children | rx-browser/rx/etree.go:65-72 | the subtree of the entity, or nothing |
| EntityEngine.Engine.Parents | rx-browser/rx/etree.go:74-88 | exactly the enclosing entities of the shown forest, innermost first, starting with the entity |
| EntityEngine.Engine.Handler | rx-browser/rx/engine.go:143-166 | the nearest enclosing entity with a handler for the intent, for events of the shown generation only |
| EntityEngine.Engine.Swap | rx-browser/rx/engine.go:117-130 | the generations change places; the new one has none of the old one's entities |
| RecordNode.DeltaRoundTrip | internal/mdt/record.go:847-882 | bounds come back from their delta coding, whatever follows |
| RecordNode.NodeExact | internal/mdt/record.go:806-845 | a node comes back if and only if the length of its name is below 63 or has the bit of value 32 clear |
| RecordNode.NodeLost | internal/mdt/record.go:806-845 | otherwise, if a node comes back at all, its name is 32 bytes short |
| RecordNode.LongNameLost | internal/mdt/record.go:806-845 | a name of 63 bytes does not come back |
| RecordNode.NodeBytes | internal/mdt/record.go:806-882 | the bytes of three nodes, one for each coding of bounds |
| RecordTree.SerNode | internal/mdt/record.go:738-761 | writes the heads in preorder, children behind their length |
| RecordTree.NestedBytes | internal/mdt/record.go:738-761 | the bytes of a capture in a capture |
| RecordTree.DsrNode | internal/mdt/record.go:763-804 | reads as many nodes as there are and links them as the specification run does, or stops where the code would panic |
| RecordRound.ComesBack | internal/mdt/record.go:738-804 | a forest where at most one ancestor ends at any record start comes back with all names, bounds and links |
| RecordRound.RecordExact | internal/mdt/record.go:738-804 | what was written comes back node for node and link for link if and only if at most one ancestor ends before any sibling |
| RecordRound.DeepRecordLost | internal/mdt/record.go:763-804 | a capture three levels deep, with a sibling behind the outermost one and none of them empty, does not come back |
| EbnfParser.Parser.ParseFile | internal/mdt/ebnf_parser.go:193-213 | the parser state after a file is that of the recursive definition of the grammar, errors counted |
| EbnfParser.Parser.ParseExpression | internal/mdt/ebnf_parser.go:143-161 | the expression, the position and the errors are those of the definition at the position before |
| EbnfParser.Parser.ParseTerm | internal/mdt/ebnf_parser.go:76-113 | a term, or none, with the position and the errors of the definition |
| EbnfLanguage.ParsesExactly | internal/mdt/ebnf_parser.go:180-213 | the parser reports no error if and only if the tokens are a text of the language that its comment defines, with different names, and then the grammar holds exactly these productions |
| Ebnf.TokensAre | internal/mdt/ebnf.go:68-105 | the tokens of a production with every kind of expression |
| EbnfRound.ParsesExpression | internal/mdt/ebnf.go:68-105 | the printed tokens of an expression in normal form parse to that expression, without an error |
| EbnfRound.ParsesProduction | internal/mdt/ebnf_parser.go:163-178 | a printed production parses to itself, with its metadata |
| EbnfRound.ParsesFile | internal/mdt/ebnf_parser.go:193-213 | printed productions parse to the grammar that holds them, with one error for every name that was there already |
| EbnfPrinter.PrintedNames | internal/mdt/pprint.go:40-74 | the productions printed are those listed and those of the names met since |
| EbnfPrinter.PrintedFaithful | internal/mdt/pprint.go:40-74 | every printed production is one of the grammar, unchanged |
| EbnfPrinter.PrintParse | internal/mdt/pprint.go:8-74 | for names the scanner can return and expressions in parser normal form, parsing the printed tokens gives exactly the productions reachable from the start, unchanged but for sequences of one term; there is an error if and only if the start is itself used |
| EbnfPrinter.RoundTrip | hub/notebook.go:325 | through both programs any grammar without undefined names is printed, and what comes back is what the definition of the parser makes of these tokens; with names and expressions as above, the productions reachable from the start |
| EbnfDots.FileDots | internal/mdt/ebnf_parser.go:76-213 | in whatever parses without an error, a name stands first and behind every dot |
| EbnfDots.NamelessReported | internal/mdt/ebnf_parser.go:163-213 | a grammar in which a production without a name is reached is printed to text that does not parse without an error |
| RuneRanges.MinRangesExact | internal/mdt/compile.go:347-367 | the same runes, in ranges in order that neither overlap nor touch |
| RuneRanges.MinRange | internal/mdt/compile.go:351-367 | the in-place pass leaves the minimal form in front |
| RuneRanges.RangeExcl | internal/mdt/compile.go:263-290 | the exact difference of two listed sets of ranges if and only if they do not both reach the largest rune; if they do, the whole last range of the first set is left in |
| RuneLookahead.FirstRune | internal/mdt/compile.go:303-345 | every string an expression derives is empty or starts with one of its runes |
| RuneLookahead.RunesStart | internal/mdt/compile.go:303-345 | every character among the runes of an expression starts a string it derives, if in its sequences all that stands before what is looked at can be empty |
| RuneLookahead.LaterCounted | internal/mdt/compile.go:318-327 | otherwise runes are counted that cannot come first |
| RuneLookahead.MaxIsAny | internal/mdt/compile.go:303-345 | the runes of an expression reach the largest one only if they are all runes |
| RuneLookahead.ChooseAlternative | internal/mdt/compile.go:166-194 | no branch is dropped on a rune it can start with, and a branch is followed alone exactly when the other cannot start with the rune, if and only if not both sets reach the largest rune; if both do, the first branch is dropped on every rune of the last range of the second |
| RuneLookahead.ChooseRepetition | internal/mdt/compile.go:196-211 | another turn is taken alone exactly on runes that cannot follow, if and only if not both sets reach the largest rune; if both do, the repetition is never left on a rune of its last range; at the end of the line it can be left |
| RuneLookahead.NoBranchDropped | internal/mdt/backtrack.go:108-128 | a branch that derives a non-empty string at this place is among those followed |
| RuneLookahead.DroppedExactly | internal/mdt/backtrack.go:108-128 | between branches without a common first rune, a branch that derives a string is dropped exactly when that string is empty and what follows does not pick it |
| RuneLookahead.CompileAlternative | internal/mdt/compile.go:150-194 | between two branches of a grammar every one that derives what comes next is followed if and only if not both can start with any rune; else the first one is dropped whatever comes next; one rune tells them apart exactly when they share none and the first does not reach the largest |
| RuneLookahead.FreeTextsClash | internal/mdt/compile.go:166-194 | free text, or free text and then "x": on "y" the first branch, which derives it, is dropped, and the second does not derive it |
| RuneLookahead.FollowSequence | internal/mdt/compile.go:134-148 | the loop over a sequence hands each element the runes of what is behind it |
| RuneLookahead.FollowCovers | internal/mdt/compile.go:134-148 | these runes cover everything that can follow, if each element that can be empty carries |
| RuneLookahead.FollowReached | internal/mdt/compile.go:134-148 | for such elements these runes are no more than what can follow |
| RuneLookahead.FollowMisses | internal/mdt/compile.go:239-254 | an element that can be empty and does not carry hides the runes behind it that it cannot start with |
| RuneLookahead.GroupHidesFollow | internal/mdt/compile.go:239-254 | a group around an option is such an element |
| ColumnIndex.ProbesApart | rx-browser/datacell/fields.go:49-63 | with an odd stride the probe looks at 512 different slots in 512 steps |
| ColumnIndex.Fields.Slot | rx-browser/datacell/fields.go:49-63 | the probe ends, at the first slot that is free or holds the column |
| ColumnIndex.Fields.Idx | rx-browser/datacell/fields.go:76-85 | the number of the column, or -1 exactly when it is not there, although 0 marks the first column and a free slot |
| ColumnIndex.Fields.Conj | rx-browser/datacell/fields.go:86-94 | a column that is there is found and nothing changes; a new one is added once, at the end; at 512 columns the code panics |
| UlidText.MarshalTextTo | internal/ulid/ulid.go:327-366 | the 26 letters of the 5-bit groups, when the buffer has 26 places |
| UlidText.Parse | internal/ulid/ulid.go:178-249 | each error exactly in its case; on letters of the encoding it succeeds exactly on the texts of identifiers, in either case, with that identifier |
| UlidText.MarshalThenParse | internal/ulid/ulid.go:178-366 | parsing a marshalled identifier gives it back, strictly or not |
| UlidText.TextOrder | internal/ulid/ulid.go:327-366 | texts sort as the bytes of their identifiers do |
| UlidText.PrefixOfText | internal/ulid/ulid.go:368-394 | the text of the prefix is the start of the text of the identifier |
| UlidMonotonic.MonotonicEntropy.Add | internal/ulid/ulid.go:736-742 | the sum on 80 bits, with an overflow exactly when it needs more |
| UlidMonotonic.MonotonicEntropy.MonotonicRead | internal/ulid/ulid.go:646-666 | new entropy and the entropy held after the call, errors included: in the same millisecond, after an entropy that is not 0, the sum with the increment, or on overflow the sum on 80 bits; otherwise what is read |
| UlidMonotonic.MonotonicEntropy.New | internal/ulid/ulid.go:98-113 | the identifier of the time and of that entropy, which its bytes say, the highest first, or its error; no identifier from 48 bits of time on |
| UlidMonotonic.OrderedByTime | internal/ulid/ulid.go:478-494 | identifiers and their texts are ordered by time, and by entropy within one millisecond |
| UlidMonotonic.MonotonicEntropy.Several | internal/ulid/ulid.go:98-113 | identifiers made one after the other in one millisecond, after an entropy that is not 0, rise strictly, as bytes and as texts, whatever is read and whichever calls fail, up to an overflow |
| UlidMonotonic.RunRises | internal/ulid/ulid.go:646-666 | of any two identifiers in a run of calls within one millisecond, after an entropy that is not 0, the later one is larger, as bytes and as text, if no call before it has overflowed |
| UlidMonotonic.RisesExactly | internal/ulid/ulid.go:585-655 | the next identifier of the millisecond comes after the last one, whatever is read, if and only if the entropy of the last one is not 0 |
| UlidMonotonic.OverflowFalls | internal/ulid/ulid.go:659-742 | after an overflow the entropy held is smaller than before, and unless it is 0 the next identifier of the millisecond comes before the last one given out |
| UlidMonotonic.ZeroComesAgain | internal/ulid/ulid.go:646-655 | after entropy 0 the same identifier can come twice |
| SqlitePool.StepExact | internal/sqlite/pool.go:78-166 | a call keeps every connection in exactly one place, and nested savepoints on a live connection, if and only if the savepoint that took the connection gives it back once and after those nested in it |
| SqlitePool.PoolIsSafe | internal/sqlite/pool.go:78-166 | in every such run no connection is twice in the free list or in it while in use, and all are back once everything has ended |
| SqlitePool.OnceExact | internal/sqlite/pool.go:111-166 | after any run every connection is in exactly one place if and only if every savepoint that took one ends in one of these two ways |
| SqlitePool.DisciplineExact | internal/sqlite/pool.go:78-166 | a run is such a run if and only if every savepoint that took a connection ends once, by a release that rollbacks may follow or by one rollback, and nested savepoints end before the one that took it |
| SqlitePool.RolledBackTwice | internal/sqlite/pool.go:138-151 | rolling a savepoint back twice puts its connection back twice |
| SqlitePool.SharedConnection | internal/sqlite/pool.go:98-151 | then the linked list is a ring, and two callers in turn get the same connection |
| SqlitePool.FailedOpenLoses | internal/sqlite/pool.go:78-96 | when the first statement of a savepoint fails, the connection taken for it is lost |
| SqlitePool.Connections.Open | internal/sqlite/pool.go:78-109 | a savepoint on the connection of the context, or on the first of the free list |
| SqlitePool.Connections.Release | internal/sqlite/pool.go:111-134 | the linked list and the savepoint change as the step says, unless the connection is in the list already; it becomes the head in any case |
| SqlitePool.Connections.Rollback | internal/sqlite/pool.go:138-151 | nothing after a release; otherwise the linked list changes as the step says, unless the connection is in the list already; it becomes the head in any case |
| SqlitePool.Connections.Finish | internal/sqlite/driver.go:311-325 | rows put their connection back once, and the linked list changes as the step says unless it is in the list already |
| Txtar.FindFileMarker | internal/txtar/archive.go:143-155 | what is before the first marker line, its name and what is behind it, although only lines behind a newline and a dash are looked at |
| Txtar.ArchiveExact | internal/txtar/archive.go:62-93 | formatting and parsing give an archive back if and only if its contents are empty or end in a newline and hold no marker line, and its names are trimmed, not empty and on one line |
| Txtar.ParsedWell | internal/txtar/archive.go:83-93 | what is parsed from any text is such an archive |
| Txtar.FormatThenParse | internal/txtar/archive.go:62-93 | the same, run through both programs |
| Txtar.OneFile | internal/txtar/archive.go:62-76 | the text of a comment and a file, both without a newline at their end |
| Histograms.Histogram.Record | internal/metrics/hist.go:80-110 | every counter holds the number of recorded values in its bounds |
| Histograms.SlotIs | internal/metrics/hist.go:80-110 | a value is counted where it lies in the bounds, below them or above them |
| Histograms.OneSlot | internal/metrics/hist.go:80-110 | and it lies in one place only |
| Histograms.NoneLost | internal/metrics/hist.go:80-110 | the counters add up to the number of values |
| Histograms.Widths | internal/metrics/hist.go:131-159 | bounds rise; they are 16 apart below 256 and at most a sixteenth of the lower one from there on |
| Histograms.BoundsAre | internal/metrics/hist.go:131-159 | the bounds in closed form: multiples of 16 up to 256, then sixteenths of every power of two |
| Histograms.HistBuckets | internal/metrics/hist.go:131-159 | the array holds the bounds that Record counts by, between the infinities |

## Left out

What the repository does and the model does not:

- HTTP handlers, storage, login, cloud clients, SSH and SFTP traffic: input and output.
- Access policies, the LRU cache, the pill iterator, random names and the node pool: not modelled.
- Shard patterns in their long form (`Parse`, `ReplaceShard`, `CompileWithWildcards`): not modelled.
- Glob.Match, Glob.ScanChunk, Glob.MatchChunk: do not model character classes, escapes and named segments; characters are ASCII.
- Bech32Checksum.VerifyChecksum, Bech32Checksum.CreateChecksum: do not model prefixes with characters outside ASCII.
- Bech32Codec.Decode: does not model characters outside ASCII. The code accepts some of them: the Kelvin sign is lowered to "k" in a text without other lower-case letters.
- Bech32Codec.DecodeThenEncode: does not hold for such a text, which decodes and encodes to another one.
- PatternGrammar.CompilePattern: does not model characters outside ASCII; the positions it reports in errors are left out.
- PatternMatch.MatchPattern: does not model a hole named root, whose grammar compiles to a program that refers to itself, the empty text, on which the compiler panics, 128 or more captures, and lines of more than 65535 bytes or with characters outside ASCII.
- PatternMatch.ReadLine, PatternShapes.CompileGrammar: do not model grammars other than those that CompilePattern builds.
- PatternCompile.Compiler.CompileExpr, PatternCompile.Compiler.CompileSequence: do not model alternatives, options, repetitions, groups and ranges; RuneLookahead has the choices these compile to.
- PatternCompile.Compiler.CompileAny: does not model free text straight before a capture, a case CompilePattern refuses.
- PatternCompile.Compiler.CompileName: does not model a name that is met again, whose program is taken from the cache with its first continuation.
- PatternBacktrack.Backtrack: does not model splits and lookahead, so no second thread; the programs of patterns have none.
- PatternMachine.Add, PatternMachine.Clean, PatternMachine.BuildRecord: do not model captures in captures, which patterns do not make.
- RuneLookahead.CompileAlternative: does not model two ranges, which become one instruction, and alternatives of more than two branches, on which the code panics.
- RuneLookahead.FollowSequence: does not model that mergeranges appends to la1 and sorts it in place, which a caller can see where its slice has spare capacity, nor the runes that an alternative hands to its branches.
- RuneLookahead.FollowCovers: does not say that the condition is needed; an element that breaks it can start with every rune that follows.
- EbnfParser.Parser.ParseFile, EbnfParser.Parser.ParseExpression, EbnfParser.Parser.ParseTerm: do not model the text of errors, only their number, nor the quotes in the name of a production that starts with a literal.
- EbnfPrinter.RoundTrip: does not model a reached name that is undefined, on which the code panics, and says which productions come back only when names are ASCII identifiers and expressions are in parser normal form. White space and quoting belong to the scanner, which is not part of this model.
- EbnfPrinter.PrintParse: takes such names and expressions only.
- PatternPrinted.StoreAndLoad: does not model a hole named root.
- WalkEnd.WalkReturns: takes the server as an oracle over a finite tree of paths; that a listing stops after its first batch of names is left out.
- WindowSpec.EvaluatorExact: takes one rule with one window, one partition and one limit, and sends that are never dropped; timeouts and tracing are left out.
- RecordRound.RecordExact: takes names that keep their length, as RecordNode.NodeExact says, and bounds in the coded ranges.
- EntityBrowser.BrowserAgrees: does not model that a tree that is moved leaves the document before, so that a part of it cannot be moved again; renamings are kept with the tree moved before them, where the browser looks the old name up in all of the new document.
- EntityEngine.Engine.TurnCrank: takes ids below 1024; classes, attributes and texts of elements are left out.
- ColumnIndex.Fields.Conj: does not model insertion before the end and the reset of the index, after which numbers in the table are stale.
- UlidMonotonic.MonotonicEntropy.MonotonicRead: takes what the readers deliver as parameters; the fast path through a random generator and the bits that candidates are made of are left out.
- SqlitePool.Connections.Release, SqlitePool.Connections.Rollback: say only what the head of the list is when a connection is put back that is in it already; SqlitePool.SharedConnection has the shortest ring.
- Txtar.ArchiveExact: takes ASCII; the space trimmed from a name is also U+0085 and U+00A0 and wider space in the code.
- SqlitePool.Connections.Open: does not model waiting for a connection, and the failure of its first statement.
- Histograms.Histogram.Record: does not model the wrap-around of counters and concurrent calls.
