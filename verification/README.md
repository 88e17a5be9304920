# Verified models of mpc, tree.h and the RBML assembler

This project models three parts of the repository in Dafny and proves what they are for.

**The parser combinator library (`mpc/mpc.c`, modules `Mpc*`).** `MpcTypes` has one parser constructor for each parser type.
`MpcBigStep.Eval` is the meaning of a parser as plain recursion (with a bound on its depth), `MpcMachine.Step` one turn of the
library's flat loop over its parser, state and result stacks, and `MpcEngine` that loop in place: an input object, two growing
array stacks, and one method for each case of the loop's switch. The results: the loop computes exactly the recursive meaning,
diverging exactly when the meaning does; its stacks are never misused in any reachable state (`MpcDiscipline`); every output is
used up exactly once, by a fold, an apply, a destructor or the caller (`MpcConservation`); position, row and column and all saved
marks are those of the text in every state (`MpcTracking`); failing parsers give the input back; predictive parsing is sound when
there is nothing to undo; grammars without left recursion terminate (`MpcRanking`, `MpcTermination`), rules that start with
themselves never do (`MpcLeftRecursion`), and repetitions do exactly if their body moves on (`MpcRepetition`); compiled regular
expressions compute prioritised greedy matching; the syntax tree of a compiled grammar has the text read at its leaves;
`MpcParses` puts these together with the loop in place; the laws of `MpcLaws` say what each kind of parser does with results,
errors, outputs and the input, and that no error given up on the way is forgotten; unescaping undoes escaping; file and pipe input
read what string input reads (`MpcModes`, `MpcSessions`), and exactly when a pipe stops doing so.

**The red-black tree (`src/tree.h`, modules `Rb*`).** `RbTree.Head` is the tree with parent pointers, rotations and repair loops
in place, instantiated for the assembler's symbols as in `src/code.c`. `RbHeap` relates the linked nodes to a tree value with a
hole (a path), `RbColours` has the colour conditions and what each repair step does to them, `RbOrder` the search order. Every
operation is proved against the sequence of symbols in order: insertion, removal, search, first and last, next and previous,
iteration, and the height bound.

**The assembler and its machine (`src/symbol.c`, `src/code.c`, `src/rbml_parser.y`, `src/rbml.h`, `src/rbml.c`, modules `Symbols`
and `Rbml*`).** `RbmlSource` is an assembler that reads its source twice, `RbmlAssembler` the one-pass backpatching assembler as a
function, `RbmlCode` the same in place over a growing array and the red-black tree. `RbmlCpu` is one step of the machine,
`RbmlEmulator` the emulator in place, `RbmlArithmetic` and `RbmlInstructions` what its instructions leave behind,
`RbmlInterpreter` a source-level interpreter that works on statements and labels, `RbmlToolchain` assembler and emulator one after
the other, `RbmlCalls` the protocol of CALL and END, and `RbmlNesting` calls within calls and the CALL at address 0. The results:
one pass equals two passes for every source, the reported errors are exactly the duplicate labels and the unresolved references,
the emulator in place, loaded with what the assembler in place wrote, runs step for step as the source-level program, the flags of
subtraction and multiplication are right exactly for the operands named, and every END of a nested run returns behind its CALL.

Where the code differs from its documentation the model follows the code: COUNT runs its body until it fails and then compares, OR
of no parsers succeeds, BRLE branches on greater or less, and subtraction tests for the overflow of the sum. The flags of
subtraction and multiplication, the way back to a CALL at address 0, and a pipe's agreement with string input are not always
right; the theorems say exactly when they are.

`dafny verify dfyconfig.toml` checks everything.

## Model

| member | source | states |
|---|---|---|
| MpcErrors.FurthestIsFurthest | mpc/mpc.c:188-224 | the merged error lies at the furthest of the positions, and one of the errors is there |
| MpcErrors.MergedExpects | mpc/mpc.c:188-224 | unless a furthest error is a failure, the merged error expects exactly what the furthest errors expect, each once |
| MpcErrors.MergedIsRight | mpc/mpc.c:188-224 | with failures too: the merged error has the first failure among the furthest errors or, if there is none, expects exactly what they expect, beginning with what the first of them expects |
| MpcErrors.JoinedList | mpc/mpc.c:226-258 | the list in the error of a repetition: commas, and "or" before the last |
| MpcErrors.DecimalNumber | mpc/mpc.c:264-272 | the number in the error of COUNT is written in decimal digits |
| MpcErrors.MergeErrors | mpc/mpc.c:188-224 | the two loops compute the merged error |
| MpcErrors.AddExpected | mpc/mpc.c:83-90 | the duplicate-free extension of the expected list |
| MpcInput.Input.Mark | mpc/mpc.c:423-437 | the cursor goes on the mark stack unless backtracking is disabled |
| MpcInput.Input.Unmark | mpc/mpc.c:439-452 | the newest mark is dropped unless backtracking is disabled |
| MpcInput.Input.Rewind | mpc/mpc.c:454-466 | position, row, column and last character are those of the newest mark, which is dropped; nothing happens when backtracking is disabled |
| MpcInput.Input.Success | mpc/mpc.c:564-591 | position, row, column and last character after one character |
| MpcInput.Input.Character | mpc/mpc.c:593-627 | the one-character parsers: when they accept, and where the input is afterwards |
| MpcInput.Input.Literal | mpc/mpc.c:629-649 | a literal is read as far as it matches, and given back if it does not match and backtracking is enabled |
| MpcModes.StreamInput.Mark | mpc/mpc.c:423-437 | in file and pipe mode, marking starts the buffer and keeps it in step with the stream |
| MpcModes.StreamInput.Unmark | mpc/mpc.c:439-452 | after dropping a mark, what is still to be read is what a string would give if and only if a pipe's last mark is dropped where the pipe stands; otherwise it is only what the pipe has left |
| MpcModes.StreamInput.Rewind | mpc/mpc.c:454-466 | after going back, what is still to be read is what a string would give if and only if, in a pipe, nothing was read since the outermost mark or since the mark when the end was seen; otherwise it is only what the pipe has left |
| MpcModes.StreamInput.Getc | mpc/mpc.c:468-505 | buffer and stream together give the next character of what is still to be read, in step with a string or not |
| MpcModes.StreamInput.Peekc | mpc/mpc.c:507-542 | the next character, NUL at the end, with nothing read |
| MpcModes.StreamInput.Failure | mpc/mpc.c:544-562 | putting a character back keeps buffer and stream in step |
| MpcModes.StreamInput.Success | mpc/mpc.c:564-591 | accepting a character extends the buffer exactly when it came from the pipe |
| MpcModes.StreamInput.Character | mpc/mpc.c:593-627 | reads a character of what is still to be read, in step or not; in step it accepts and advances exactly as string mode does |
| MpcModes.StreamInput.Literal | mpc/mpc.c:629-649 | literals read as in string mode; afterwards a pipe still has what a string would give if and only if no characters had to be given back that it no longer has, and otherwise has lost exactly those |
| MpcModes.LostInPipe | mpc/mpc.c:454-466 | a concrete pipe that has lost a character which a string still has |
| MpcSessions.AskStream | mpc/mpc.c:420-649 | after a call of any kind a pipe has still to give what a string would if and only if the call is safe for it; a file always has |
| MpcSessions.TellsTheSame | mpc/mpc.c:420-649 | any client, whose calls may depend on all answers so far, is told by a file, and by a pipe as long as its calls are safe, what a string would have told it |
| MpcSessions.AskStringAll | mpc/mpc.c:420-649 | what a string input answers to any number of calls of a client, and where it is then |
| MpcSessions.AskStreamAll | mpc/mpc.c:420-649 | a file input gives the client the same answers and gets to the same place, and so does a pipe whose calls are all safe |
| MpcStacks.ShrunkHolds | mpc/mpc.c:810-816 | the shrinking rule never cuts into the live part of a stack, and does shrink it |
| MpcStacks.Capacities | mpc/mpc.c:802-816 | growing gives 3/2 of one slot more, rounded up, shrinking 2/3 of one slot less, rounded down |
| MpcStacks.PairStack.Push | mpc/mpc.c:802-823 | pushing, with the growth rule, appends to the live contents |
| MpcStacks.PairStack.Pop | mpc/mpc.c:810-830 | popping, with the shrinking rule, removes exactly the top |
| MpcStacks.Stack.PushResult | mpc/mpc.c:871-876 | a result and its tag go on the result stack, the parsers stay as they are |
| MpcStacks.Stack.PopResult | mpc/mpc.c:878-885 | the newest result comes off with the tag that says which union member it is |
| MpcEngine.PopErrors | mpc/mpc.c:892-899 | popping errors merges each into the error of the parse |
| MpcEngine.PopOutputs | mpc/mpc.c:901-908 | popping outputs runs on each the destructor of its place |
| MpcEngine.PopOutputsSingle | mpc/mpc.c:910-917 | popping outputs runs the one destructor on each |
| MpcEngine.MergeOutputs | mpc/mpc.c:927-931 | the fold gets exactly the outputs that are popped |
| MpcEngine.TurnUnary | mpc/mpc.c:1013-1069 | a turn for the parsers of one parser is one step of the abstract loop |
| MpcEngine.TurnRepeat | mpc/mpc.c:1071-1130 | a turn for MANY, MANY1 and COUNT is one step of the abstract loop |
| MpcEngine.TurnOr | mpc/mpc.c:1134-1148 | a turn for OR is one step of the abstract loop |
| MpcEngine.TurnAnd | mpc/mpc.c:1150-1163 | a turn for AND is one step of the abstract loop |
| MpcEngine.Turn | mpc/mpc.c:978-1172 | every turn of the loop over the array stacks is one step of the abstract loop |
| MpcEngine.ParseInput | mpc/mpc.c:965-1175 | for every parser whose meaning exists the loop ends with exactly that meaning: result, error, destructor calls and input position |
| MpcEngine.Parse | mpc/mpc.c:1182-1188 | the same from the start of a string |
| MpcRefinement.Sim | mpc/mpc.c:950-965 | one direction with its step count: if the recursion yields an outcome the loop reaches it with everything below untouched, if not the loop stays above for as many steps |
| MpcAdequacy.MachineRefinesMeaning | mpc/mpc.c:965-1175 | from any stack contents, the loop finishes a parser with an outcome, everything below unchanged, if and only if the recursive meaning yields it |
| MpcAdequacy.MeaningIsUnique | mpc/mpc.c:965-1175 | the recursive meaning does not depend on the recursion bound |
| MpcAdequacy.MachineDivergesWithMeaning | mpc/mpc.c:965-1175 | the loop never gets back down if and only if the recursive meaning yields nothing |
| MpcLaws.ExpectLaw | mpc/mpc.c:1013-1023 | a failing named parser has the error that expects the name, and no failure, where its parser ended |
| MpcLaws.ApplyLaw | mpc/mpc.c:1024-1033 | the function is applied to an output, an error is handed on |
| MpcLaws.ApplyToLaw | mpc/mpc.c:1034-1043 | the same with the extra argument behind the output |
| MpcLaws.PredictLaw | mpc/mpc.c:1044-1050 | the parser runs with one level less of backtracking |
| MpcLaws.NotLaw | mpc/mpc.c:1056-1068 | success of its parser is given back, destroyed and an error "opposite"; its failure is given up for the value |
| MpcLaws.MaybeLaw | mpc/mpc.c:1070-1079 | an output is handed on, an error is given up: merged into the error of the parse |
| MpcLaws.ManyLaw | mpc/mpc.c:1083-1093 | the outputs of successive runs are folded in order, the last error is given up |
| MpcLaws.Many1Law | mpc/mpc.c:1095-1110 | the same, but with no output the error is "one or more of" what was expected |
| MpcLaws.CountLaw | mpc/mpc.c:1112-1130 | with the right number the same; with any other the outputs are destroyed, newest first, the input is given back and the error is the number "of" what was expected |
| MpcLaws.OrLaw | mpc/mpc.c:1134-1148 | the first output, with the errors before it merged, the newest first, into the error of the parse; if all fail, their errors merged in order |
| MpcLaws.AndLaw | mpc/mpc.c:1149-1163 | the fold of all outputs; or the first error, with the outputs before it destroyed, newest first and each by its own destructor, and the input given back |
| MpcLaws.BlindLaw | mpc/mpc.c:997-1002 | the parsers that do not look at the input: their values and errors |
| MpcLaws.AnchorLaw | mpc/mpc.c:1004-1009 | an anchor is asked about the characters around the position |
| MpcLaws.CharacterLaw | mpc/mpc.c:593-627 | which character each one-character parser accepts, both ends of a range included, and that it is read |
| MpcLaws.LiteralLaw | mpc/mpc.c:629-649 | a literal succeeds if and only if it stands there; what it leaves behind if not |
| MpcLaws.ErrorsKept | mpc/mpc.c:769-774 | whatever a parser does, the merged error still accounts for everything it accounted for before |
| MpcLaws.FirstError | mpc/mpc.c:764-764 | a parse starts with the error "Unknown Error" before the text |
| MpcDiscipline.StepKeepsDiscipline | mpc/mpc.c:978-1172 | every turn keeps the result stack divided into what the waiting parsers hold, outputs under AND and repetitions, errors under OR |
| MpcDiscipline.ParseIsDisciplined | mpc/mpc.c:965-1175 | no state of a parse, from its start on, misuses a stack |
| MpcDiscipline.ReachableIsDisciplined | mpc/mpc.c:965-1175 | no reachable state underflows a stack or reads the wrong union member, and the end has one result, no mark and the backtracking counter restored |
| MpcConservation.TurnBalances | mpc/mpc.c:892-937 | in every turn exactly the outputs used come off the top of the stack and what is made goes on it; the destructors called are those of the uses |
| MpcConservation.RunConserves | mpc/mpc.c:965-1175 | over any number of turns from any disciplined state, the outputs, numbered as they are made, are each used once or lie on the stack, where the book says |
| MpcConservation.ParseConserves | mpc/mpc.c:965-1175 | from the start of a parse on, each number has been used up once, by a fold, an apply or a destructor, or still lies on the stack; at the end that is the output returned, if any |
| MpcConservation.MeaningConserves | mpc/mpc.c:965-1175 | of everything a terminating parse makes, each number is used up once but that of the output it returns, and its log is exactly the destructor calls among the uses |
| MpcCursors.CursorTracksText | mpc/mpc.c:564-591 | where a parser ends, row, column and last character are those of the text before the position, and it does not end before it started |
| MpcTracking.StepTracks | mpc/mpc.c:978-1172 | every turn keeps the cursor and every saved mark those of some prefix of the text |
| MpcTracking.EveryStateTracks | mpc/mpc.c:423-466 | so are they in every state a run reaches, whether it ends or not |
| MpcTracking.ParseTracks | mpc/mpc.c:564-591 | in every state of a parse row, column and last character, and those that any rewind will restore, are functions of the text before their position |
| MpcCursors.EvalRespects | mpc/mpc.c:965-1175 | any relation between cursors that the leaf parsers keep is kept by every parser |
| MpcBacktracking.CarefulStays | mpc/mpc.c:1044-1163 | parsers that have read nothing when they fail leave the input where it was in predictive mode too |
| MpcBacktracking.FailureRestores | mpc/mpc.c:1044-1163 | outside predictive parsers of anything else, a failing parser leaves the input where it found it |
| MpcBacktracking.PredictiveFailureConsumes | mpc/mpc.c:425-456 | a concrete predictive parser that fails one character further on |
| MpcPredictive.PredictiveIsSound | mpc/mpc.c:1044-1050 | if every rewind of a run finds the input at its mark, the predictive parser has the same outcome |
| MpcPredictive.LessBacktracking | mpc/mpc.c:423-466 | the same for any lower backtracking counter |
| MpcTermination.SuccessReads | mpc/mpc.c:965-1175 | a parser that may not be empty reads something whenever it succeeds |
| MpcTermination.WellFormedTerminates | mpc/README.md:803-816 | without left recursion and repetition of parsers that may be empty, every parser terminates on every input |
| MpcRanking.HasRanking | mpc/README.md:803-816 | a grammar in which no rule leads back to itself in leftmost position, and nothing that may be empty is repeated, can be ranked as the termination theorem asks |
| MpcRanking.RankedIsNotLeftRecursive | mpc/README.md:803-816 | only such a grammar can |
| MpcRanking.NotLeftRecursiveTerminates | mpc/README.md:803-816 | over such a grammar every parser terminates on every input |
| MpcLeftRecursion.StartsRuns | mpc/mpc.c:965-1175 | if a parser cannot end without another, run first or behind parsers that never fail, and yields an outcome, so does the other, with a smaller recursion bound |
| MpcLeftRecursion.NeverFailsSucceeds | mpc/mpc.c:965-1175 | the parsers allowed in front, once they end, have succeeded |
| MpcLeftRecursion.LeftRecursionDiverges | mpc/README.md:803-816 | a parser that starts with itself, through any parsers and references, yields nothing on any input |
| MpcLeftRecursion.LeftRecursiveRuleDiverges | mpc/README.md:803-816 | a grammar rule that directly or indirectly refers to itself on its left-hand side, perhaps behind parts that fit nothing at all, never terminates once compiled |
| MpcLeftRecursion.ExampleDiverges | mpc/README.md:807-811 | the rule for expr of the documentation is one |
| MpcLeftRecursion.BlanksFirstDiverges | mpc/README.md:803-816 | so is a rule with optional blanks before itself |
| MpcRepetition.PlaceDecides | mpc/mpc.c:965-1175 | result and end of a parser depend on where it starts, not on the errors merged or the destructors called before |
| MpcRepetition.RepetitionDiverges | mpc/mpc.c:1071-1130 | a repetition never ends if and only if, after some number of successes, its body does not end or succeeds where it started |
| MpcRepetition.EmptyRepetitionDiverges | mpc/mpc.c:1071-1130 | if the body succeeds once without moving on, the repetition never ends |
| MpcRepetition.OptionalStarDiverges | mpc/mpc.c:1071-1130 | (c?)* never ends, on any text |
| MpcRegex.AppendAll | mpc/mpc.c:2285-2295 | the string fold is concatenation in order |
| MpcRegex.OutcomeIsMatch | mpc/mpc.c:1855-1927 | whatever the compiled parser yields is the greedy match, with exactly the text read as output |
| MpcRegex.MatchHasOutcome | mpc/mpc.c:1855-1927 | whenever the greedy match exists the compiled parser yields an outcome |
| MpcRegex.CompiledRegexMatches | mpc/mpc.c:1855-1927 | both, and the compiled parser diverges if and only if the matching repeats nothing forever |
| MpcClasses.ClassMatches | mpc/mpc.c:1698-1717 | the classes match exactly the digits 0 to 9; the blank and codes 9 to 13; letters, digits and the underscore |
| MpcClasses.BoundaryMatches | mpc/mpc.c:1685-1696 | a boundary is either end of the text or where word characters begin or end |
| MpcClasses.MatchFits | mpc/mpc.c:1855-1927 | what the greedy matching finds is in the language of the expression in the usual sense |
| MpcClasses.GreedyFits | mpc/mpc.c:1865-1878 | a repetition goes on until the expression no longer matches |
| MpcClasses.NoMatch | mpc/mpc.c:1855-1927 | why there is no match: the character or anchor does not fit, neither alternative matches, a sequence breaks off, or a repetition goes on to another number than asked for |
| MpcClasses.MismatchNames | mpc/mpc.c:1501-1535 | what the expressions of one character say they expected |
| MpcGrammar.FoldAstInPlace | mpc/mpc.c:2655-2691 | the loop over values and their children computes the fold of syntax trees |
| MpcGrammar.FoldKeepsLeaves | mpc/mpc.c:2655-2691 | the fold conserves the contents of the leaves in order |
| MpcGrammar.TermBuilds | mpc/mpc.c:2829-2948 | for every grammar term, the leaves of the tree built, in order, are exactly the slice of text read, and each is a token, or an empty node, whose row and column are those of the text before it |
| MpcTrees.TokenBuilt | mpc/mpc.c:2857-2879 | literals, characters and patterns build tokens tagged string, char and regex, with the text read, at its place |
| MpcTrees.TokenExpected | mpc/mpc.c:2857-2871 | a literal or character that is not there is expected, in quotes, where it should be |
| MpcTrees.RuleBuilt | mpc/mpc.c:2937-2948 | a rule puts its name in front of the tag of what its right-hand side built, under a new root if that has more than one child, at the place where it began |
| MpcTrees.FoldLaw | mpc/mpc.c:2655-2691 | two trees go under a new root, with the children of those that have some in their places |
| MpcTrees.FoldLeaves | mpc/mpc.c:2655-2691 | any number of leaves go under a new root in order |
| MpcTrees.FoldShares | mpc/mpc.c:2655-2691 | three or more values, trees with children, leaves or nothing, each get their share of the children of the new root, in order |
| MpcTrees.TokensBuilt | mpc/mpc.c:2829-2948 | a sequence of tokens builds one flat tree of them, in order and at their places |
| MpcParses.RegexMeaning | mpc/mpc.c:1855-1927 | where the greedy match exists the compiled parser terminates and its meaning is that match |
| MpcParses.ParseRegex | mpc/mpc.c:1182-1188 | the loop in place, run on a compiled expression, returns the text of the greedy match, or an error if there is none |
| MpcClasses.ParseClass | mpc/mpc.c:1182-1188 | run on a class, it returns the first character exactly if that is in the class by its code |
| MpcParses.ParseTerm | mpc/mpc.c:2829-2948 | the loop in place, run on a compiled grammar term, returns a tree whose leaves are a prefix of the text, tokens at their places; tokens have their kind, rules their name |
| MpcParses.ReturnedMerges | mpc/mpc.c:776-794 | a failing parse returns its error merged with those given up |
| MpcParses.ParseNamed | mpc/mpc.c:1182-1188 | the error returned for a named parser is where it ended or further, and there it expects the name |
| MpcParses.ParseLetter | mpc/mpc.c:1013-1023 | a concrete named parser and the error it returns |
| MpcEscape.EscapeNew | mpc/mpc.c:2144-2178 | the loop computes the escaped string |
| MpcEscape.UnescapeNew | mpc/mpc.c:2180-2218 | the loop computes the unescaped string |
| MpcEscape.RoundTrip | mpc/mpc.c:2127-2218 | unescaping undoes escaping for every reversible table |
| MpcEscape.TablesAreReversible | mpc/mpc.c:2127-2142 | the four tables are reversible, also those without a code for the backslash |
| MpcEscape.CEscapes | mpc/mpc.c:2127-2133 | the escape of each listed character, and that no other is changed |
| MpcEscape.RawEscapes | mpc/mpc.c:2135-2142 | the same for the three raw tables |
| Symbols.CompareEqual | src/symbol.c:95-99 | symbols compare equal exactly if their names are equal |
| Symbols.LessTransitive | src/symbol.c:95-99 | the order of names is transitive |
| Symbols.LessIsDictionary | src/symbol.c:95-99 | it is dictionary order: the first difference decides, and a proper prefix comes first |
| Symbols.Symbol.constructor | src/symbol.c:57-71 | a new symbol has no references |
| Symbols.Symbol.Reference | src/symbol.c:104-111 | the new place is at the head of the list |
| Symbols.Symbol.Define | src/symbol.c:116-130 | every place on the list is patched and the list is empty |
| RbModel.PlugInorder | src/tree.h:340-378 | the order of the whole tree is what is before the focus, in it and behind it |
| RbModel.RotatedLeftInorder | src/tree.h:340-358 | a left rotation keeps the order |
| RbModel.RotatedRightInorder | src/tree.h:360-378 | a right rotation keeps the order |
| RbHeap.RotatedLeftHeap | src/tree.h:340-358 | the relinked nodes are the rotated tree in the same place, with all parent links right |
| RbHeap.RotatedRightHeap | src/tree.h:360-378 | the mirror image |
| RbHeap.Attached | src/tree.h:641-650 | the relinked nodes are the tree with the new red leaf |
| RbHeap.Spliced | src/tree.h:603-614 | the relinked nodes are the tree with a node replaced by its only child |
| RbHeap.Renamed | src/tree.h:584-595 | the relinked nodes are the tree with the successor in the place of the removed node |
| RbTree.Head.RotateLeft | src/tree.h:340-358 | in place, wherever the node is in the tree |
| RbTree.Head.RotateRight | src/tree.h:360-378 | in place, wherever the node is in the tree |
| RbColours.PlugFits | src/tree.h:49-55 | a subtree of the right black height in a fitting context makes a red-black tree |
| RbColours.FlippedFits | src/tree.h:441-446 | recolouring moves the only fault two levels up |
| RbColours.ReddenedFits | src/tree.h:491-497 | reddening the sibling moves the missing black node one level up |
| RbColours.FinishedLeftFits | src/tree.h:498-516 | the last rotation of a removal supplies the missing black node |
| RbTree.Head.InsertColour | src/tree.h:432-475 | from a tree whose only fault may be a red node with a red parent, the repair loop makes a red-black tree of the same order, and ends |
| RbTree.Head.Insert | src/tree.h:624-654 | a symbol of the same name is returned and nothing changes, or the new one is put at its place in the order; all invariants are kept |
| RbTree.Head.RemoveColour | src/tree.h:477-554 | from a tree with a subtree one black node short, the repair loop makes a red-black tree of the same order, and ends |
| RbTree.Head.Remove | src/tree.h:556-622 | exactly the given symbol leaves the order and is returned; all invariants are kept |
| RbTree.Head.Find | src/tree.h:656-673 | the symbol of that name, or null if and only if there is none |
| RbTree.Head.Next | src/tree.h:697-718 | the symbol after the given one in the order, or null |
| RbTree.Head.Prev | src/tree.h:720-741 | the symbol before the given one in the order, or null |
| RbTree.Head.MinMax | src/tree.h:743-757 | the first or last symbol in the order, or null: every other name comes behind it, or before it, in the dictionary |
| RbTree.Head.ForEach | src/tree.h:771-774 | iteration visits every symbol once, in ascending dictionary order of the names, and ends |
| RbTree.Head.HeightBound | src/tree.h:59-59 | two to the height is at most (n + 1) squared |
| RbColours.TreeHeight | src/tree.h:59-59 | the same for any red-black tree |
| RbmlWord.DecodeEncode | src/rbml.h:24-47 | decoding an instruction gives its fields, reduced to their widths |
| RbmlWord.EncodeDecode | src/rbml.h:24-47 | every word is the encoding of its fields |
| RbmlWord.Patched | src/rbml.h:49-56 | patching the address field is encoding with that address |
| RbmlWord.AddressSurvives | src/rbml.h:24-27 | an address survives encoding if and only if it is below 65536 |
| RbmlSource.LabelsFound | src/rbml_parser.y:58-81 | the labels are the names that the lines define |
| RbmlSource.WordsCounted | src/rbml_parser.y:50-106 | one word for each statement, none for a line that defines a label again; the labels defined again are counted |
| RbmlSource.ScanFinds | src/rbml_parser.y:58-106 | each statement is the word of its number, and the address of a label is the number of the word behind it |
| RbmlAssembler.PatchAt | src/symbol.c:116-130 | patching changes exactly the places on the list |
| RbmlAssembler.DefineAgrees | src/rbml_parser.y:59-82 | a label at any point of the source leaves the text as two readings of the part so far would |
| RbmlAssembler.EmitAgrees | src/rbml_parser.y:84-106 | so does a statement |
| RbmlAssembler.OnePassIsTwoPass | src/rbml_parser.y:42-106 | for every source, duplicate labels included, one reading gives the text of two; on the way each undefined name waits at exactly the places that name it |
| RbmlAssembler.ErrorsReported | src/code.c:107-116 | the errors are one for each label defined again and one for each reference to a name without a label |
| RbmlCode.Code.Lookup | src/code.c:54-61 | the entry of that name, or null if and only if there is none |
| RbmlCode.Code.Add | src/code.c:63-75 | the table has one more entry, with the current position as its address |
| RbmlCode.Code.Refer | src/code.c:77-94 | the entry is found or made, and an undefined one gets the current position as a waiting place |
| RbmlCode.Code.Define | src/code.c:96-103 | the symbol is defined here and its waiting places are patched in the text |
| RbmlCode.Code.Emit | src/code.c:118-133 | the text is one word longer, moved to a larger array if need be |
| RbmlCode.Code.Label | src/rbml_parser.y:58-81 | the action of a label, and its error |
| RbmlCode.Code.Statement | src/rbml_parser.y:84-106 | the actions of statements |
| RbmlCode.Code.Line | src/rbml_parser.y:50-56 | one line keeps text, table and error count those of the one-pass assembler |
| RbmlCode.Code.CheckRefs | src/code.c:105-116 | one error for every place still waiting |
| RbmlCode.Compile | src/rbmlc.c:113-136 | the assembler in place produces the text and the number of errors of two readings |
| RbmlArithmetic.SumFlagExact | src/rbml.c:292-300 | addition sets its flag if and only if the sum overflows |
| RbmlArithmetic.DifferenceFlagAlwaysFalseAlarm | src/rbml.c:306-315 | whenever subtraction sets its flag the difference has not overflowed |
| RbmlArithmetic.DifferenceFlag | src/rbml.c:306-315 | for which operands subtraction's flag is right |
| RbmlArithmetic.DifferenceFlagWrong | src/rbml.c:306-315 | concrete operands for a false alarm and for an overflow that goes unnoticed |
| RbmlArithmetic.ProductFlag | src/rbml.c:321-331 | for which operands multiplication's flag says whether the product overflows |
| RbmlArithmetic.ProductFlagWrong | src/rbml.c:321-331 | concrete operands for a false alarm and for an overflow that goes unnoticed |
| RbmlArithmetic.DivisionLaw | src/rbml.c:337-363 | quotient and remainder make up the dividend, the remainder is smaller than the divisor and has the sign of the dividend; only the least number divided by -1 breaks the law |
| RbmlInstructions.AddLaw | src/rbml.c:292-304 | after ADD, ADDA and ADDJ the accumulator is the sum modulo 2 to the 32, exact if it fits, and the flag says whether it does |
| RbmlInstructions.SubLaw | src/rbml.c:306-319 | after SUB, SUBA and SUBJ adding the second operand to the accumulator gives the first; it is the difference if that fits; the flag is that of the sum |
| RbmlInstructions.MultLaw | src/rbml.c:321-335 | after MULT, MLTA and MLTJ the accumulator is the product, and for which operands the flag is right |
| RbmlInstructions.DivLaw | src/rbml.c:337-351 | after DIV, DIVA and DIVJ the accumulator is the quotient rounded towards zero, 0 with a flag if the divisor is 0 |
| RbmlInstructions.ModLaw | src/rbml.c:353-367 | after MOD, MODA and MODJ it is the remainder with the sign of the dividend |
| RbmlInstructions.ConjunctLaw | src/rbml.c:369-371 | after CJNT, CJNA and CJNJ each bit is set if it is in both operands |
| RbmlInstructions.DisjunctLaw | src/rbml.c:373-375 | after DJNT, DJNA and DJNJ each bit is set if it is in either |
| RbmlInstructions.ComplementLaw | src/rbml.c:377-379 | after COMP, COMPA and COMPJ each bit is set if it was not |
| RbmlInstructions.LeftShiftLaw | src/rbml.c:381-383 | a left shift multiplies by a power of two |
| RbmlInstructions.RightShiftLaw | src/rbml.c:385-387 | a right shift divides by a power of two, rounding down |
| RbmlInstructions.CompareLaw | src/rbml.c:389-399 | CMP, CMPA and CMPJ set the three flags by the signed operands |
| RbmlInstructions.CompareMemoryLaw | src/rbml.c:400-400 | so does CMPM with a word of memory |
| RbmlInstructions.BranchLaw | src/rbml.c:402-407 | after comparing a with b, which branch is taken, BRLE exactly if they differ |
| RbmlInstructions.CompareThenBranch | src/rbml.c:389-407 | CMP and a branch, one after the other |
| RbmlInstructions.CallLaw | src/rbml.c:409-423 | after comparing, which call is made, and what it leaves in jump and on the call stack |
| RbmlInstructions.EndLaw | src/rbml.c:424-432 | where END goes, and what it leaves |
| RbmlInstructions.StoreLaw | src/rbml.c:211-213 | the word stored is in memory, and nothing else changes |
| RbmlInstructions.LoadLaw | src/rbml.c:215-217 | the word loaded is in its place, and nothing else changes |
| RbmlInstructions.MoveLaw | src/rbml.c:219-221 | which way MOV, MOVA and MOVJ move |
| RbmlInstructions.ReadLaw | src/rbml.c:242-266 | a console read puts the next word of the input into its place |
| RbmlInstructions.ReadToMemoryLaw | src/rbml.c:264-264 | or into memory |
| RbmlInstructions.WriteLaw | src/rbml.c:223-240 | a console write adds one word to the output, in the format its field asks for |
| RbmlInstructions.HaltLaw | src/rbml.c:434-435 | HALT and HERR stop with their codes; opcodes that are not implemented change nothing |
| RbmlInstructions.StartLaw | src/rbml.c:152-187 | what the machine starts with |
| RbmlEmulator.Emulator.constructor | src/rbml.c:152-187 | everything is zero but as much of the program as fits into memory |
| RbmlEmulator.Emulator.CallTo | src/rbml.c:409-418 | the address of the call goes to jump, and the old value of jump, unless 0, on the stack |
| RbmlEmulator.Emulator.End | src/rbml.c:424-432 | the counter is taken from jump, and jump from the stack, or from what is left in its first place |
| RbmlEmulator.Emulator.Evaluate | src/rbml.c:553-567 | the instruction in place does what the machine model does, for every opcode and operand |
| RbmlEmulator.Emulator.Turn | src/rbml.c:188-201 | one turn of the fetch loop is one step of the machine model |
| RbmlEmulator.Emulator.Go | src/rbml.c:188-201 | any number of turns of the fetch loop |
| RbmlInterpreter.Fetched | src/rbml.h:24-47 | the word at a statement's place decodes to the statement |
| RbmlInterpreter.JumpStep | src/rbml.c:402-423 | setting the counter one below the address and counting up is going to the label |
| RbmlInterpreter.StoreOrLoadStep | src/rbml.c:211-215 | the place of a label is its address |
| RbmlInterpreter.StepSimulates | src/rbml.c:188-201 | one statement of the source and one turn of the machine keep step |
| RbmlInterpreter.AssemblyPreservesMeaning | src/rbml_parser.y:84-106 | after any number of steps the machine that loaded the assembled words has the registers, memory, output and place of the source-level program |
| RbmlInterpreter.NoErrorsSound | src/rbml_parser.y:58-106 | a program without errors of at most 65535 words meets the condition of that theorem; with 65536 words, if and only if nothing refers to a label behind the last |
| RbmlToolchain.AssembleAndRun | src/rbmlc.c:113-136 | the emulator in place, loaded with what the assembler in place wrote, is after any number of turns where the source-level program is |
| RbmlInterpreter.FullProgramBreaks | src/rbml.h:24-27 | a label behind 65536 words is taken for address 0 |
| RbmlCalls.CallLinks | src/rbml.c:409-418 | a call keeps the machine's return addresses those of the open calls, above at most one left over |
| RbmlCalls.EndLinks | src/rbml.c:424-432 | so does an END, and it takes the newest |
| RbmlCalls.NestedIsLinked | src/rbml.c:409-432 | the invariant holds after every number of steps of a nested run |
| RbmlCalls.EveryEndFindsItsCall | src/rbml.c:409-432 | every END of a nested run goes on right behind the call it ends |
| RbmlCalls.LeftOver | src/rbml.c:424-432 | after two nested calls have ended, an address is left in jump although no call is open |
| RbmlNesting.NestedReturns | src/rbml.c:409-432 | above an address other than 0, calls within calls to any depth leave jump and the call stack below as they were |
| RbmlNesting.EveryEndFinds | src/rbml.c:409-432 | whatever the machine holds, every END of calls made at addresses other than 0 goes back to its CALL |
| RbmlNesting.LeafCallFromZero | src/rbml.c:409-432 | an END right after a call from address 0 goes back to it, and the address below is there again |
| RbmlNesting.CallFromZero | src/rbml.c:409-432 | the END of a call made at 0 goes back to 0 if and only if its subroutine makes no calls, or no address was held or left over before and no call it makes (from other addresses) is within another |
| RbmlNesting.InnerCallFromZeroRun | src/rbml.c:409-432 | a program whose call from address 0, the inner of two open calls, ends behind the outer one |
| RbmlNesting.OutermostCallFromZeroRun | src/rbml.c:409-432 | a program whose first instruction calls a subroutine with two calls in each other, and that goes back behind the wrong call |

## Left out

- MpcModes.StreamInput.Literal: and the rest of `MpcModes` model streams without NUL characters, since the C buffer is a NUL-terminated string; the parsing loop itself is modelled over string input, and in `MpcSessions` any client of an input, whose calls depend on the answers, over strings, files and pipes.
- MpcEngine.ParseInput: requires that the recursive meaning exists; `MpcAdequacy.MachineDivergesWithMeaning` says what happens otherwise, and `MpcTermination` when it does exist.
- MpcErrors.MergeErrors: does not model the file name and the received character of an error, which the merge can leave uninitialised, nor the text printed from an error.
- MpcStacks.ShrunkHolds: the powers and roundings of the slot arithmetic are exact, where the C code computes them in floating point.
- MpcRegex.CompiledRegexMatches: starts from the syntax of a regular expression with its ranges expanded; the parser for regular expressions, itself built from combinators, is not part of this model. The text has no NUL, which the anchors take for either end of the input.
- MpcGrammar.TermBuilds: whitespace sensitive grammars only; otherwise tokens drop the blanks behind them. The parser for grammar text and its references by number are not part of this model.
- MpcEscape.RoundTrip: models strings of any length; NUL ends a C string.
- Lifted constructors and lifted values are one parser type (`Lift`), destructors are numbers whose calls are logged, and `mpc_define`, `mpc_delete` and all memory management are left out; so is the varargs interface.
- The ready-made parsers for numbers, literals, identifiers and brackets, which are compositions of the parsers modelled here, and `mpcf_maths` are left out.
- RbTree.Head.Remove: takes a node of the table, as the source does; what freeing a removed symbol does is left out. RB_NFIND, the splay trees and the reverse iterations are not instantiated or not used.
- RbmlAssembler.OnePassIsTwoPass: starts from parsed lines; the lexer and the recovery of the generated parser are left out, except that the rest of a line with a duplicate label is skipped. A list of references is a sequence, without the order of free and unlink.
- RbmlCode.Compile: does not write the output file; `code_free` and the unfinished second front end in `src/rbml_parser_mpc.c` are left out.
- RbmlArithmetic.ProductFlag: takes the least number divided by -1, which C leaves open, to wrap.
- RbmlNesting.CallFromZero: the calls made within the subroutine are from other addresses than 0.
- RbmlEmulator.Emulator.Go: runs a given number of turns, since a program need not end. Console input is a stream of words and console output a list; the disk opcodes do nothing and the I/O error flag is not modelled. Where C leaves the result open, signed overflow wraps and shift counts are taken modulo 32; accesses outside memory or the call stack stop the model.
- RbmlInterpreter.AssemblyPreservesMeaning: says nothing once the program has executed a data line, stored to anything else, read outside memory, overflowed the call stack or run off its end.
