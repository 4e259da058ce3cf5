# A verified model of the collection's core programs

The repository is a personal collection of programs. This project models the ones with real
algorithms or protocols in them and proves what they are for. Every file is one component:

- **The mpc parse engine** (`MpcSyntax`, `MpcSemantics`, `MpcMachine`, `MpcRefinement`, `MpcEngine`,
  `MpcStacks`, `MpcEscape`, `MpcLiteral`). The library's parse loop is a stack machine with a parser
  stack, a result stack and a mark stack for backtracking. `MpcSemantics.Eval` is the recursive meaning of a parser
  graph, on positions alone, without marks; `MpcMachine.Step` is one turn of the loop;
  `MpcEngine.Engine` is the loop with its in-place operations. The loop is proved to compute the
  meaning, to end exactly when there is one, and to be safe on every turn of every run, also of runs
  that never end. Grammars are graphs of nodes and pointers, so recursive grammars are included.
  Constructors, folds and applied functions are uninterpreted symbols, so equal results mean equal calls.
  Escaping, the parser of string literals and unescaping together give every text back.
- **The SAT solver** (`Sat`). Unit propagation, pure literals and splitting over a clause list changed
  in place; soundness, completeness and termination.
- **The thread pipeline** (`Pipeline`). A feeder, stages and a final stage with one monitor each, as a
  state machine for any number of stages and products; delivery, deadlock freedom and termination of
  every schedule.
- **The Lispy interpreter** (`Lispy`, `LispyLaws`, `LispyText`, `LispyTextLaws`, `LispyGrammar`).
  Evaluation and what each call evaluates to, printing against the grammar, the folded syntax tree
  and its translation back, and the parser graph of the grammar, on which the parse engine is proved
  to end and to yield that tree for every line.
- **The tick server** (`TickFrame`, `TickFrameLaws`, `TickDispatch`, `TickServer`). The framing of messages
  out of the datagrams that wait on the socket, the hand-over of messages to workers through queues and notify
  pipes, and both together, from the datagrams that arrive to what each worker sends.
- **The memory-mapped append file** (`MmapFile`), **list intersection by reversal** (`Intersection`),
  **word edit distance** (`EditDistance`), the **KMP failure function** (`Kmp`) and the **ternary
  search tree** (`TernaryTree`). `Arithmetic` holds facts about division that several components share.

Programs that change state are modelled by classes and methods with loops, each proved against a
function of the old state; the properties are proved of these functions. Concurrent programs are
state machines over single statements. Integers are unbounded unless a row says otherwise.

Where the code does not do what one would expect, the model follows the code:

- `MPC_TYPE_COUNT` repeats to the first failure and then requires exactly `n` successes
  (`MpcSemantics.CountIsGreedy`).
- A failing parser puts the position back unless a predictive parser hands its position on through
  parsers that do not put it back themselves (`MpcSemantics.PredictDoesNotRestore`,
  `MpcSemantics.FailureRestores`).
- The SAT solver erases one occurrence of a literal, so clauses that repeat a literal can mislead it:
  a clause is harmless in every formula exactly if it repeats no literal or is a tautology
  (`SatSpec.HarmlessIff`). Unsatisfiable answers are always right.
- The tick server reads on into the next datagram when one is shorter than its header, its code or
  the length it announces, takes a datagram without bytes for the end of the input, and compares the
  announced length with nothing: two datagrams of the largest size overrun its buffer
  (`TickFrame.OverrunHappens`). When that happens, and which datagrams are read alone, is exact
  (`TickFrame.OverrunIff`, `TickFrame.ServedAloneIff`).
- The pipeline program never initialises the flag of its last stage; delivery is right in all runs
  exactly when that flag happens to start lowered (`Pipeline.DeliveryNeedsTheLastFlag`).
- `PosixMmapFile::Close` returns false even when everything succeeded.
- Lispy arithmetic leaves the range of `long` on inputs such as `+ 9223372036854775807 1`, where C
  defines nothing. When it does is exact (`Lispy.FoldOverflowIff`); otherwise the answer is the
  mathematical one (`Lispy.EvalLong`).
- `c/ownlisp/m.c` holds both sides of a merge conflict; the side with the interpreter is modelled.

## Model

| member | source | states |
|---|---|---|
| MpcSyntax.StateAtMeaning | c/ownlisp/mpc.c:564-591 | the cursor that a position determines: row counts the newlines before it, column the characters since the last newline |
| MpcSyntax.MatchLength | c/ownlisp/mpc.c:629-649 | the longest part of a literal that the text carries at a position, and the mismatch behind it |
| MpcSemantics.EvalMono | c/ownlisp/mpc.c:965-1175 | once a parse has an outcome, more fuel does not change it |
| MpcSemantics.FailureRestores | c/ownlisp/mpc.c:1044-1163 | with backtracking on, a failing parser is back at its start if no predictive parser is reached through expect, apply, many1 or ordered choice, the parsers that fail where the parser below them failed |
| MpcSemantics.InOrderRestores | c/ownlisp/mpc.c:1149-1163 | a failing sequence is back at its start with backtracking on, predictive parts or not |
| MpcSemantics.PredictDoesNotRestore | c/ownlisp/mpc.c:1044-1050 | a predictive sequence that fails keeps what it read |
| MpcSemantics.RepeatOfUnfailing | c/ownlisp/mpc.c:1083-1130 | a repetition whose body never fails has no outcome |
| MpcSemantics.RepeatCounts | c/ownlisp/mpc.c:1083-1130 | a repetition collects as many results as its parser has successes before its first failure, and stops where that failure stopped |
| MpcSemantics.CountIsGreedy | c/ownlisp/mpc.c:1112-1130 | a finished count of any parser, at any level and position, succeeds exactly if the parser succeeds n times in a row and then fails, and restores the position otherwise |
| MpcSemantics.CountOfAny | c/ownlisp/mpc.c:1112-1130 | counting n characters succeeds exactly if n characters are left |
| MpcSemantics.OneOfOrNoneOf | c/ownlisp/mpc.c:611-621 | of a list of characters and its complement exactly one takes the character at a position, the list if and only if the character is in it |
| MpcSemantics.ClassesAreLists | c/ownlisp/mpc.c:599-609 | a single character and a range parse like the lists of their characters |
| MpcSemantics.AnyAndSatisfy | c/ownlisp/mpc.c:593-627 | any character is taken, a condition takes those that meet it, and at the end of the text none is taken |
| MpcMachine.TakeAll | c/ownlisp/mpc.c:629-643 | consuming a literal moves only the cursor: level and marks stay, and the cursor stays in the text |
| MpcMachine.DropErrors | c/ownlisp/mpc.c:892-899 | popping errors removes exactly those results and leaves parsers and input alone |
| MpcRefinement.TakeTextMoves | c/ownlisp/mpc.c:629-649 | matching a literal consumes it, or with backtracking on nothing, or with it off the common prefix |
| MpcRefinement.MarkUndone | c/ownlisp/mpc.c:423-466 | a mark is undone by unmark and by rewind, and rewind restores cursor and last character |
| MpcRefinement.DropErrorsMerges | c/ownlisp/mpc.c:892-899 | the popped errors are merged into the record last first |
| MpcRefinement.RunEval | c/ownlisp/mpc.c:965-1175 | pushed on any loop state, a parser is popped with exactly the result of its recursive meaning on top, everything below on both stacks, the mark stack and the backtracking level unchanged, at the position of the meaning; while the meaning lacks fuel the loop is busy with it that many turns |
| MpcRefinement.RunWrapper | c/ownlisp/mpc.c:1013-1079 | the same for expect, apply, predict, not and maybe |
| MpcRefinement.RunRepeat | c/ownlisp/mpc.c:1083-1130 | the same for many, many1 and count |
| MpcRefinement.RunRounds | c/ownlisp/mpc.c:1083-1130 | the rounds of a repetition leave one result each, up to the first error |
| MpcRefinement.RunOr | c/ownlisp/mpc.c:1134-1147 | the same for ordered choice |
| MpcRefinement.RunChoose | c/ownlisp/mpc.c:1134-1147 | the alternatives from any point on |
| MpcRefinement.RunAnd | c/ownlisp/mpc.c:1149-1163 | the same for sequences |
| MpcRefinement.RunInOrder | c/ownlisp/mpc.c:1149-1163 | the parts of a sequence from any point on |
| MpcRefinement.LeafStep | c/ownlisp/mpc.c:985-1009 | parsers without parts take one turn |
| MpcRefinement.EveryTurnIsSafe | c/ownlisp/mpc.c:965-1175 | in every state of every run the next turn reads only results, marks and characters that exist, of the kind it reads them as, and row, column and last character are those of the position; an empty parser stack holds exactly the meaning |
| MpcRefinement.LoopEndsIff | c/ownlisp/mpc.c:965-1175 | the loop ends if and only if the parse has a recursive meaning |
| MpcRefinement.ManyOfUnfailingDiverges | c/ownlisp/mpc.c:1083-1130 | a repetition of a parser that cannot fail keeps the loop busy for ever |
| MpcEngine.Engine.constructor | c/ownlisp/mpc.c:336-361 | the input and stack records at the start of a parse |
| MpcEngine.Engine.MarkInput | c/ownlisp/mpc.c:423-437 | marking pushes cursor and last character if backtracking is on |
| MpcEngine.Engine.UnmarkInput | c/ownlisp/mpc.c:439-452 | unmarking drops the last mark |
| MpcEngine.Engine.RewindInput | c/ownlisp/mpc.c:454-465 | rewinding restores the last mark and drops it |
| MpcEngine.Engine.TakeChar | c/ownlisp/mpc.c:564-591 | advancing over a character |
| MpcEngine.Engine.MatchChar | c/ownlisp/mpc.c:593-627 | the character parsers take one accepted character or nothing |
| MpcEngine.Engine.MatchText | c/ownlisp/mpc.c:629-649 | the literal loop with its mark |
| MpcEngine.Engine.PushParser | c/ownlisp/mpc.c:802-823 | pushing a parser grows the parser stack when it is full, so that the slots hold what is in use |
| MpcEngine.Engine.PopParser | c/ownlisp/mpc.c:810-830 | popping a parser may shrink the stack, and the slots still hold what is in use |
| MpcEngine.Engine.PushResult | c/ownlisp/mpc.c:855-876 | the same for pushing a result |
| MpcEngine.Engine.PopResult | c/ownlisp/mpc.c:863-885 | the same for popping a result |
| MpcEngine.Engine.PopErrors | c/ownlisp/mpc.c:892-899 | the loop that merges popped errors |
| MpcEngine.Engine.PopResults | c/ownlisp/mpc.c:919-925 | the loop that drops results |
| MpcEngine.Engine.MergeOut | c/ownlisp/mpc.c:927-931 | the fold of the top results replaces them |
| MpcEngine.Engine.TurnLeaf | c/ownlisp/mpc.c:985-1009 | a turn on a parser without parts |
| MpcEngine.Engine.TurnWrapper | c/ownlisp/mpc.c:1013-1079 | a turn on a wrapper |
| MpcEngine.Engine.TurnRepeat | c/ownlisp/mpc.c:1083-1130 | a turn on a repetition |
| MpcEngine.Engine.FailCount | c/ownlisp/mpc.c:1118-1122 | a count that stopped at the wrong number drops its results, rewinds and fails |
| MpcEngine.Engine.GatherRounds | c/ownlisp/mpc.c:1083-1130 | a repetition that ends well notes the error and folds the outputs |
| MpcEngine.Engine.TurnOr | c/ownlisp/mpc.c:1134-1147 | a turn on an ordered choice |
| MpcEngine.Engine.TurnAnd | c/ownlisp/mpc.c:1149-1163 | a turn on a sequence |
| MpcEngine.Engine.TakeTurn | c/ownlisp/mpc.c:979-1171 | a turn of the loop is one step of the machine |
| MpcEngine.Parse | c/ownlisp/mpc.c:965-1175 | a whole parse returns the output of the meaning, or its error merged into the record |
| MpcStacks.ShrinkingKeeps | c/ownlisp/mpc.c:810-816 | in exact arithmetic: when slots exceed the power 1.5 of size plus one, two thirds of slots minus one still hold the size |
| MpcStacks.ShrinkingKeepsRounded | c/ownlisp/mpc.c:810-816 | the same when the power and the two thirds are each computed with an error of up to one part in a hundred |
| MpcStacks.GrowthSuffices | c/ownlisp/mpc.c:802-808 | growing makes room for one more |
| MpcStacks.GrownMeaning | c/ownlisp/mpc.c:802-808 | the new size is the smallest number that is at least one and a half times slots plus one |
| MpcStacks.ShrunkMeaning | c/ownlisp/mpc.c:810-816 | the new size is the largest number that is at most two thirds of slots minus one |
| MpcStacks.TooRoomyMeaning | c/ownlisp/mpc.c:810-816 | for a size that is one less than a square the test compares slots with the cube of the root, and it is monotone in both arguments |
| MpcStacks.Stack.Push | c/ownlisp/mpc.c:818-823 | pushing appends, with capacity at least the size |
| MpcStacks.Stack.Pop | c/ownlisp/mpc.c:825-830 | popping removes the last element and keeps the others, with capacity at least the size |
| MpcStacks.Exercise | c/ownlisp/mpc.c:855-885 | through any pushes and pops the storage holds the stack |
| MpcEscape.RoundTripIff | c/ownlisp/mpc.c:2124-2198 | unescape undoes escape on every C string if and only if each escaped character is the first with its code and, unless the backslash is escaped, every code is an escaped character |
| MpcEscape.UnescapeEscape | c/ownlisp/mpc.c:2124-2198 | the round trip for such tables |
| MpcEscape.Undecodable | c/ownlisp/mpc.c:2124-2198 | a text that any other table mistakes |
| MpcEscape.LibraryTables | c/ownlisp/mpc.c:2107-2122 | the C table and the three raw tables are such tables |
| MpcEscape.ControlCodes | c/ownlisp/mpc.c:2107-2113 | behind a backslash a, b, t, n, v, f and r stand for the characters 7 to 13, in both directions |
| MpcEscape.SelfCodes | c/ownlisp/mpc.c:2107-2113 | backslash and quotes stand for themselves |
| MpcEscape.ZeroCode | c/ownlisp/mpc.c:2107-2113 | zero stands for the character that ends a text |
| MpcEscape.OtherCharacters | c/ownlisp/mpc.c:2124-2198 | all other characters are left as they are |
| MpcEscape.RawTables | c/ownlisp/mpc.c:2115-2122 | the raw tables escape the delimiter of their literal and nothing else |
| MpcEscape.EscapedIsGuarded | c/ownlisp/mpc.c:2124-2158 | after escaping, a character of the table stands only behind a backslash |
| MpcEscape.EscapeNew | c/ownlisp/mpc.c:2124-2158 | the escaping loop computes the escaped text |
| MpcEscape.UnescapeNew | c/ownlisp/mpc.c:2160-2198 | the unescaping loop computes the unescaped text |
| MpcLiteral.CharacterYields | c/ownlisp/mpc.c:1750-1753 | inside a literal a backslash is taken with the character behind it, and any other character but a quote alone |
| MpcLiteral.LiteralYields | c/ownlisp/mpc.c:1750-1753 | a literal at the start of any text is taken whole and gives its inside |
| MpcLiteral.EscapedIsBody | c/ownlisp/mpc.c:2124-2158 | escaped text is the inside of a literal |
| MpcLiteral.LiteralRoundTrip | c/ownlisp/mpc.c:2818-2824 | every C string, escaped and quoted, is parsed as one literal whose unescaped inside is the string |
| SatSpec.AssignSize | c++/xulu/formula_impl.cpp:144-159 | clauses plus literals never grow, and fall if the variable occurs |
| SatSpec.RemovesFirst | c++/xulu/formula_impl.cpp:154-157 | exactly the first occurrence of the negated literal is erased |
| SatSpec.AssignKeeps | c++/xulu/formula_impl.cpp:144-159 | assigning keeps clauses free of zeros and of repetitions, removes the variable from such clauses, and keeps clauses harmless |
| SatSpec.AssignComplete | c++/xulu/formula_impl.cpp:144-159 | a model with the literal true is a model of what remains |
| SatSpec.AssignSound | c++/xulu/formula_impl.cpp:144-159 | if no clause but a tautology repeats a literal, a model of what remains becomes a model with the literal true |
| SatSpec.PropagateSize | c++/xulu/formula_impl.cpp:62-102 | propagation strictly shrinks a formula with a unit clause |
| SatSpec.PropagateKeeps | c++/xulu/formula_impl.cpp:62-102 | propagation keeps formulas well formed, distinct and harmless and leaves no unit clause |
| SatSpec.PropagateSat | c++/xulu/formula_impl.cpp:62-102 | propagation keeps satisfiability in both directions, backwards if no clause but a tautology repeats a literal |
| SatSpec.AvoidingSize | c++/xulu/formula_impl.cpp:127-142 | dropping clauses strictly shrinks a formula that has one to drop |
| SatSpec.AvoidingClauses | c++/xulu/formula_impl.cpp:127-142 | exactly the clauses without any of the literals remain |
| SatSpec.PureSat | c++/xulu/formula_impl.cpp:104-142 | pure-literal elimination keeps satisfiability in both directions |
| SatSpec.FirstLiteral | c++/xulu/solver.cpp:27-27 | the branch literal exists, occurs in the formula and is not zero |
| SatSpec.DecideComplete | c++/xulu/solver.cpp:14-39 | every satisfiable formula is answered true, repeated literals or not |
| SatSpec.DecideSound | c++/xulu/solver.cpp:14-39 | a true answer is right when no clause but a tautology repeats a literal |
| SatSpec.DecideCorrect | c++/xulu/solver.cpp:14-39 | the answer is then satisfiability |
| SatSpec.RepetitionMisleads | c++/xulu/formula_impl.cpp:154-157 | every clause that repeats a literal and is no tautology occurs in an unsatisfiable formula, otherwise of units, that is answered true |
| SatSpec.HarmlessIff | c++/xulu/formula_impl.cpp:144-159 | a clause can be added to every formula without repetitions and leave the answer right if and only if it repeats no literal or is a tautology |
| SatFormula.FormulaImpl.EmptyClause | c++/xulu/formula_impl.cpp:52-60 | finds an empty clause exactly if there is one |
| SatFormula.FormulaImpl.UpdateClause | c++/xulu/formula_impl.cpp:144-159 | the erasing loop computes the assigned formula |
| SatFormula.FormulaImpl.UnitClause | c++/xulu/formula_impl.cpp:62-102 | the nested loops compute the propagated formula and tell whether there was a unit |
| SatFormula.FormulaImpl.CollectLiterals | c++/xulu/formula_impl.cpp:106-111 | all literals are collected |
| SatFormula.FormulaImpl.KeepPure | c++/xulu/formula_impl.cpp:112-126 | exactly the literals without their negation remain |
| SatFormula.FormulaImpl.PureClause | c++/xulu/formula_impl.cpp:104-142 | the loops drop exactly the clauses with a pure literal and tell whether any was dropped |
| SatSolver.Solve | c++/xulu/solver.cpp:14-39 | satisfiable formulas are always accepted; if no clause but a tautology repeats a literal the answer is satisfiability |
| SatSolver.Search | c++/xulu/solver.cpp:14-39 | the recursion over copies computes the decision and ends |
| Pipeline.StepInv | c/thread/pipeline.cpp:22-77 | every statement of every thread keeps the invariant on locks, waits, flags and products |
| Pipeline.SpuriousInv | c/thread/pipeline.cpp:30-33 | so does a spurious wakeup |
| Pipeline.OneWaiter | c/thread/pipeline.cpp:30-55 | owner and predecessor never both wait unsignalled on one monitor, so a single notify reaches the right one |
| Pipeline.ExactlyOnceInOrder | c/thread/pipeline.cpp:38-75 | in every state of every run, what is printed followed by what is in flight is exactly what was fed, in order, each raised by ten per stage before the last, also between hand-over and clearing the own flag |
| Pipeline.StuckThreadsWait | c/thread/pipeline.cpp:22-77 | in a stuck state every stage thread waits for work that is not there |
| Pipeline.StuckMeansDone | c/thread/pipeline.cpp:22-104 | a reachable state where no thread can move has everything fed and printed |
| Pipeline.UnfinishedMoves | c/thread/pipeline.cpp:22-104 | until everything has been printed, some thread can take a step in every state of every run |
| Pipeline.StepRank | c/thread/pipeline.cpp:22-104 | every statement strictly lowers a measure |
| Pipeline.EveryRunEnds | c/thread/pipeline.cpp:22-104 | no schedule goes on for ever: a run is bounded in stages, products and spurious wakeups, without fairness |
| Pipeline.LastFlagIsFree | c/thread/pipeline.cpp:79-86 | the start that the program arranges settles everything but the flag of the last stage, which may be up or down |
| Pipeline.DeliveryNeedsTheLastFlag | c/thread/pipeline.cpp:86-92 | as the program starts its stages, delivery is right in all runs if and only if the flag of the last stage happens to be lowered |
| Lispy.Eval | c/ownlisp/m.c:269-298 | evaluation is total, no result has more nodes than its input, and results are values |
| Lispy.Builtin | c/ownlisp/m.c:258-267 | builtins get at least one argument and only values, and return values no larger than the call |
| LispyLaws.CallIsBuiltin | c/ownlisp/m.c:269-293 | a call on arguments that are values and no errors is the builtin on them |
| LispyLaws.FewCells | c/ownlisp/m.c:279-281 | brackets around one expression change nothing, and around none they stay |
| LispyLaws.NoSymbolNoCall | c/ownlisp/m.c:283-288 | two or more cells that do not start with a symbol are an error |
| LispyLaws.UnknownCall | c/ownlisp/m.c:258-267 | a name that is no builtin and no part of the operators is an error |
| LispyLaws.ListCall | c/ownlisp/m.c:173-176 | list gives the list of its arguments |
| LispyLaws.HeadCall | c/ownlisp/m.c:178-186 | head gives the list of the first value |
| LispyLaws.TailCall | c/ownlisp/m.c:188-196 | tail gives the list without the first value |
| LispyLaws.JoinCall | c/ownlisp/m.c:207-221 | join gives the values of all its lists in order |
| LispyLaws.ListCallErrors | c/ownlisp/m.c:178-211 | which error head, tail, eval and join give, and when |
| LispyLaws.UnaryCall | c/ownlisp/m.c:232-233 | on one number minus negates, and the other operators leave it |
| LispyLaws.SumCall | c/ownlisp/m.c:235-241 | plus, minus and times on two or more numbers give the sum, the difference and the product |
| LispyLaws.DivisionCall | c/ownlisp/m.c:242-249 | one more divisor divides what came out so far, rounded towards zero, or gives the error if it is zero or there was one |
| LispyLaws.TruncatedOnce | c/ownlisp/m.c:248-248 | there is only one such quotient |
| LispyLaws.NonNumberCall | c/ownlisp/m.c:225-230 | an operator on anything but numbers is an error |
| Lispy.EvalLong | c/ownlisp/m.c:235-298 | evaluation with numbers of type long: it gives the result of evaluation unless a number leaves the range on the way |
| Lispy.FoldOverflowIff | c/ownlisp/m.c:235-249 | the arithmetic loop leaves the range if and only if folding some leading operands gives a number outside it |
| Lispy.EvalFits | c/ownlisp/m.c:269-298 | a value whose numbers fit evaluates, if at all, to a value whose numbers fit |
| LispyLaws.OverflowIff | c/ownlisp/m.c:235-298 | evaluation leaves the range of long if and only if one of the arithmetic calls it makes does |
| LispyLaws.OpOverflowIff | c/ownlisp/m.c:233-249 | a call on numbers that fit does so if and only if negating, or folding some leading operands, leaves the range |
| LispyLaws.OverflowsOfMinimum | c/ownlisp/m.c:233-248 | minus one number overflows exactly at the least number, and a quotient exactly for the least number by minus one |
| LispyLaws.LongCall | c/ownlisp/m.c:223-267 | a call of an operator does its arithmetic on long, and eval that of its list |
| LispyLaws.LongNested | c/ownlisp/m.c:271-273 | an overflow in a cell is an overflow of the expression |
| LispyLaws.LongHasSixtyFourBits | c/ownlisp/m.c:303-303 | the range of long is that of 64 bits |
| Lispy.EvalIdempotent | c/ownlisp/m.c:295-298 | evaluating twice is evaluating once |
| Lispy.EvalUnquotes | c/ownlisp/m.c:198-205 | evaluating a quoted list is evaluating it as code |
| Lispy.HeadJoinsTail | c/ownlisp/m.c:178-221 | head and tail of a list join to the list |
| Lispy.JoinAssociates | c/ownlisp/m.c:207-221 | joining one after the other is joining all at once |
| Lispy.SumMeaning | c/ownlisp/m.c:235-240 | addition and subtraction of any number of arguments |
| Lispy.ProductMeaning | c/ownlisp/m.c:241-241 | multiplication of any number of arguments |
| Lispy.DivisionByZero | c/ownlisp/m.c:242-249 | division reports an error exactly if a divisor is zero |
| Lispy.QuotientMeaning | c/ownlisp/m.c:248-248 | division truncates towards zero |
| Lispy.FirstErrorWins | c/ownlisp/m.c:271-277 | an expression with failing cells is its leftmost error |
| Lispy.BuiltinOp | c/ownlisp/m.c:223-256 | the arithmetic loop on numbers of type long, with its overflow |
| Lispy.BuiltinJoin | c/ownlisp/m.c:207-221 | the joining loop |
| Lispy.LvalJoin | c/ownlisp/m.c:126-134 | the cells of the second list are moved behind those of the first |
| Lispy.EvalSexpr | c/ownlisp/m.c:269-293 | the loops over the cells compute the evaluation with numbers of type long and end |
| Lispy.LvalEval | c/ownlisp/m.c:295-298 | evaluation as the interpreter runs it ends with that evaluation |
| LispyText.BracketSplices | c/ownlisp/mpc.c:2618-2656 | folding a bracketed rule flattens it into one node with its parts in order |
| LispyText.ListPart | c/ownlisp/mpc.c:2537-2548 | a referenced list rule splices as one tree that reads back as its list |
| LispyText.ParseLine | c/ownlisp/m.c:337-346 | every line that parses gives a tree that reading can handle |
| LispyText.NumberPrinted | c/ownlisp/m.c:159-159 | a printed number, negative or not, is taken whole by the number rule |
| LispyText.SymbolPrinted | c/ownlisp/m.c:161-161 | a printed symbol is not taken for a number, also the minus sign, and is found whole |
| LispyText.ManyReadsBack | c/ownlisp/m.c:144-155 | a printed list of values parses and reads back as the values |
| LispyText.PrintReadRoundTrip | c/ownlisp/m.c:144-165 | a printed value without errors reads back as itself inside one top-level S-expression |
| LispyText.LineIsGood | c/ownlisp/m.c:300-346 | every line that parses reads as a list of machine numbers, number errors, the nine symbols and lists of these |
| LispyText.RoundTripIff | c/ownlisp/m.c:144-165 | a printed value reads back as itself if and only if it is built from machine numbers and the nine symbols alone |
| LispyTextLaws.NumeralReads | c/ownlisp/m.c:300-304 | a line with one numeral, signed or not and with leading zeros or not, reads as the sum of digits times powers of ten, or as an error if long cannot hold it |
| LispyTextLaws.NumberText | c/ownlisp/m.c:159-159 | a number prints in decimal, with a minus sign exactly if it is negative and without leading zeros |
| LispyTextLaws.ErrorText | c/ownlisp/m.c:160-160 | an error prints its message behind the word Error |
| LispyTextLaws.ListLayout | c/ownlisp/m.c:144-155 | the text of a list holds the texts of its values in order, one blank between two and nothing else |
| LispyTextLaws.ListBrackets | c/ownlisp/m.c:162-163 | round brackets around expressions, curly ones around quoted lists |
| LispyTextLaws.Blanks | c/ownlisp/mpc.c:1698-1698 | the six characters that are blanks |
| LispyTextLaws.LineReadsBack | c/ownlisp/m.c:300-346 | values typed one behind the other are the cells of the line, in order |
| LispyTextLaws.CallLine | c/ownlisp/m.c:340-340 | a typed call with one of the nine names reads as that call |
| LispyText.LvalPrint | c/ownlisp/m.c:157-165 | the printer |
| LispyText.ExprPrint | c/ownlisp/m.c:144-155 | the loop that prints cells between brackets |
| LispyText.LvalRead | c/ownlisp/m.c:306-326 | the reader |
| LispyText.ReadChildren | c/ownlisp/m.c:316-323 | the loop over the children that passes brackets and anchors over |
| LispyGrammar.AndYields | c/ownlisp/mpc.c:1149-1163 | what a sequence of two parsers denotes, from what its parts denote |
| LispyGrammar.OrYields | c/ownlisp/mpc.c:1134-1147 | the same for a choice of two |
| LispyGrammar.RepeatsAgain | c/ownlisp/mpc.c:1083-1110 | the same for one more round of a repetition |
| LispyGrammar.LispyClosed | c/ownlisp/m.c:337-346 | every pointer in the graph of the grammar is live |
| LispyGrammar.BlankYields | c/ownlisp/mpc.c:1698-1700 | skipping blanks never fails and stops at the first other character |
| LispyGrammar.TokenYields | c/ownlisp/mpc.c:2818-2840 | a token is its core and the blanks behind it, as a leaf with the text of the core |
| LispyGrammar.NumberYields | c/ownlisp/m.c:339-339 | the graph of the number rule gives the leaf of the number at a position, or fails and is back |
| LispyGrammar.SymbolsYield | c/ownlisp/m.c:340-340 | so does the graph of the symbol rule, from any alternative on |
| LispyGrammar.ListYields | c/ownlisp/m.c:341-342 | so do the graphs of the two list rules |
| LispyGrammar.ExprYields | c/ownlisp/m.c:343-343 | so does a reference to the expression rule |
| LispyGrammar.ExprsRepeat | c/ownlisp/m.c:341-344 | a repetition of expressions denotes their trees in order |
| LispyGrammar.LineYields | c/ownlisp/m.c:337-346 | on every C string the parse of a line has a meaning, and yields a term that denotes the syntax tree of the line exactly if the line has one |
| LispyInterpreter.LineParses | c/ownlisp/m.c:337-357 | the same for the parse as the engine starts it |
| LispyInterpreter.LoopEndsOnEveryLine | c/ownlisp/mpc.c:965-1175 | the loop of the engine ends on every line |
| LispyInterpreter.EngineRoundTrip | c/ownlisp/m.c:144-165 | the text of a printed value parses, in the engine, to a tree that reads as the value |
| LispyInterpreter.ReadLispy | c/ownlisp/m.c:356-359 | engine and reader together compute what the line reads as |
| LispyInterpreter.Interpret | c/ownlisp/m.c:351-370 | one round of the prompt: a line that does not parse is rejected, the others print their value unless a number leaves the range of long |
| LispyInterpreter.RepliesFit | c/ownlisp/m.c:300-370 | the numbers of every line fit, and so do those of its value |
| TickDispatch.MoveInv | tick/src/tick_server.cc:203-214 | every step keeps: queue length is bytes in the pipe, plus one if the server is between push and write, plus one if the worker is between read and pop |
| TickDispatch.NeverUnderflows | tick/src/tick_thread.cc:71-89 | in every interleaving front and pop find a message |
| TickDispatch.RoundRobinInOrder | tick/src/tick_server.cc:203-214 | message k goes to worker k modulo the number of workers, once and in order |
| TickDispatch.QuietMeansSent | tick/src/tick_thread.cc:71-89 | when nothing but accepting a frame is possible, every accepted message has been sent |
| TickDispatch.TenStepsEach | tick/src/tick_thread.cc:71-89 | each message takes ten steps from acceptance to dispatch in every interleaving |
| TickFrame.NetworkRoundTrip | tick/src/tick_server.cc:109-110 | network order round trip |
| TickFrameLaws.NetworkIsPositional | tick/src/tick_server.cc:109-110 | a word is the number whose digits to the base 256 are its bytes, most significant first |
| TickFrameLaws.SmallWord | tick/src/tick_server.cc:173-174 | the word of a number below 65536, both ways |
| TickFrameLaws.SignedMeaning | tick/src/tick_server.cc:91-110 | the signed reading is the number of 32 bits with the same pattern |
| TickFrameLaws.FrameIsQueued | tick/src/tick_server.cc:86-207 | a datagram of at most 8192 bytes that announces its own length is queued as it stands |
| TickFrameLaws.LargestDatagram | tick/src/csapp.cc:584-585 | a frame of 8192 bytes is taken, one of 8193 bytes is cut short and dropped |
| TickFrameLaws.LargestPayload | tick/src/tick_server.cc:56-56 | the buffer takes a payload of 10232 bytes and not one more |
| TickFrame.TakeIsPrefix | tick/src/csapp.cc:580-643 | a read takes a prefix of the bytes that wait, across datagrams, and leaves the rest; with too few it ends at a datagram without bytes or fails on an empty socket |
| TickFrame.Reader.Refill | tick/src/csapp.cc:580-596 | an empty buffer is filled from the next datagram |
| TickFrame.Reader.ReadSome | tick/src/csapp.cc:580-606 | one copy out of the buffer, and when it would leave the target |
| TickFrame.Reader.ReadBytes | tick/src/csapp.cc:624-643 | the loop that reads n bytes, what it writes and where, and when it would leave the target |
| TickFrame.TickServer.ReadWord | tick/src/tick_server.cc:86-140 | header and code are read as signed 32-bit words, over what the buffer held where bytes are missing |
| TickFrame.TickServer.ReadPacket | tick/src/tick_server.cc:142-166 | a packet is accepted with the payload bytes that arrived, unless there are none or the socket ran empty; the copy leaves the buffer exactly if they do not fit |
| TickFrame.TickServer.BuildObuf | tick/src/tick_server.cc:168-179 | length and code are put in front of the payload |
| TickFrame.TickServer.Receive | tick/src/tick_server.cc:190-207 | a readable event makes of the waiting datagrams what Serve says, and leaves the others waiting |
| TickFrame.ServeStream | tick/src/tick_server.cc:86-207 | in terms of the waiting bytes: the message is the frame at their head, byte for byte and wherever datagrams end; one cut short by a datagram without bytes is passed on with its length corrected, one cut short by an empty socket is dropped |
| TickFrame.OverrunIff | tick/src/tick_server.cc:142-166 | the copy leaves the buffer if and only if the smaller of announced payload and waiting bytes exceeds the room behind header and code |
| TickFrame.OverrunHappens | tick/src/tick_server.cc:56-56 | two datagrams of the largest size do so |
| TickFrame.ServeWhole | tick/src/tick_server.cc:190-207 | a datagram with a whole frame is served alone and its frame is the message |
| TickFrame.ServedAloneIff | tick/src/csapp.cc:580-604 | a datagram is served without touching what is queued behind it if and only if it is empty or holds header and code and all it announces |
| TickFrame.ServeProgress | tick/src/tick_server.cc:190-207 | every event takes at least one datagram |
| TickFrame.FramesInOrder | tick/src/tick_server.cc:181-221 | if every waiting datagram is whole, nothing is overrun and each frame becomes one message, in order |
| TickFrame.RunProcess | tick/src/tick_server.cc:181-221 | the server loop until nothing waits |
| TickServer.FramesKept | tick/src/tick_server.cc:181-221 | in every run to which only whole datagrams arrive, the messages made followed by the frames that wait are the frames that arrived, in order |
| TickServer.FramesToWorkers | tick/src/tick_server.cc:190-214 | in every such run the buffer is not overrun, and each worker has its share of the frames, once and in order, sent, in hand or queued |
| TickServer.EveryFrameSent | tick/src/tick_server.cc:203-214 | when nothing waits and no thread can move, frame k has been sent by worker k modulo 16 as its message number k / 16 |
| TickServer.ShareAt | tick/src/tick_server.cc:212-214 | message k is number k / n of the share of worker k modulo n |
| MmapFile.MaskIsRemainder | tmp/writable.cc:27-31 | masking with a power of two minus one takes the remainder |
| MmapFile.RoundupIsMultiple | tmp/writable.cc:23-25 | the smallest multiple from the number on |
| MmapFile.TruncateIsPageStart | tmp/writable.cc:27-31 | the start of the page of an offset; the page lies inside every region of whole pages that holds the offset |
| MmapFile.PosixMmapFile.constructor | tmp/writable.cc:75-87 | an empty file with a window size of whole pages |
| MmapFile.PosixMmapFile.UnmapCurrentRegion | tmp/writable.cc:33-55 | closing a window keeps the file, remembers unsynced data and sets the size of the next window |
| MmapFile.WindowSizes | tmp/writable.cc:47-50 | windows are 64K, 128K, 256K, 512K and from then on a megabyte |
| MmapFile.PosixMmapFile.MapNewRegion | tmp/writable.cc:57-72 | a new window extends the file and keeps what it holds |
| MmapFile.PosixMmapFile.Append | tmp/writable.cc:96-118 | appending appends to the contents, leaves on disk what was there of the earlier bytes, and ends despite its empty pass after remapping |
| MmapFile.PosixMmapFile.Sync | tmp/writable.cc:154-181 | afterwards every appended byte is on disk, by a flush of pages inside the window or of the whole file |
| MmapFile.PosixMmapFile.SyncWindow | tmp/writable.cc:166-180 | the pages flushed lie inside the window and hold everything not synced before |
| MmapFile.PosixMmapFile.Close | tmp/writable.cc:120-148 | the file holds exactly what was appended, on disk what was there before |
| MmapFile.WriteFile | tmp/writable.cc:96-181 | after any appends and syncs and a close the file is the concatenation of the appends, and everything appended before the last sync is on disk |
| Intersection.GetIntersectionNode | acm/getInter.cc:48-106 | the first shared node, or null exactly if there is none, with every pointer as on entry |
| Intersection.ReverseList | acm/getInter.cc:69-77 | reversal in place |
| Intersection.CountDetour | acm/getInter.cc:69-97 | through the reversed list the second list has as many nodes as lead to the meeting on both sides, plus one, and both lists are restored |
| Intersection.MeetingShares | acm/getInter.cc:48-106 | lists that meet in a node agree from there on |
| Intersection.FindMeeting | acm/getInter.cc:57-68 | lists with a common last node have a first common node |
| Intersection.NoMeeting | acm/getInter.cc:66-68 | lists with different last nodes share nothing |
| EditDistance.ScriptBound | acm/QueryAnalysis.h:148-182 | no script of insertions, deletions and replacements anywhere is shorter than the table entry |
| EditDistance.OneEdit | acm/QueryAnalysis.h:167-176 | one change moves the distance to any list by at most one |
| EditDistance.ShortestScript | acm/QueryAnalysis.h:167-176 | some script is as short as the table entry |
| EditDistance.CompareString | acm/QueryAnalysis.h:148-182 | two lists are alike exactly if some script within the limit turns one into the other |
| EditDistance.FillRow | acm/QueryAnalysis.h:167-176 | a row of the table holds the distances of prefixes |
| EditDistance.FillEdges | acm/QueryAnalysis.h:160-165 | so do the edges |
| EditDistance.Min | acm/QueryAnalysis.h:96-99 | the least of three |
| Kmp.GetNext | acm/astar.cpp:23-38 | next[j] is the length of the longest proper border of the first j characters, -1 at 0 |
| Kmp.Accept | acm/astar.cpp:29-34 | a matching candidate gives the longest border of one character more |
| Kmp.Reject | acm/astar.cpp:35-36 | after a mismatch the border of the candidate is the next one to try, and none is missed |
| TernarySpec.SearchAfterInsert | c/Ternary/main.c:14-55 | insertion adds its word and nothing else |
| TernarySpec.InsertOrdered | c/Ternary/main.c:14-32 | the ordering at every node is kept |
| TernarySpec.FindsExactlyInserted | c/Ternary/main.c:14-55 | after any insertions exactly the inserted words are found |
| TernaryHeap.InsertWord | c/Ternary/main.c:14-32 | insertion into linked nodes computes the inserted tree and shares no node |
| TernaryHeap.SearchWord | c/Ternary/main.c:34-55 | the pointer walk finds exactly the words of the tree |
| TernaryHeap.BuildAndSearch | c/Ternary/main.c:14-55 | a tree built in memory finds exactly the inserted words |

## Left out

- mpc input from files and pipes, the text of errors, the compilation of grammars and regular expressions, parser deletion and AST printing: input and output, strings and memory bookkeeping.
- LispyGrammar.LineYields: the parser graph of the grammar is written down as the library builds it; the compilation of the grammar text to that graph is not modelled.
- LispyText.PrintReadRoundTrip: tags are lists of names instead of texts joined by bars.
- MpcEngine.Parse: takes a bound on the recursive meaning as a ghost argument, because a parse without a meaning does not end; destructors of dropped values have no effect in the model.
- MpcStacks.ShrinkingKeeps: exact arithmetic; ShrinkingKeepsRounded allows for rounding errors, but the double operations themselves are not modelled.
- SatSolver.Solve: the negation of the most negative machine integer overflows in C++ and does not here; reading and printing formulas are left out.
- SatSpec.HarmlessIff: is about clauses; whether one particular formula with a harmful clause is answered right depends on its other clauses and on the search order.
- Lispy.Eval: cells are values instead of memory that is reused and freed.
- Lispy.SumMeaning: unbounded numbers; EvalLong and FoldOverflowIff say when numbers of type long give the same.
- Lispy.ProductMeaning: unbounded numbers; EvalLong and FoldOverflowIff say when numbers of type long give the same.
- LispyInterpreter.Interpret: what the program does after an overflow, which C leaves undefined, is not modelled.
- Pipeline.ExactlyOnceInOrder: products do not overflow; time, logging and the sleep at the end are left out.
- TickServer.FramesToWorkers: runs to which a datagram arrives that is not whole are covered by ServeStream and the dispatcher separately.
- TickDispatch.RoundRobinInOrder: the pipe never fills, a readable pipe yields one byte, and sending succeeds; sockets, polling, the producer and logging are left out.
- TickFrame.TickServer.Receive: what the program does after a copy has left the buffer is not modelled; reads interrupted by signals are retried and left out.
- MmapFile.PosixMmapFile.Append: system calls succeed.
- EditDistance.CompareString: takes word lists of at most 255 words; splitting text into words is left out.
- TernaryHeap.InsertWord: allocation succeeds, and the printing of characters is left out.
- The rest of the collection: system-call demos, network clients, scripts, generated code, unfinished exercises and simple searches, which hold no property beyond the text of a single function.
