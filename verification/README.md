# fsmc: a verified model

fsmc compiles hierarchical state machines to C++, SMV, diagrams and coverage harnesses. This
project models the parts of the compiler where meaning has to survive a transformation, and
proves that it does, or proves exactly when. Verify it with `dafny verify dfyconfig.toml`
(Dafny 4.11).

| files | subject |
|---|---|
| `Expr*.dfy` | expression printer and precedence parser |
| `Ir`, `Order`, `Priority`, `Table*.dfy` | transition priorities and the flattened C++ transition table |
| `Guard*.dfy`, `Mcdc*.dfy`, `Bool` | guards, the coverage generator's guard reader, the MC/DC pair search |
| `Smv*.dfy` | guard conversion for SMV, the emitted step relation with its timers |
| `Graph*.dfy`, `Strings` | hierarchy repair, adjacency indices, canonical form |
| `Runs`, `Safety*.dfy`, `Traps*.dfy` | runs of the generated machine; reachability and trap warnings |
| `Diagram*.dfy` | the tree walk of the PlantUML and Mermaid printers |
| `Json*.dfy` | JSON strings and values, the state section of the exporter |
| `Manifest*.dfy` | the companion manifest: YAML and JSON writers and the line-based reader |
| `Fnv*.dfy`, `Powers`, `Text` | FNV-1a identifiers, powers of two, character classes and cursors |

Code that works by changing things step by step is modelled by methods and classes with loops
(`ExprParser.Parser`, `GraphOps.FsmIr`, `DiagramPrinter.Printer`, `JsonParser.Parser`,
`JsonStates.Writer`, `ManifestEmitter.Emitter`, `ManifestJsonEmitter.Writer`, the searches), each proved against a
specification function; the theorems are about those functions.

Depth maps (`depth`, `chain`, `tree` with a `height`, together `Ranks`) say that a hierarchy is a
forest and that initial substates end: the original walks end only on such models. `converts`
stands for the library's number conversion: which texts it accepts. The clock, files and the
command line do not appear.

## What does not hold

Some natural claims are false of the code. Each has a lemma with a concrete input and a lemma
with the exact condition, named in the table below.

* A port reference loses its `in.`, `out.` or `reg.` prefix when printed and is read again as a
  variable (`ExprExact.PortPrefixIsLost`; `ExprExact.RoundTripExactly` is the exact class).
* An internal transition whose target is composite is written to the C++ table as an ordinary row
  and re-enters the composite (`Table.InternalOnCompositeLeaves`; exactly when:
  `Table.TableKeepsMeaning`).
* The SMV conversion erases domain prefixes inside longer names: `main.x` becomes `max`
  (`SmvMeaning.PrefixInsideANameIsErased`; exactly when: `SmvDomains.StripsNothingExactly`,
  `SmvDomains.StripsOneDomainExactly`). References that differ in their domain alone become one.
* An SMV timer wraps to zero after its bound, so a guarded timeout whose guard becomes true late is
  off again (`SmvTimers.DueTimeoutIsOffAgain`; exactly when: `SmvTimers.TimedRowAppliesExactly`).
* Canonicalisation appends events to the signals after sorting them, so it may take two runs to
  reach its fixed point (`GraphProps.OneRunIsNotEnough`; exactly when:
  `GraphProps.OneRunSufficesExactly`).
* W0201 can name a state that the machine enters, when an initial substate stands outside the tree
  of its composite, as hierarchy repair may leave it (`SafetyReport.FalseAlarm`; exactly when:
  `SafetyRuns.NoFalseAlarmExactly`).
* W0201 can miss a state that the machine never enters, because the search enters every substate
  of a composite and the machine one (`SafetyReport.MissedState`; exactly when:
  `SafetySilence.SilenceIsRightExactly`).
* The search follows the main target of a transition only, so a state entered through a further
  target of a fork can be reported (`SafetyForks.ForkTargetIsReported`; exactly when:
  `SafetyForks.ForksAreCoveredExactly`).
* A run of three equal operator characters in a guard is converted to two, not one
  (`SmvOperators.ThreeSignsLeaveTwo`; exactly: `SmvOperators.CollapseExactly`).
* A state name with a colon loses its invariant in JSON too, although it is quoted there; an empty
  one as well (`ManifestJsonDocument.ColonIsLostInJson`; exactly when:
  `ManifestJsonDocument.JsonRoundTripsExactly`).
* State names are written without quotes in the invariant section of a manifest, so some are not
  read back (`ManifestKeys.ColonInNameIsLost`; exactly when:
  `ManifestKeys.ManifestRoundTripsExactly`).

## Model

| member | source | states |
|---|---|---|
| `ExprExact.RoundTripExactly` | src/ir/expression.cpp:96-170 | main result: for every tree without a float literal and other than an unparsed text, printing and parsing gives the tree back if and only if the tree is canonical (non-negative 64-bit literals, plain identifiers, dotted port references not rooted at `in`, `out` or `reg`, enum literals with `::`) |
| `ExprRoundTrip.CanonicalRoundTrips` | src/ir/expression.cpp:493-521 | every canonical tree is what its printed form parses to |
| `ExprAccepted.ParsesExactly` | src/ir/expression.cpp:493-521 | main result: a text is parsed to a tree other than an unparsed text if and only if, its line breaks dropped, it is a spelling of that tree with blanks before it and blanks and semicolons behind it; a text that is no spelling is kept as it is, or as the empty text when it holds blanks and semicolons only |
| `ExprReading.Reads` | src/ir/expression.cpp:251-491 | wherever a spelling stands in a text and its token ends, every precedence level up to its own reads exactly the tree it stands for and stops there |
| `ExprReading.ReadsChain` | src/ir/expression.cpp:251-370 | a chain of operators is read from the left, its right operand one level tighter, whatever blanks stand around the operator |
| `ExprAccepted.AcceptsLevel` | src/ir/expression.cpp:251-402 | whatever a level reads out of any text is a spelling of the tree read, at least as tight as the level, between blanks |
| `ExprAccepted.AcceptsPrimary` | src/ir/expression.cpp:404-491 | brackets, numerals with suffixes and words are all that is read as an operand |
| `ExprSpelling.CharactersExactly` | src/ir/expression.cpp:404-485 | which characters numerals, suffixes, words and blanks are made of |
| `ExprSpelling.ClassifyExactly` | src/ir/expression.cpp:453-485 | a word is read as a leaf if and only if it names it: the constants, ports behind `in.` or `out.`, variables behind `reg.` or bare, enumerators with `::`, owners with a field |
| `ExprRoundTrip.PrintParses` | src/ir/expression.cpp:96-170 | a printed tree is parsed to that tree whatever prefixes its words carry: `reg.` on variables, `in.` or `out.` on ports |
| `ExprCases.TighterTakesTheMiddle` | src/ir/expression.cpp:251-370 | for every two of the ten operators, the tighter one takes the operand between them, and of two equal ones the first |
| `ExprCases.SignsParse` | src/ir/expression.cpp:372-402 | a plus before a word changes nothing; minus, tilde and exclamation mark are kept |
| `ExprCases.NegativeLiteralsBecomeNegations` | src/ir/expression.cpp:96-170 | a negative literal is printed with a sign and read again as the negation of a positive one |
| `ExprCases.LargeNumeralsAreKept` | src/ir/expression.cpp:425-449 | a numeral beyond 63 bits, with a sign or without, is kept as the text it is |
| `ExprCases.KeptTextsComeBackExactly` | src/ir/expression.cpp:493-521 | a text kept as it was comes back when printed and parsed again if and only if it is no spelling, and not blank unless it is empty |
| `ExprCases.CallsAreKept` | src/ir/expression.cpp:493-521 | a word with an opening bracket behind it is kept as the text it is, whatever follows |
| `ExprCases.PrefixesAreRead` | src/ir/expression.cpp:404-491 | `in.sensor_temp + reg.offset` is the sum of a port and a variable |
| `ExprCases.HashCallIsKept` | src/ir/expression.cpp:493-521 | `compute_hash(buffer, 128);` is kept as that text |
| `ExprTokens.DigitsReadBack` | src/ir/expression.cpp:96-170 | decimal digits written for a number have that number as value |
| `ExprExact.ComingBackIsCanonical` | src/ir/expression.cpp:493-521 | only canonical trees come back: the converse half, by weighing the text a parse uses against the leaves it yields |
| `ExprExact.SoundLevel` | src/ir/expression.cpp:251-370 | whatever a level reads out of any text, its leaves weigh no more than the text used, and equally much only for canonical trees |
| `ExprExact.SoundUnary` | src/ir/expression.cpp:371-402 | the same for the unary level |
| `ExprExact.PrintingWeighs` | src/ir/expression.cpp:96-170 | printing adds no weight: the text of a tree weighs at most its leaves |
| `ExprExact.PortPrefixIsLost` | src/ir/expression.cpp:404-491 | counterexample: `in.x` is parsed as port `x`, printed without its prefix, and parsed again as a variable |
| `ExprParser.ParseText` | src/ir/expression.cpp:493-521 | the cleaning and the driver loop compute the meaning of every text; they end on all of them |
| `ExprParser.Parser.ParseBitwiseOr` | src/ir/expression.cpp:251-265 | the bitwise-or chain: fails exactly when the grammar does, otherwise yields the grammar's tree with the cursor behind it, inside the text and past at least one character |
| `ExprParser.Parser.ParseBitwiseXor` | src/ir/expression.cpp:267-281 | the bitwise-xor chain: fails exactly when the grammar does, otherwise yields the grammar's tree with the cursor behind it, inside the text and past at least one character |
| `ExprParser.Parser.ParseBitwiseAnd` | src/ir/expression.cpp:283-297 | the bitwise-and chain, which stops before a doubled `&`: fails exactly when the grammar does, otherwise yields the grammar's tree with the cursor behind it, inside the text and past at least one character |
| `ExprParser.Parser.ParseShift` | src/ir/expression.cpp:299-324 | the shift chain: fails exactly when the grammar does, otherwise yields the grammar's tree with the cursor behind it, inside the text and past at least one character |
| `ExprParser.Parser.ParseAdditive` | src/ir/expression.cpp:326-346 | the additive chain: fails exactly when the grammar does, otherwise yields the grammar's tree with the cursor behind it, inside the text and past at least one character |
| `ExprParser.Parser.ParseMultiplicative` | src/ir/expression.cpp:348-369 | the multiplicative chain: fails exactly when the grammar does, otherwise yields the grammar's tree with the cursor behind it, inside the text and past at least one character |
| `ExprParser.Parser.ParseUnary` | src/ir/expression.cpp:371-402 | prefix operators: fails exactly when the grammar does, otherwise yields the grammar's tree with the cursor behind it, inside the text and past at least one character |
| `ExprParser.Parser.ParsePrimary` | src/ir/expression.cpp:404-491 | brackets, words and numbers: fails exactly when the grammar does, otherwise yields the grammar's tree with the cursor behind it, inside the text and past at least one character |
| `ExprParser.Parser.ParseNumber` | src/ir/expression.cpp:404-491 | digits, dots and suffixes; integers beyond 64 bits fail |
| `ExprParser.Parser.ScanNumber` | src/ir/expression.cpp:404-491 | the lexeme is the run of number characters, the suffix is skipped, and a dot makes it a float |
| `Table.TableKeepsMeaning` | src/backend/cpp/cpp_model_emitter.cpp:905-1051 | main result: for every model and every situation, the first matching row does what the highest-priority enabled transition (document order on ties) does with its target resolved through history or initial substates, exactly when that transition is not internal with a composite target; such a one enters the composite instead |
| `Table.ExpansionMatches` | src/backend/cpp/cpp_model_emitter.cpp:974-1051 | the rows of one transition match exactly when it is enabled by its own source, event, time trigger and guard, and the first that matches performs its actions and leads to the recorded substate or else the initial leaf |
| `Table.RowSaysWhatTheEdgeSays` | src/backend/cpp/cpp_model_emitter.cpp:990-1008 | a row carries its transition's own fields: the event name or the kind and duration of the time trigger, the guard unless it is absent, empty, `else` or `default`, and the two actions |
| `TableTargets.DestinationLeads` | src/backend/cpp/cpp_model_emitter.cpp:888-959 | where a transition leads, by declared states and records alone: the recorded substate among those history may restore, else the end of the way along initial substates, else the target |
| `TableTargets.SubstatesExactly` | src/backend/cpp/cpp_model_emitter.cpp:914-930 | the substates that history may restore: the children, or with deep history the ends of the ways down through composite children |
| `TableTargets.SubstatesInOrder` | src/backend/cpp/cpp_model_emitter.cpp:914-930 | of two children the one declared first contributes first |
| `TableTargets.LeafEndsTheWay` | src/backend/cpp/cpp_model_emitter.cpp:905-911 | the initial leaf ends the way along initial substates, and none goes on from it |
| `TableTargets.RecordedExactly` | include/fsm/backend/cpp/runtime/transition.hpp:232-250 | a substate is recorded if and only if the records lead from the composite to it |
| `Table.HistoryRowsMatch` | src/backend/cpp/cpp_model_emitter.cpp:1013-1033 | one of the history rows matches exactly when the transition is enabled and some substate is recorded, and it is the row of the first recorded one |
| `Table.FirstRecorded` | include/fsm/backend/cpp/runtime/transition.hpp:232-250 | the substate that the history guard's walk along the records finds first in declaration order, or none of them is recorded |
| `Table.RowsOfAll` | src/backend/cpp/cpp_model_emitter.cpp:974-1051 | the first matching row of the whole table lies among the rows of the first enabled transition |
| `Table.InternalOnCompositeLeaves` | src/backend/cpp/cpp_model_emitter.cpp:974-1051 | counterexample: an internal transition on a composite state is written as an ordinary row and leaves the active substate |
| `Table.EmitTransitionTable` | src/backend/cpp/cpp_model_emitter.cpp:888-1051 | sorting and row expansion produce the specified rows, in order |
| `Table.EmitRows` | src/backend/cpp/cpp_model_emitter.cpp:974-1051 | the branches for history, composite, internal and plain targets produce the specified rows of one transition |
| `Priority.OneSourceOneOrder` | src/ir/fsm_graph_ops.cpp:204-222 | filtered to one source, the canonical per-source sort, the global sort of the back ends and one after the other give the same sequence |
| `Priority.SameTransitionFires` | src/backend/formal/smv_serializer.cpp:415-420 | so all of them pick the same first enabled transition of a state |
| `Priority.FirstMatchWins` | src/backend/cpp/cpp_model_emitter.cpp:967-972 | the first enabled transition in sorted order is the most urgent one, the earliest on ties |
| `Priority.AheadIsLessRank` | src/backend/formal/smv_serializer.cpp:415-420 | of two transitions the one ahead is that with the smaller priority number, none given (0) coming last |
| `Priority.OrdersTellSources` | src/ir/fsm_graph_ops.cpp:204-222 | the source numbering used as sort key covers every source and never gives two sources one number |
| `Order.FilterOfSort` | src/ir/fsm_graph_ops.cpp:204-222 | a stable sort commutes with keeping some of the elements |
| `Order.StableSortIsUnique` | src/backend/cpp/cpp_model_emitter.cpp:967-972 | any sorted arrangement that keeps the order of ties is the stable sort |
| `Order.DistinctSortIsUnique` | src/ir/fsm_graph_ops.cpp:241-258 | without ties every sorted arrangement of the same elements is the same list |
| `GuardMeaning.PrintedGuardReadsBack` | src/backend/verification/mcdc_harness_generator.cpp:19-77 | main result: for every guard tree with plain names, reading the printed C++ text by splitting at the rightmost operator outside brackets gives a formula that evaluates as the guard in every environment |
| `GuardMeaning.JoinedDisjunctionReads` | src/backend/verification/mcdc_harness_generator.cpp:19-77 | joined alternatives read as the disjunction of the pieces, although the text is split from the right |
| `GuardMeaning.JoinedConjunctionReads` | src/backend/verification/mcdc_harness_generator.cpp:19-77 | joined conjuncts read as the conjunction of the pieces |
| `GuardMeaning.ListedTextIsOneCondition` | src/backend/verification/mcdc_harness_generator.cpp:19-30 | a text that is listed as a condition is one condition, whatever operators stand in it |
| `GuardMeaning.BareOperators` | src/backend/verification/mcdc_harness_generator.cpp:19-77 | operators without operands take the empty name |
| `GuardMeaning.PrintedIsTidy` | src/ir/guard.cpp:5-31 | printed guards are balanced and trimmed, and only an alternative shows a doubled bar outside brackets |
| `GuardReparse.ScanFindsRightmost` | src/backend/verification/mcdc_harness_generator.cpp:19-77 | the right-to-left scan with its depth counter finds the rightmost doubled operator at depth zero, or there is none |
| `GuardReparse.ParseSimpleExpr` | src/backend/verification/mcdc_harness_generator.cpp:19-77 | the recursive reader computes the specified formula for every text and ends on all of them |
| `GuardReparse.FindTopLevel` | src/backend/verification/mcdc_harness_generator.cpp:19-77 | the backward loop finds the specified split position |
| `Mcdc.ComputeMcdcPairs` | src/backend/verification/mcdc_harness_generator.cpp:79-134 | filling the truth table and the nested mask loops yield for each condition the pair at the least separating mask, in condition order |
| `Mcdc.SearchIsExact` | src/backend/verification/mcdc_harness_generator.cpp:79-134 | main result: every returned pair differs in its own condition alone, true against false, with different outcomes; and a condition gets a pair if and only if the outcome depends on it in some environment (section 6.4.4.2 of DO-178C) |
| `Mcdc.PairShows` | src/backend/verification/mcdc_harness_generator.cpp:79-134 | the two vectors built from a separating mask show independence of that condition |
| `Mcdc.FoundExactlyWhenItMatters` | src/backend/verification/mcdc_harness_generator.cpp:79-134 | the bit-mask search reaches every valuation: it finds a mask exactly when some environment toggles the condition |
| `Mcdc.RowOfValuation` | src/backend/verification/mcdc_harness_generator.cpp:79-134 | a table row holds the outcome of the environment its mask stands for |
| `Mcdc.ReadOnceIsFullyCovered` | src/backend/verification/mcdc_harness_generator.cpp:79-134 | if every condition occurs exactly once, every condition gets a pair |
| `Mcdc.Sensitize` | src/backend/verification/mcdc_harness_generator.cpp:79-134 | in a read-once formula each condition can be made decisive by setting the others |
| `Mcdc.Attain` | src/backend/verification/mcdc_harness_generator.cpp:79-134 | a read-once formula takes both values |
| `McdcHarness.PrintedGuardMentions` | src/ir/guard.cpp:90-100 | printing and re-reading keeps every name as often as the guard mentions it |
| `McdcHarness.HarnessExpectationsHold` | src/backend/verification/mcdc_harness_generator.cpp:136-223 | the expectations written to the harness hold of the guard itself: each vector's expected outcome is the guard's, and a pair exists exactly for the conditions that can toggle the guard |
| `McdcHarness.ReadOnceGuardIsFullyCovered` | src/backend/verification/mcdc_harness_generator.cpp:136-223 | a guard that mentions each condition once gets a pair for each |
| `SmvMeaning.ConvertedGuardMeansTheSame` | src/backend/formal/smv_serializer.cpp:51-136 | main result: for every nesting of `fsm::not_`, `fsm::and_`, `fsm::or_` over references that keep their names (dotted identifiers with at most one of the three domains in front and none of them behind it), whatever blanks follow the commas, the converted text has no `<` left, is one SMV expression, and denotes the same Boolean function of the ports and variables |
| `SmvMeaning.ConvertedTextReads` | src/backend/formal/smv_serializer.cpp:51-136 | whatever the names: the converted text reads as the guard with the prefixes erased in each of its names |
| `SmvDomains.StripsNothingExactly` | src/backend/formal/smv_serializer.cpp:54-60 | erasing the domain prefixes leaves a text alone if and only if none of `in.`, `out.` and `reg.` occurs in it |
| `SmvDomains.StripsOneDomainExactly` | src/backend/formal/smv_serializer.cpp:54-60 | a reference with a domain in front becomes the rest if and only if none of the three occurs in the rest; in any case the domain itself is dropped |
| `SmvDomains.StrippedPrints` | src/backend/formal/smv_serializer.cpp:54-60 | erasing prefixes in the text of a guard is erasing them in its names, for all names: no occurrence lies across a bracket, comma or operator |
| `SmvMeaning.PrefixInsideANameIsErased` | src/backend/formal/smv_serializer.cpp:54-60 | counterexample: `main.x` and `in.main.x` become `max` |
| `SmvGuardSteps.StepKeepsMeaning` | src/backend/formal/smv_serializer.cpp:62-119 | each rewriting step on mixed text takes a printed term to a printed term with the same meaning, and none applies to native text |
| `SmvGuardSteps.StepConverts` | src/backend/formal/smv_serializer.cpp:62-119 | one pass for a template kind replaces the first template of that kind and nothing else |
| `SmvGuardSteps.RewriteDelivers` | src/backend/formal/smv_serializer.cpp:62-119 | the loop turns the whole template into its native form |
| `SmvRewrite.StepShrinks` | src/backend/formal/smv_serializer.cpp:62-119 | on every string each replacement lowers the count of `<`, so the rewriting ends |
| `SmvRewrite.StepTakesOneOpen` | src/backend/formal/smv_serializer.cpp:62-119 | the same for one template kind |
| `SmvRewrite.SplitKeepsOpens` | src/backend/formal/smv_serializer.cpp:86-111 | splitting arguments at top-level commas loses no bracket |
| `SmvRewrite.RewriteTemplates` | src/backend/formal/smv_serializer.cpp:62-119 | the `changed` loop computes the rewriting to its end |
| `SmvRewrite.ReplaceFirst` | src/backend/formal/smv_serializer.cpp:62-119 | one pass over the string: header found, closing bracket matched, arguments rejoined in place |
| `SmvRewrite.FindClose` | src/backend/formal/smv_serializer.cpp:70-80 | the depth counter finds the matching bracket or reports that there is none |
| `SmvRewrite.SplitArguments` | src/backend/formal/smv_serializer.cpp:86-99 | the splitting loop yields the specified argument list |
| `SmvReader.ToSmvPredicate` | src/backend/formal/smv_serializer.cpp:51-136 | prefix erasure, rewriting and collapsing of doubled operators, one after the other |
| `SmvTimers.Serialize` | src/backend/formal/smv_serializer.cpp:363-452 | timers, bounds and case rows in sorted order; rows without source or target are skipped |
| `SmvOperatorMeaning.OperatorGuardMeansTheSame` | src/backend/formal/smv_serializer.cpp:51-136 | main result: for every guard tree over references that keep their names, the conversion of its C++ text with `&&`, `\|\|` and `!` is one SMV expression without a doubled operator, and it evaluates as the guard in every environment |
| `SmvOperators.GuardTextConverts` | src/backend/formal/smv_serializer.cpp:51-136 | that text is the guard laid out with single operators and each name freed of its domain, and nothing else is changed |
| `SmvOperatorMeaning.ReadsPart` | src/backend/formal/smv_serializer.cpp:51-136 | unbracketed chains are read with `&` before `\|`, brackets standing exactly around alternatives within conjunctions and under a negation |
| `SmvOperators.CollapseExactly` | src/backend/formal/smv_serializer.cpp:121-136 | doubled signs: a run of `n` equal characters is left with every second one, rounded up, and the text between runs stays |
| `SmvOperators.ComparisonConverts` | src/backend/formal/smv_serializer.cpp:51-136 | `x == y` becomes `x = y` without the domains of its operands |
| `SmvOperators.ThreeSignsLeaveTwo` | src/backend/formal/smv_serializer.cpp:121-136 | counterexample: three signs in a row leave two, so the conversion halves and does not single |
| `SmvSteps.NextStateExactly` | src/backend/formal/smv_serializer.cpp:412-449 | main result: the next state is the target of the most urgent transition (0 last, document order on ties) that begins in the current state, has both ends, is set off by the input's event, by its reached duration or by nothing, and whose guard is on; if there is none the state stays |
| `SmvSteps.BoundIsLongestWait` | src/backend/formal/smv_serializer.cpp:363-376 | a state has a timer if and only if some transition waits in it, and its bound is the longest wait |
| `SmvTimers.CollectTimeouts` | src/backend/formal/smv_serializer.cpp:363-376 | each state's bound is its longest time trigger, with zero counted as one |
| `SmvTimers.TimerCountsDwell` | src/backend/formal/smv_serializer.cpp:402-410 | in every run a timer equals the number of consecutive steps just spent in its state, modulo its bound plus one, and stays within the bound |
| `SmvTimers.TimerZeroOnEntry` | src/backend/formal/smv_serializer.cpp:402-410 | on entry from elsewhere, and at the start, it is zero |
| `SmvTimers.TimedRowAppliesExactly` | src/backend/formal/smv_serializer.cpp:422-446 | a timed row applies exactly when its state is active, the dwell time modulo the bound plus one has reached the duration, and the guard holds: after the wrap-around a guarded timeout is off again |
| `SmvTimers.DueTimeoutIsOffAgain` | src/backend/formal/smv_serializer.cpp:402-446 | counterexample for every duration: a guarded timeout applies after its `d` steps, and no longer one step later, the state unchanged and the guard on |
| `SmvTimers.NoStutterOnceDue` | src/backend/formal/smv_serializer.cpp:422-449 | once an unguarded timeout is due the stutter row is never taken |
| `SmvTimers.TimeoutIsMet` | src/backend/formal/smv_serializer.cpp:422-449 | so a state whose transitions all leave it is never occupied beyond its unguarded timeout, in any run |
| `GraphOps.FsmIr.NormalizeHierarchy` | src/ir/fsm_graph_ops.cpp:17-55 | the in-place repair of parents and the rebuilding of child lists compute the specified graph |
| `GraphOps.FsmIr.RebuildAdjacencyIndices` | src/ir/fsm_graph_ops.cpp:164-202 | the in-place filling of the lists computes the specified adjacency |
| `GraphOps.FsmIr.SortTransitionsByPriority` | src/ir/fsm_graph_ops.cpp:204-222 | sources numbered by first appearance, then one stable sort |
| `GraphOps.FsmIr.SyncInterfaces` | src/ir/fsm_graph_ops.cpp:57-162 | guard names, actions and events missing from the lists are appended, in order of appearance |
| `GraphOps.FsmIr.Canonicalize` | src/ir/fsm_graph_ops.cpp:224-266 | with distinct names the whole sequence computes the specified canonical graph, although the library sort may order ties freely |
| `GraphNames.DeclaredExactly` | src/ir/fsm_graph_ops.cpp:57-162 | main result: a name is declared by the canonical graph if and only if it was before, or is a guard word of some transition's guard text or guard tree, a non-empty action of a transition or of a state's entry or exit, or an identifier event other than the two reserved ones; each new one once |
| `GraphNames.SyncedExactly` | src/ir/fsm_graph_ops.cpp:57-162 | the same of synchronising alone, whether or not guard texts and trees agree |
| `GraphNames.TokensExactly` | src/ir/fsm_graph_ops.cpp:57-90 | the words of a guard text: the longest runs of word characters that are identifiers and not reserved |
| `GraphForms.RepairExactly` | src/ir/fsm_graph_ops.cpp:17-55 | what repair makes of each state: it moves to the root exactly if it is the initial state or an unpinned source of a transition at the root scope; its children are the identifiers of the states naming it as parent, in declaration order; composite are those with children or an initial substate |
| `GraphForms.CanonicalExactly` | src/ir/fsm_graph_ops.cpp:224-266 | the canonical graph keeps its names, gets an identifier and initial state if it had none, lists every kind of definition by name, and has each transition with guard text and tree made to agree, those of one source together and the most urgent first |
| `GraphForms.StatesExactly` | src/ir/fsm_graph_ops.cpp:224-266 | adjacency lists apart its states are those given, by ascending qualified name |
| `GraphProps.AdjacencyIsExact` | src/ir/fsm_graph_ops.cpp:164-202 | with unique non-empty names, a transition is in a state's outgoing list exactly if it names the state as source or further source, likewise incoming; each list is strictly increasing |
| `GraphProps.NormalisationIsIdempotent` | src/ir/fsm_graph_ops.cpp:17-55 | normalising twice is normalising once |
| `GraphProps.NormalisationMoves` | src/ir/fsm_graph_ops.cpp:17-55 | normalisation only moves states to the root and recomputes the derived fields |
| `GraphProps.NormalisationKeepsForest` | src/ir/fsm_graph_ops.cpp:17-55 | names, order and forest shape are kept, declared parents stay declared, and composite states are those with children or an initial substate |
| `GraphProps.CanonicalStaysCanonical` | src/ir/fsm_graph_ops.cpp:204-222 | the priority sort of sorted transitions changes nothing, although sources are renumbered |
| `GraphProps.SecondRunSortsSignals` | src/ir/fsm_graph_ops.cpp:224-266 | all a second canonicalisation does is sort the signals, because events are appended after the signals were sorted |
| `GraphProps.CanonicalAfterTwoRuns` | src/ir/fsm_graph_ops.cpp:224-266 | a third run changes nothing |
| `GraphProps.OneRunSufficesExactly` | src/ir/fsm_graph_ops.cpp:224-266 | one run reaches the fixed point if and only if the events that are no signals yet, in the canonical order of the transitions, ascend and none of them is below a signal |
| `GraphProps.OneRunIsNotEnough` | src/ir/fsm_graph_ops.cpp:224-266 | counterexample: with a signal `z` and an event `a` the second run changes the result of the first |
| `GraphProps.OneRunForKnownEvents` | src/ir/fsm_graph_ops.cpp:224-266 | in particular when every event is already a signal |
| `GraphProps.CanonicalKeepsDistinct` | src/ir/fsm_graph_ops.cpp:224-266 | distinct names are distinct again after canonicalisation, so every further run is determined too, if no state is listed twice |
| `GraphProps.TwinsBecomeTies` | src/ir/fsm_graph_ops.cpp:164-202 | counterexample: of a state listed twice only the first gets the transitions, so the two are no longer equal under one name |
| `GraphProps.CanonicalisationPermutes` | src/ir/fsm_graph_ops.cpp:224-266 | transitions are permuted, states are permuted apart from their index lists |
| `Safety.Search` | src/middleend/pass_manager.cpp:246-282 | the work-list search ends and yields the least set that holds the root and is closed under children, parents and transition targets |
| `SafetyReport.ReportUnreachable` | src/middleend/pass_manager.cpp:236-290 | main result: W0201 is reported, in declaration order, for exactly the declared states, final states and choices aside, that no path of search hops from the root leads to; if initial substates stay in the tree of their composite, none of them is active in any run; if each tree is entered as a whole, they are exactly the states active in no run; nothing is reported without a root |
| `SafetyRuns.NoFalseAlarmExactly` | src/middleend/pass_manager.cpp:246-290 | main result: whatever the transitions and the root, every state active in a run is found by the search, if and only if the initial leaf of each state stands in the tree of that state |
| `SafetyRuns.ActiveIsFound` | src/middleend/pass_manager.cpp:246-282 | the sound half for one model: what becomes active in a run is found |
| `SafetyRuns.EnteredStaysInside` | src/backend/cpp/cpp_model_emitter.cpp:1009-1045 | whatever history holds, what a transition enters stands in every closed set that holds its target |
| `SafetyRuns.BelowIsEnough` | src/backend/cpp/cpp_model_emitter.cpp:905-911 | initial leaves that lie below their composites stand in its tree |
| `SafetySilence.SilenceIsRightExactly` | src/middleend/pass_manager.cpp:246-290 | main result: whatever the transitions and the root, every state found becomes active in some run, if and only if each tree is entered as a whole: entering a state or the one around it comes to one leaf at or below the state |
| `SafetySilence.LeavesAreVisited` | include/fsm/backend/cpp/runtime/detail/transition_executor.hpp:194-212 | in every run, whatever is active or recorded in history, the leaf of its tree has been entered before, if trees are entered as a whole |
| `SafetyRuns.LeastClosedIsPaths` | src/middleend/pass_manager.cpp:246-282 | the set found is exactly what paths of hops lead to |
| `Runs.TableSteps` | include/fsm/backend/cpp/runtime/detail/transition_executor.hpp:134-234 | every step the generated table makes, whatever the event, the guards and the history, is a step of the runs: the row's target is entered, the state left and those around it record where they were left |
| `SafetyReport.FalseAlarm` | src/ir/fsm_graph_ops.cpp:23-36 | counterexample: hierarchy repair moves an initial substate with a transition at the root scope out of its composite; the machine enters it and it is reported as unreachable |
| `SafetyReport.MissedState` | src/middleend/pass_manager.cpp:256-261 | counterexample: a substate that nothing enters is not reported, because the search enters every substate |
| `SafetyReport.BesideIsHarmless` | src/middleend/pass_manager.cpp:256-270 | an initial substate beside its composite instead of below it is found, because the search goes up and down again: the exact condition is the tree, not the subtree |
| `SafetyForks.ForksAreCoveredExactly` | src/middleend/pass_manager.cpp:273-281 | with forks that enter all their targets the search stays sound if and only if each further target of a fork that becomes active is found; it is enough that this holds of forks on paths of hops, and where trees are entered as a whole that is exact too |
| `SafetyForks.ForkTargetIsReported` | src/middleend/pass_manager.cpp:273-281 | counterexample: a fork from `Start` into `a` and `b` enters `b`, and `b` is reported as unreachable |
| `Traps.HasOutgoingHierarchical` | src/middleend/pass_manager.cpp:292-326 | true exactly if the state, an ancestor or a descendant is the source of a transition; on every forest the ancestor walk and the queue without visited set end |
| `Traps.AncestorIsLeft` | src/middleend/pass_manager.cpp:301-310 | the walk up the parents looks at all ancestors and ends by depth |
| `Traps.DescendantIsLeft` | src/middleend/pass_manager.cpp:312-325 | the queue looks at all descendants and ends by the total size of the subtrees queued |
| `Traps.ReportTraps` | src/middleend/pass_manager.cpp:328-351 | W0202 is reported for exactly the states that are entered but, with ancestors and descendants, never left, in declaration order |
| `TrapsExactly.TrapExactly` | src/middleend/pass_manager.cpp:292-351 | main result: a state is a trap if and only if it is not final, a choice, composite or named `Terminal...` or `Final...`, some transition enters it, and every transition begins elsewhere: neither in it, nor in a state around it, nor in one within it |
| `TrapsExactly.UpIsEncloses` | src/middleend/pass_manager.cpp:301-310 | the walk up the parents sees exactly the states around a state |
| `TrapsExactly.DownIsEncloses` | src/middleend/pass_manager.cpp:312-325 | the queue sees exactly the states within a state |
| `TrapsExactly.DeadJunctionIsReported` | src/middleend/pass_manager.cpp:332-351 | a junction, fork, history or any other state that is entered and never left is reported, and no longer once it is declared as a choice |
| `Traps.AboveIsBelow` | src/middleend/pass_manager.cpp:300-325 | with unique names, the ancestors found by walking up are those whose walk down finds the state |
| `DiagramPrinter.PrintDiagram` | src/backend/diagram/plantuml_serializer.cpp:259-303 | main result: after normalisation, in both printers, every state and every transition is written exactly once, blocks are balanced, every state stands in its parent's block, and every block lists exactly the transitions that leave its direct children, in printing order |
| `DiagramPrinter.Printer.Print` | src/backend/diagram/mermaid_serializer.cpp:281-363 | the walk from the root and the final loop over what is left, for any printing order |
| `DiagramPrinter.Printer.EmitState` | src/backend/diagram/plantuml_serializer.cpp:83-157 | one composite: its block holds exactly its subtree, and afterwards all transitions of the states in it are written |
| `DiagramPrinter.Printer.EmitScope` | src/backend/diagram/plantuml_serializer.cpp:133-154 | a block shows none of its transitions or, after this loop, all of them in order; the shared record never holds back a transition of its own block |
| `DiagramPrinter.BothAreOrders` | src/backend/diagram/mermaid_serializer.cpp:286-305 | document order and the stable order by source position are permutations of all transition indices |
| `Diagram.WalkCounts` | src/backend/diagram/plantuml_serializer.cpp:122-131 | below any scope the walk writes exactly the states enclosed by the remaining children, each once |
| `Diagram.WalkIsComplete` | src/backend/diagram/plantuml_serializer.cpp:273-282 | from the root it writes every state once |
| `Diagram.OneBranch` | src/backend/diagram/mermaid_serializer.cpp:118-127 | every state below a scope hangs below exactly one of its children |
| `JsonRoundTrip.EscapedReads` | src/ir/fsm_ir_deserializer.cpp:194-252 | wherever an escaped string and its closing quote stand, the string reader returns the string and stops just behind the quote |
| `JsonRoundTrip.EscapedIsTidy` | src/ir/fsm_ir_serializer.cpp:24-55 | none of the five control characters that have an escape is left as it is |
| `JsonRoundTrip.PiecesRead` | src/ir/fsm_ir_deserializer.cpp:194-252 | any spelling of a string is read piece by piece: characters, escapes known and unknown, and `\u` with four characters behind it, which becomes one question mark |
| `JsonRoundTrip.QuoteTellsStrings` | src/ir/fsm_ir_serializer.cpp:24-55 | escaping is injective and no quoted string is the beginning of another |
| `JsonRoundTrip.DocumentReads` | src/ir/fsm_ir_deserializer.cpp:73-111 | main result: every object and array of strings, numbers, booleans and nulls, with any blanks between its parts and any text behind it, is read as exactly that value, with the index just behind it (sections 4, 5 and 7 of RFC 8259) |
| `JsonAccepted.ReadsExactly` | src/ir/fsm_ir_deserializer.cpp:73-309 | main result: a text is read as a value if and only if it begins with a layout of that value, whatever follows; trailing commas, unknown escapes and missing digits included, nothing else |
| `JsonAccepted.StringExactly` | src/ir/fsm_ir_deserializer.cpp:194-252 | every text behind a quote is a run of such pieces and then the closing quote, or breaks off in one of three ways, each with its own error |
| `JsonAccepted.NumberIsNumeral` | src/ir/fsm_ir_deserializer.cpp:281-309 | what the number scanner takes is sign, digits, fraction and exponent, and cannot go on |
| `JsonErrors.EmptyInput` | src/ir/fsm_ir_deserializer.cpp:73-95 | a text of blanks is empty input |
| `JsonErrors.WrongWord` | src/ir/fsm_ir_deserializer.cpp:254-279 | what only begins like a constant is an invalid token |
| `JsonErrors.WrongKey` | src/ir/fsm_ir_deserializer.cpp:113-135 | a member that does not begin with a quote |
| `JsonErrors.WrongBeginning` | src/ir/fsm_ir_deserializer.cpp:90-111 | a value that begins with another character is refused with that character in the message |
| `JsonErrors.WrongNumber` | src/ir/fsm_ir_deserializer.cpp:281-309 | a number that the converter refuses is reported with its text |
| `JsonErrors.NothingInside` | src/ir/fsm_ir_deserializer.cpp:113-192 | an array or object that breaks off, with its two messages |
| `JsonErrors.ItemNotEnded` | src/ir/fsm_ir_deserializer.cpp:161-192 | an item followed by neither a comma nor the end |
| `JsonErrors.KeyWithoutColon` | src/ir/fsm_ir_deserializer.cpp:132-145 | a key without a colon |
| `JsonErrors.FieldNotEnded` | src/ir/fsm_ir_deserializer.cpp:113-159 | a member followed by neither a comma nor the end |
| `JsonRoundTrip.NumberReads` | src/ir/fsm_ir_deserializer.cpp:281-309 | sign, digits, fraction and exponent are read as one number, kept as its text, if the converter accepts it |
| `JsonRoundTrip.LayoutReads` | src/ir/fsm_ir_deserializer.cpp:90-111 | the same at any position of a text |
| `JsonRoundTrip.ItemsRead` | src/ir/fsm_ir_deserializer.cpp:161-192 | array items read back one by one, without a value too many or too few |
| `JsonRoundTrip.FieldsRead` | src/ir/fsm_ir_deserializer.cpp:113-159 | members read back in order with their keys |
| `JsonRoundTrip.PrintTellsValues` | src/ir/fsm_ir_deserializer.cpp:73-111 | two layouts printed alike have equal values, and a number is not taken for the beginning of a longer one |
| `JsonParser.Parse` | src/ir/fsm_ir_deserializer.cpp:73-81 | the parser ends on every text and returns what the grammar says, error texts included |
| `JsonParser.Parser.ParseValue` | src/ir/fsm_ir_deserializer.cpp:90-111 | dispatch on the first character behind the blanks; the index stays within the text |
| `JsonParser.Parser.ParseObject` | src/ir/fsm_ir_deserializer.cpp:113-159 | the member loop, trailing comma included |
| `JsonParser.Parser.ParseMember` | src/ir/fsm_ir_deserializer.cpp:132-145 | one key, colon and value |
| `JsonParser.Parser.ParseArray` | src/ir/fsm_ir_deserializer.cpp:161-192 | the item loop |
| `JsonParser.Parser.ParseString` | src/ir/fsm_ir_deserializer.cpp:194-252 | escapes decoded, a `\u` escape becoming one question mark |
| `JsonParser.Parser.ParseNumber` | src/ir/fsm_ir_deserializer.cpp:281-309 | the text handed to the number converter is the longest run of the number grammar |
| `JsonParser.Parser.ParseBool` | src/ir/fsm_ir_deserializer.cpp:254-269 | `true` and `false` |
| `JsonParser.Parser.ParseNull` | src/ir/fsm_ir_deserializer.cpp:271-279 | `null` |
| `JsonStates.EmitTree` | src/ir/fsm_ir_serializer.cpp:723-738 | main result: parsing the text written for the state section gives exactly the tree of states with the attributes that are set, for any strings in them |
| `JsonStatesExactly.OwnExactly` | src/ir/fsm_ir_serializer.cpp:65-178 | each attribute that is set stands exactly once under each of its keys with its value, one that is not set stands nowhere, and there is nothing else; history hides that a state is composite |
| `JsonStatesExactly.ChildrenExactly` | src/ir/fsm_ir_serializer.cpp:723-738 | the children listed are all states with that parent, in order of declaration |
| `JsonStates.Writer.EmitState` | src/ir/fsm_ir_serializer.cpp:61-412 | one state, at any indentation, is written as its value laid out; the comma flag never doubles or drops a comma |
| `JsonStates.Writer.WriteOwn` | src/ir/fsm_ir_serializer.cpp:65-178 | the members written for a state's own attributes, and whether a comma is due |
| `JsonStates.EscapeJson` | src/ir/fsm_ir_serializer.cpp:24-55 | the escaping loop computes the escaped string |
| `JsonPretty.LinesClosed` | src/ir/fsm_ir_serializer.cpp:61-412 | closing an object after its last member gives the laid-out object |
| `JsonPretty.PrettyIsProper` | src/ir/fsm_ir_serializer.cpp:61-412 | the layout adds only blanks |
| `ManifestKeys.ManifestRoundTripsExactly` | src/backend/diagram/companion_manifest_emitter.cpp:144-247 | main result: for every manifest without custom types whose strings hold no double quote or newline, and any order in which the invariant table hands out its keys, parsing the emitted YAML gives the manifest back if and only if every state name with an invariant survives being written bare (not empty, no colon, no blank at an end, nothing unquoting takes off, no `#` seen outside quotes on its line) |
| `ManifestJsonDocument.JsonRoundTripsExactly` | src/backend/diagram/companion_manifest_emitter.cpp:249-370 | main result: for every such manifest, parsing the emitted JSON gives the manifest back if and only if no state name with an invariant is empty or holds a colon; everything else always comes back |
| `ManifestJsonDocument.ColonIsLostInJson` | src/backend/diagram/companion_manifest_emitter.cpp:324-330 | counterexample: an invariant of a state named `a:b` is not read back from JSON either |
| `ManifestJsonDocument.BothFormatsAgree` | src/backend/diagram/companion_manifest_emitter.cpp:144-370 | the YAML and the JSON written for one manifest are parsed to the same contract |
| `ManifestJsonDocument.PartsRead` | src/frontend/common/companion_manifest_parser.cpp:602-677 | each part of the document, moved to the margin, fills its own part of the contract, and its closing bracket fills none |
| `ManifestJsonDocument.TableSurvivesExactly` | src/frontend/common/companion_manifest_parser.cpp:472-487 | the invariant table comes back if and only if no name is empty or holds a colon: a name cut at its colon leaves an open quote that no name begins with |
| `ManifestJson.BracesKeepMeaning` | src/frontend/common/companion_manifest_parser.cpp:609-624 | a manifest means the same when it is wrapped in braces and moved to the right, whatever its indentation |
| `ManifestJson.ObjectsRead` | src/frontend/common/companion_manifest_parser.cpp:115-173 | objects with one member a line and commas between them read back as the same list of records |
| `ManifestJson.SignalObjectsRead` | src/frontend/common/companion_manifest_parser.cpp:355-470 | signals with nested attribute objects read back, told apart by the brackets |
| `ManifestJsonEmitter.EmitJson` | src/backend/diagram/companion_manifest_emitter.cpp:249-370 | the section loops with their comma rules write exactly the specified text |
| `ManifestForms.AliasesAgree` | src/frontend/common/companion_manifest_parser.cpp:626-676 | a section means the same under each of its names |
| `ManifestForms.CommentsAreDropped` | src/frontend/common/companion_manifest_parser.cpp:50-66 | a comment behind a line without quotes is dropped with the blanks before it |
| `ManifestForms.SingleQuotesComeOff` | src/frontend/common/companion_manifest_parser.cpp:31-41 | single quotes come off as double ones do, and trailing commas behind either |
| `ManifestForms.FieldAliasesAgree` | src/frontend/common/companion_manifest_parser.cpp:146-260 | fields with two names are set by either |
| `ManifestForms.OtherFieldsAreIgnored` | src/frontend/common/companion_manifest_parser.cpp:146-260 | under any other name nothing is set |
| `ManifestForms.RefusedBoundsStay` | src/frontend/common/companion_manifest_parser.cpp:146-227 | a bound whose text the converter refuses is not set |
| `ManifestForms.BracketsCloseRecords` | src/frontend/common/companion_manifest_parser.cpp:115-173 | a closing bracket hands over the record that has begun, and nothing when none has |
| `ManifestForms.DashesByIndent` | src/frontend/common/companion_manifest_parser.cpp:355-470 | a dash up to column 4 begins a signal, a deeper one within the attributes an attribute |
| `ManifestForms.AttributesOpenAndClose` | src/frontend/common/companion_manifest_parser.cpp:355-470 | the attributes of a signal open under either name and close with or without a comma |
| `ManifestForms.OtherSignalFields` | src/frontend/common/companion_manifest_parser.cpp:355-470 | other fields of a signal are passed over |
| `ManifestForms.BracketsAreNoRequirements` | src/frontend/common/companion_manifest_parser.cpp:566-598 | brackets around the requirements are none |
| `ManifestForms.NamesAtTheMargin` | src/frontend/common/companion_manifest_parser.cpp:640-676 | name, package and initial state may stand at the margin, outside any section |
| `ManifestForms.SingleQuotesHide` | src/frontend/common/companion_manifest_parser.cpp:50-63 | no comment begins between single quotes either, and the scan goes on behind them |
| `ManifestForms.TabsCountTwo` | src/frontend/common/companion_manifest_parser.cpp:64-80 | a tab stands for two columns of indentation |
| `ManifestKeys.TableComesBackExactly` | src/frontend/common/companion_manifest_parser.cpp:472-487 | the invariant table comes back if and only if every name survives: names can only lose letters, so a permutation among damaged names is impossible |
| `ManifestKeys.OutcomeShrinks` | src/frontend/common/companion_manifest_parser.cpp:472-487 | what is read of an invariant line has a name no longer than the one written; if equally long it is that name, and if the value is right too the name survives |
| `ManifestKeys.CutValueDiffers` | src/frontend/common/companion_manifest_parser.cpp:43-83 | a value cut off by a comment is never read as the value written |
| `ManifestKeys.ColonInNameIsLost` | src/backend/diagram/companion_manifest_emitter.cpp:211-216 | counterexample: an invariant of a state named `a:b` is not read back |
| `ManifestDocument.AllButInvariantsRoundTrip` | src/frontend/common/companion_manifest_parser.cpp:602-677 | everything but the invariants comes back for every such manifest, omitted fields at their defaults |
| `ManifestDocument.TailReads` | src/frontend/common/companion_manifest_parser.cpp:627-676 | section after section, each body is attributed to its own title and fills its own part |
| `ManifestDocument.YamlCleans` | src/frontend/common/companion_manifest_parser.cpp:43-83 | scanning the emitted text yields the lines that were meant, `#` and single quotes inside values notwithstanding |
| `ManifestDocument.FoundIndented` | src/frontend/common/companion_manifest_parser.cpp:43-83 | no state name can make an invariant line leave its section |
| `ManifestRoundTrip.RecordsRead` | src/frontend/common/companion_manifest_parser.cpp:115-173 | a list of flat records printed with dashes reads back as the same list |
| `ManifestRoundTrip.PortRestored` | src/frontend/common/companion_manifest_parser.cpp:146-167 | setting a port's printed entries on a default port gives the port, optional bounds and constraint included |
| `ManifestRoundTrip.VariableRestored` | src/frontend/common/companion_manifest_parser.cpp:204-227 | the same for variables |
| `ManifestRoundTrip.SignalsRead` | src/frontend/common/companion_manifest_parser.cpp:355-470 | signals with nested attributes read back, attribute dashes told from signal dashes by indentation alone |
| `ManifestRoundTrip.AttributesRead` | src/frontend/common/companion_manifest_parser.cpp:418-458 | attributes are collected in order while the last one is still being filled |
| `ManifestScan.RawCleans` | src/frontend/common/companion_manifest_parser.cpp:43-83 | a line that the scanner keeps comes back with its indentation and text |
| `ManifestScan.JoinedSplits` | src/frontend/common/companion_manifest_parser.cpp:43-49 | lines joined with newlines are split into the same lines |
| `ManifestScan.QuotedPasses` | src/frontend/common/companion_manifest_parser.cpp:50-63 | no comment begins inside a double-quoted value |
| `ManifestText.QuotesComeOff` | src/frontend/common/companion_manifest_parser.cpp:31-41 | unquoting a quoted string gives the string |
| `ManifestText.EntrySplits` | src/frontend/common/companion_manifest_parser.cpp:85-93 | an entry is split at its first colon into key and value |
| `ManifestEmitter.EmitYaml` | src/backend/diagram/companion_manifest_emitter.cpp:144-247 | the section loops with their optional entries write exactly the specified lines |
| `ManifestEmitter.Emitter.EmitPorts` | src/backend/diagram/companion_manifest_emitter.cpp:156-172 | the port section, left out exactly when its list is empty |
| `ManifestEmitter.Emitter.EmitVariables` | src/backend/diagram/companion_manifest_emitter.cpp:174-192 | the variable section, left out exactly when its list is empty |
| `ManifestEmitter.Emitter.EmitSignals` | src/backend/diagram/companion_manifest_emitter.cpp:194-209 | the signal section with nested attributes, left out exactly when its list is empty |
| `ManifestEmitter.Emitter.EmitInvariants` | src/backend/diagram/companion_manifest_emitter.cpp:211-216 | the invariant section, left out exactly when its list is empty |
| `ManifestEmitter.Emitter.EmitProperties` | src/backend/diagram/companion_manifest_emitter.cpp:218-224 | the property section, left out exactly when its list is empty |
| `ManifestEmitter.Emitter.EmitActions` | src/backend/diagram/companion_manifest_emitter.cpp:226-237 | the action section, left out exactly when its list is empty |
| `ManifestEmitter.Emitter.EmitRequirements` | src/backend/diagram/companion_manifest_emitter.cpp:239-244 | the requirement section, left out exactly when its list is empty |
| `ManifestParser.Parse` | src/frontend/common/companion_manifest_parser.cpp:602-677 | the main loop and its dispatch compute the meaning of every text |
| `ManifestParser.ParseSection` | src/frontend/common/companion_manifest_parser.cpp:115-173 | a section loop takes exactly the indented lines and folds its step over them |
| `ManifestParser.ParseBody` | src/frontend/common/companion_manifest_parser.cpp:95-598 | each section starts from its blank record and hands over what is still being filled at the end |
| `ManifestParser.PreprocessLines` | src/frontend/common/companion_manifest_parser.cpp:43-83 | splitting, comment removal and indentation computed line by line |
| `ManifestParser.ScanLine` | src/frontend/common/companion_manifest_parser.cpp:48-81 | one line: both quote flags, the comment, tabs counted as two columns |
| `ManifestParser.UnquoteText` | src/frontend/common/companion_manifest_parser.cpp:31-41 | the recursion through trailing commas ends and computes the specified text |
| `ManifestParser.TrimText` | src/frontend/common/companion_manifest_parser.cpp:17-29 | the two loops compute the trimmed text |
| `ManifestParser.SplitKeyValue` | src/frontend/common/companion_manifest_parser.cpp:85-93 | key and value around the first colon |
| `ManifestParser.Unwrap` | src/frontend/common/companion_manifest_parser.cpp:609-624 | the braces of a JSON manifest are dropped and its lines moved to the margin |
| `Fnv.ComputeDeterministicId` | src/ir/deterministic_id.cpp:7-17 | the loop computes 64-bit FNV-1a (section 2 of draft-eastlake-fnv) and prints sixteen hexadecimal digits |
| `Fnv.StepUndone` | src/ir/deterministic_id.cpp:9-13 | each step is a bijection of 64-bit states, with its inverse |
| `Fnv.FoldInjective` | src/ir/deterministic_id.cpp:9-13 | different states stay different through any bytes |
| `Fnv.FoldSurjective` | src/ir/deterministic_id.cpp:9-13 | every final state is reached from some initial one |
| `Fnv.HexInjective` | src/ir/deterministic_id.cpp:14-16 | the fixed-width hexadecimal form tells numbers apart |
| `FnvValues.IdIsHash` | src/ir/deterministic_id.cpp:7-17 | every identifier is `id_` with sixteen hexadecimal digits behind it whose value is the hash |
| `FnvValues.EmptyText` | src/ir/deterministic_id.cpp:9-9 | the hash of the empty text is the published offset basis |
| `FnvValues.Foobar` | src/ir/deterministic_id.cpp:7-17 | the value published for "foobar" in draft-eastlake-fnv |
| `FnvValues.LetterA` | src/ir/deterministic_id.cpp:7-17 | the value published for "a" |
| `Fnv.OneByteDecides` | src/ir/deterministic_id.cpp:7-17 | main result: two strings alike but for one byte have the same identifier if and only if that byte is the same |
| `Fnv.OneByteApart` | src/ir/deterministic_id.cpp:7-17 | so identifiers of equally long strings that differ in exactly one byte differ |

## Left out

- GraphOps.FsmIr.Canonicalize: the library sort is not stable, so with equal names the result is not determined; the contract asks for distinct names.
- ExprExact.RoundTripExactly: float literals are kept as their text in the model, because printing a converted double is lossy; nodes with a wrong number of operands cannot be built in the model.
- ExprParser.ParseText: whether a float text is in the range of a double is not modelled.
- ExprParser.Parser.ParseNumber: neither is it here; floats keep their text.
- GraphProps.CanonicalKeepsDistinct: asks that no state is listed twice; otherwise it fails (`GraphProps.TwinsBecomeTies`).
- GraphOps.FsmIr.SyncInterfaces: of the definitions added only the names are kept, not their other fields.
- McdcHarness.HarnessExpectationsHold: the text read back is the guard's C++ text and any list of conditions; the harness takes the guard's diagram text and the condition list of the guard parser, and skips guards with fewer than two conditions.
- McdcHarness.ReadOnceGuardIsFullyCovered: the same.
- McdcHarness.PrintedGuardMentions: counts every name of the guard; the original's collection leaves out `else`, `otherwise`, `default` and names under a bare negation.
- Mcdc.ComputeMcdcPairs: asks for fewer than 64 conditions, because the original shifts a 64-bit one by their number.
- SmvTimers.Serialize: names are taken as already sanitised, so two names that sanitise alike are not told apart; data variables and the property section are not part of the step relation modelled.
- SmvReader.ToSmvPredicate: the regular-expression steps for `true`, `false` and float literals are not modelled; the names admitted in the main result hold none of these.
- Table.EmitTransitionTable: rows are records, not C++ text.
- DiagramPrinter.PrintDiagram: lines are records that say which state or transition they show; labels, notes, the retargeting of Mermaid arrows and the directive header are not modelled.
- JsonRoundTrip.DocumentReads: a number is kept as its text, since printing a double is lossy; a `\u` escape is read as a question mark, as in the code, so foreign documents do not keep such characters.
- JsonStates.Writer.WriteOwn: a time invariant between `kind` and `do` is absent.
- JsonStates.Writer.EmitState: time invariants, orthogonal regions, submachines and transitions of a state are not written; the last print targets and event names without escaping.
- ManifestParser.Parse: custom types are read over and dropped.
- ManifestDocument.AllButInvariantsRoundTrip: bounds are kept as the text of their numbers.
- ManifestDocument.TailReads: bounds are kept as the text of their numbers.
- ManifestRoundTrip.PortRestored: bounds are kept as the text of their numbers.
- ManifestRoundTrip.VariableRestored: bounds are kept as the text of their numbers.
- ManifestParser.ParseBody: custom types are read over and not kept; the writer never emits them. The sections share one loop, and what is being filled is handed from line to line as a value instead of being updated in local variables.
- ManifestJsonDocument.JsonRoundTripsExactly: bounds are texts of numbers the converter accepts, because printing a double keeps six digits.
- ManifestJsonEmitter.EmitJson: the four flat lists share one loop, and a comma is written behind a member when another follows instead of before that one.
- SmvOperatorMeaning.OperatorGuardMeansTheSame: the reader of SMV text knows the Boolean operators only, so comparisons inside a guard are covered as text (`SmvOperators.ComparisonConverts`) and not as meaning.
- ManifestKeys.ManifestRoundTripsExactly: bounds are texts of numbers the converter accepts, because printing a double keeps six digits.
- SafetyReport.ReportUnreachable: in a run any transition whose source is active may fire, so a state kept out by guards or by more urgent transitions counts as active; the search starts where `initial_state_id` says and so do the runs, while the emitter looks at `initial_state` (canonicalisation copies it when the other is empty). Parallel regions and joins are not modelled.
- SafetyForks.ForksAreCoveredExactly: the C++ back end asks for transitions with several targets to be lowered first; the runs with forks are what such a transition means before that, every target entered at once.
- SafetySilence.SilenceIsRightExactly: transitions are taken to have a target, and internal ones to lead back to their source.
- JsonStates.EmitTree: the members of a state listed under the next line are absent from the tree.
- The import of a JSON model into the graph, where transitions are regrouped by event and guards pass through another parser.
- The SysML and SMV printers of guard trees, and temporal formulas.
- Time-invariant text, where minutes are printed but not parsed, and XML, where `&amp;` is decoded first.
- The lowering passes, interval analysis, the C++ runtime, the front ends, drivers, plugins and process launching: input, output and plumbing.
- Name tables, enum conversions, `add_` and `find_` accessors and diagnostics rendering: easy members only.
