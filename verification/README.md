# Luaml in Dafny

A model of luaml, an engine that stores scripts as clauses with a pattern policy, an optional guard and
a Lua body, and dispatches events to the clauses that match. A body may emit further events, which are
dispatched depth-first under a nesting limit, an emission budget and a cycle check.

The files follow the engine from the inside out.

- `Values.dfy`, `Ordering.dfy`, `Clauses.dfy`: runtime values, key-sorted lists, clauses and scripts.
- `Signatures.dfy`: the canonical event signature used for cycle detection.
- `GuardLexer.dfy`, `Lexemes.dfy`, `GuardGrammar.dfy`, `GuardParser.dfy`, `Guards.dfy`, `GuardMeaning.dfy`,
  `Doubles.dfy`: the guard language, its lexemes and grammar, what it means, and the joining of several `?` lines.
- `Patterns.dfy`, `Matching.dfy`, `Pins.dfy`: pattern trees, matching, and pins as documented.
- `PatternParser.dfy`, `PatternPrinter.dfy`, `PatternReading.dfy`, `PipeWalk.dfy`, `PatternRoundTrip.dfy`,
  `PatternPanics.dfy`, `TopLevel.dfy`, `PatternGrammar.dfy`: pattern texts, and which texts spell which pattern.
- `ScriptSplit.dfy`, `Frontmatter.dfy`, `LineGrammar.dfy`, `ScriptParser.dfy`, `ScriptPrinter.dfy`: script texts.
- `Satisfaction.dfy`, `Registry.dfy`: which patterns some value matches; matching over registered scripts,
  discovery queries, replacement of scripts.
- `Cascade.dfy`, `CallTrees.dfy`, `ClauseOutcomes.dfy`, `Engine.dfy`: dispatch, first as functions on states,
  then as the engine's methods.
- `Paths.dfy`, `Json.dfy`, `JsonTables.dfy`, `Combinatorics.dfy`, `Statistics.dfy`, `Url.dfy`, `Rpc.dfy`:
  algorithms of the standard library.

What the source computes step by step is a method with loops, or a class where it keeps state; each is
tied to a function, and the properties are proved about that function. `dafny verify dfyconfig.toml`
checks the whole project.

Parameters stand for what lies outside: a Lua body is a function of the world, the clause and its
bindings; number parsing and the conversion of integers to doubles are fields of `GuardLexer.NumberLib`;
the character classes are a record `PatternParser.Unicode`, constrained by `Lawful` where that is needed
(ASCII is one choice, `AsciiIsLawful`).

Where code and documentation disagree the model follows the code:

- README.md:96 says that several `?` lines are ANDed. The texts are joined by `and`, so a line with an
  `or` at its top level takes the next line into its last disjunct (`Guards.OrLineIsNotAnded`,
  `Guards.JoinIsConjunctionUnderIff`).
  The join can also make one guard out of lines that are none, such as `(x` and `y)`
  (`Guards.JoinRepairsLines`).
- README.md:43 says that `^name` matches an existing binding. The matcher used for policies gives every
  pin a mismatch (`Matching.PinnedPolicyIsDead`, `Pins.PinsAgreeIff`).
- crates/luaml/src/lib.rs:352-356 says that a dispatch returns one outcome for each matched clause and that
  no clause can stop its siblings, by exceeding a limit included. A clause that exhausts the emission
  budget ends the loop over the matches, and the clauses after it get no outcome
  (`ClauseOutcomes.BudgetStopsSibling`, `ClauseOutcomes.OneOutcomePerMatch`).
- crates/luaml/src/lib.rs:274 says that a file is swapped atomically. The old script is gone before the
  new text is read (`Registry.ReplaceIsAtomicIff`).
- crates/luaml/src/parser.rs:120 says that a further clause overrides base fields of the same key. Only
  the first of them is overridden (`ScriptPrinter.RepeatedKeyIsNotOverridden`,
  `ScriptParser.OverrideReplacesAllIff`).
- crates/luaml/src/stdlib/rpc.rs:370-372 promises an error entry also for a response without a request.
  Such an item is dropped (`Rpc.StrangersAreDropped`).

## Model

| member | source | states |
|---|---|---|
| `Cascade.LimitsAreTransparent` | crates/luaml/src/lib.rs:374-431 | no depth or budget outcome shows exactly when the unlimited depth-first, pre-order run, which calls the bodies itself and hands on every event they emit, needs no more nesting than `max_depth` and no more emissions than the budget; then outcomes, world and spent budget are those of the unlimited run |
| `Cascade.LargerLimitsSameResult` | crates/luaml/src/lib.rs:111-128 | where no limit showed, any larger `max_depth` and budget give the identical outcomes and world |
| `Cascade.FuelGrows` | crates/luaml/src/lib.rs:374-431 | the unlimited run, once it ends within some nesting, is the same under every larger nesting |
| `Cascade.DispatchBill` | crates/luaml/src/lib.rs:361-431 | a dispatch makes one call of `dispatch_inner` more than the budget it spends, so at most budget + 1; `cascades_emitted` rises by exactly the spent budget; there are at most (budget + 1)(scripts + 1) outcomes; the visited set is empty at the end |
| `Cascade.VisitedIsTheActiveStack` | crates/luaml/src/lib.rs:384-430 | on every call the visited set is exactly the signatures of the active ancestors, one per level of nesting; no nesting exceeds `max_depth`; a call is a cycle exactly when, within the depth, its event equals an active ancestor; events that run on one nesting path are pairwise distinct, while equal siblings both run |
| `Cascade.DispatchKeeps` | crates/luaml/src/lib.rs:374-431 | every way out of `dispatch_inner` (depth, cycle, budget, normal) restores the visited set, only appends outcomes, and keeps budget plus emissions constant |
| `Cascade.MatchesKeep` | crates/luaml/src/lib.rs:408-430 | the same for the loop over the matched clauses, which an exhausted budget leaves early |
| `Cascade.EmissionsKeep` | crates/luaml/src/lib.rs:412-427 | the same for the loop over one clause's emissions |
| `Cascade.StatisticsAreTrue` | crates/luaml/src/lib.rs:381-406 | the depth and cycle outcomes are one for each refused call, in order; `matched` adds up the matches of the calls that ran, `cascade_depth_max` is the deepest nesting, and the last error kept for a script is its latest body error |
| `Cascade.BudgetOutcomesDescend` | crates/luaml/src/lib.rs:412-427 | the budget outcomes of a dispatch report strictly falling depths from `max_depth` down to 1: at most one for each level that was active when the budget was spent, so at most `max_depth`, and none while budget is left |
| `ClauseOutcomes.OneOutcomePerMatch` | crates/luaml/src/lib.rs:352-431 | there are at most as many clause outcomes as matched clauses; as long as no budget outcome is left there are exactly as many, bodies that raise, depth and cycle refusals notwithstanding; each budget outcome costs at most scripts - 1 clause outcomes |
| `ClauseOutcomes.BudgetStopsSibling` | crates/luaml/src/lib.rs:408-427 | with budget 0 and two scripts that match every event, the first of which emits, the second clause is matched and gets no outcome, against crates/luaml/src/lib.rs:352-356 |
| `Cascade.ScriptEnvIsFaithful` | crates/luaml/src/lib.rs:405 | over registered scripts, signatures tell events apart and an event has at most one match per script |
| `CallTrees.DispatchIsATree` | crates/luaml/src/lib.rs:374-431 | the log and the outcomes of a dispatch are those of one tree of calls, read depth first: a call that runs has a child run for each of its matches, a clause run has as its children the calls for the events its body emitted, in order and each ended before the next begins, on the world that the body left, up to the first for which no budget is left |
| `CallTrees.EveryEmissionIsDispatched` | crates/luaml/src/lib.rs:411-427 | `cascades_emitted` rises by the number of events in the reported outcomes exactly when no budget outcome is left, and by less otherwise: nothing that a body emitted is dropped but for the budget |
| `Engine.LuamlEngine.RunInner` | crates/luaml/src/lib.rs:374-431 | the recursive method on the shared context reaches exactly the state of the function on states, counters and visited set included, and terminates on the remaining budget |
| `Engine.LuamlEngine.RunMatched` | crates/luaml/src/lib.rs:408-428 | the loop over the matched clauses, ended early by an exhausted budget |
| `Engine.LuamlEngine.RunEmitted` | crates/luaml/src/lib.rs:412-427 | the loop over the emissions of one clause; one budget outcome when the budget is used up |
| `Engine.LuamlEngine.Admit` | crates/luaml/src/lib.rs:381-403 | the depth check comes before the cycle check; a refused event leaves one outcome and the visited set unchanged |
| `Engine.LuamlEngine.ExecuteMatched` | crates/luaml/src/lib.rs:433-470 | a body that raises emits nothing and becomes the last error of its script; one that succeeds does not clear it |
| `Engine.LuamlEngine.RunDispatch` | crates/luaml/src/lib.rs:361-372 | a dispatch of the engine: outcomes, world and counters are those of the functions, within the stated bounds, and those of the unlimited run when no limit shows |
| `Engine.CascadeContext.MarkVisited` | crates/luaml/src/lib.rs:571-575 | true exactly when the signature was not yet in the visited set |
| `Signatures.SignatureCanonical` | crates/luaml/src/lib.rs:582-632 | two events have equal signatures exactly when they are the same nested map, floats compared by their bits, whatever order the hash maps are iterated in at each level |
| `Signatures.OrderIrrelevant` | crates/luaml/src/lib.rs:602-623 | the signature of a value does not depend on iteration order at any level |
| `Signatures.DecodeSig` | crates/luaml/src/lib.rs:582-623 | a signature determines the value it was taken from |
| `Guards.JoinedLinesAreAnded` | crates/luaml/src/parser.rs:305-309 | guard lines that are valid alone and have no `or` at their top level, joined by " and ", evaluate as their conjunction from left to right: same verdict, same error, same stopping point |
| `Guards.JoinIsConjunctionIff` | crates/luaml/src/parser.rs:305-309 | two or more valid lines join to an expression whose root is `and` exactly when none has a top-level `or`; otherwise the root is `or` |
| `Guards.JoinMeans` | crates/luaml/src/parser.rs:305-309 | any valid lines joined by " and " evaluate, errors and stopping point included, as the short-circuit `or` of these verdicts: line by line, the last disjunct so far and the first of the next line are one conjunction, all other disjuncts stand alone |
| `Guards.JoinIsConjunctionUnderIff` | crates/luaml/src/parser.rs:305-309 | for any valid lines and any bindings the joined text evaluates as the left-to-right conjunction exactly when, going through the lines up to the first that errs: a line true before its last disjunct has only true lines after it, a false line has only false disjuncts after the one joined to it, and a line true by its last disjunct alone passes the question on |
| `Guards.TwoLinesIff` | crates/luaml/src/parser.rs:305-309 | for two lines: exactly when, if a disjunct of the first before its last is true, the second line is true, and, if the first line is false, the second line's disjuncts after its first are false |
| `Guards.DerivedIffValid` | crates/luaml/src/guard.rs:198-229 | the trees these conditions speak of exist exactly for valid lines |
| `Guards.OrLineIsNotAnded` | crates/luaml/src/parser.rs:305-309 | the lines `x or y` and `z` are not ANDed: with x true and z false the joined guard is true and the conjunction false, against README.md:96 |
| `Guards.JoinRepairsLines` | crates/luaml/src/parser.rs:305-309 | the lines `(x` and `y)` are no guards alone, yet their join is `x and y`: with both true it is true, while the conjunction is an error |
| `Guards.InvalidLineIsNeverTrue` | crates/luaml/src/parser.rs:305-309 | lines of which one is no guard alone have a conjunction that is never true, so wherever their join is true it differs |
| `Guards.JoinTree` | crates/luaml/src/guard.rs:198-229 | the derivation of joined lines is the merge of theirs |
| `GuardMeaning.GuardHoldsIff` | crates/luaml/src/guard.rs:21-32 | a guard holds exactly when its text is the tokens of a derivation whose expression is true |
| `GuardMeaning.TruthMeans` | crates/luaml/src/guard.rs:269-289 | evaluation says true of what is true, false of what is false, and errs on what is neither: truth and falsehood are said by cases, with `and` and `or` stopping early, so an error behind a false `and` does not count; zero of either sign, the empty string, nil, null and unbound names are false, NaN, enums, lists and maps true |
| `GuardMeaning.ComparisonsMean` | crates/luaml/src/guard.rs:344-384 | what the six operators say of their operands: numbers and texts that read as numbers compare by the order of doubles and never with NaN, other texts by their characters; equal texts are equal as texts; lists, maps, null and unbound names are all nil, and nil, truth values and the rest have no order; a compound operand is an error |
| `Doubles.KeyIsOrder` | crates/luaml/src/guard.rs:376-384 | the order of doubles used there is that of the numbers the 64 bits stand for, sign, exponent and fraction, both zeros being one number |
| `Doubles.NaNIff` | crates/luaml/src/guard.rs:376-384 | a double is no number exactly when its exponent is all ones and its fraction is not zero |
| `Doubles.InfinityIsOutside` | crates/luaml/src/guard.rs:376-384 | and the infinities lie beyond all finite doubles |
| `KeyOrder.LexicographicIff` | crates/luaml/src/guard.rs:376-384 | the order of texts: the first differing character decides, and a proper prefix comes first |
| `Guards.EvaluateGuard` | crates/luaml/src/guard.rs:21-32 | a guard is tokenized, parsed with nothing left over, and evaluated; the first failure is the answer |
| `GuardLexer.Tokenize` | crates/luaml/src/guard.rs:56-149 | the index loop yields the token list, or the error, of the recursive lexer |
| `GuardLexer.LexAppend` | crates/luaml/src/guard.rs:56-149 | a text that tokenizes, followed by one that starts with white space, tokenizes to its tokens followed by those of the other |
| `Lexemes.LexIff` | crates/luaml/src/guard.rs:56-149 | a text has the given tokens exactly when it can be cut, white space left out, into their spellings, each followed by something that does not continue it |
| `Lexemes.FirstTokenIff` | crates/luaml/src/guard.rs:56-149 | which token stands at the front of a text: each operator by its characters, strings up to the same quote, numbers with a sign only before a digit, words whole, with the six keywords told from names |
| `GuardParser.ParseCorrect` | crates/luaml/src/guard.rs:198-264 | the parser accepts a token list, all of it consumed, exactly when the precedence grammar derives it, and returns the derivation's tree |
| `GuardParser.Unambiguous` | crates/luaml/src/guard.rs:198-264 | a token list has at most one tree |
| `GuardParser.PrintParses` | crates/luaml/src/guard.rs:198-264 | parsing the printed form of any expression returns that expression |
| `GuardParser.PrintIsShortestOr` | crates/luaml/src/guard.rs:198-264 | no derivation of an expression has fewer tokens than its printed form |
| `GuardParser.OrSound` | crates/luaml/src/guard.rs:202-210 | what the position-based parser accepts is spelled by a derivation |
| `GuardParser.OrComplete` | crates/luaml/src/guard.rs:202-210 | what the grammar derives, followed by no operator that continues it, is accepted up to that point |
| `GuardParser.Parser.OrExpression` | crates/luaml/src/guard.rs:202-210 | the loop that rebuilds `left` and moves `pos` computes the recursive parse from the position; it terminates through parentheses |
| `GuardParser.Parser.AndExpression` | crates/luaml/src/guard.rs:212-220 | the same for conjunctions |
| `GuardParser.Parser.NotExpression` | crates/luaml/src/guard.rs:222-229 | the same for negations, which bind weaker than a comparison |
| `GuardParser.Parser.CompareExpression` | crates/luaml/src/guard.rs:231-245 | at most one comparison operator between two primaries |
| `GuardParser.Parser.PrimaryExpression` | crates/luaml/src/guard.rs:247-264 | literals, variables and parenthesized expressions, with the error of each other case |
| `PatternRoundTrip.RoundTrip` | crates/luaml/src/pattern.rs:60-187 | a printed pattern with valid names, no empty element list and quotable nested strings is read back unchanged exactly when, at each list in it, `find_pipe` sees the separator and nothing else |
| `PatternRoundTrip.QuietRoundTrip` | crates/luaml/src/pattern.rs:60-243 | it is read back, at any nesting, whenever strings under lists hold no pipe and no bracket |
| `PatternRoundTrip.PipeInListIsLost` | crates/luaml/src/pattern.rs:190-202 | the exclusion is needed: a list of one string in which `find_pipe` sees a pipe is not read back |
| `PatternPanics.NoQuoteNoPanic` | crates/luaml/src/pattern.rs:60-187 | an input without quote characters never makes the parser slice out of range |
| `PatternPanics.PanicOnLoneQuote` | crates/luaml/src/pattern.rs:81-85 | a text that is neither list nor map panics exactly when it is a lone quote character |
| `PatternPanics.PanicsIff` | crates/luaml/src/pattern.rs:60-187 | parsing slices out of range exactly when the trimmed text is a lone quote character, or is a list or map one of whose parts panics after all earlier parts are read, for a map entry after a key that is an identifier |
| `PatternPanics.QuoteInListPanics` | crates/luaml/src/pattern.rs:60-187 | a lone quote character in brackets panics, at one level of nesting and at two |
| `PatternPanics.PanicTellsLoneQuote` | crates/luaml/src/pattern.rs:60-187 | a panic tells of a part, at any depth, that is a lone quote character; a text with such a part is never read |
| `PatternReading.LeafReads` | crates/luaml/src/pattern.rs:60-130 | names, strings, numbers, booleans, variables and pins are read back whatever they hold |
| `PatternReading.HeadTailRead` | crates/luaml/src/pattern.rs:144-154 | a head and tail list is read back exactly when the pipe finder stops at the separator and both parts are read back |
| `PatternReading.MapReads` | crates/luaml/src/pattern.rs:165-187 | a map pattern is read back exactly when each of its values is, pipes notwithstanding |
| `PatternGrammar.ReadsIff` | crates/luaml/src/pattern.rs:60-187 | for every text and every pattern: the text is read as the pattern exactly when it spells it, white space around it left out; the spellings are given by a grammar apart from the parser, either quote, `*` and `_`, signs and leading zeros, gaps after `$` and `^`, and top-level pipes, commas and colons with white space around the parts included |
| `TopLevel.PipeIff` | crates/luaml/src/pattern.rs:190-202 | the pipe finder gives the first pipe before which as many brackets were closed as opened, quoted ones included |
| `TopLevel.SplitIff` | crates/luaml/src/pattern.rs:204-243 | the splitter cuts at exactly the commas before which, quoted text left out, as many brackets were closed as opened; an empty last piece is dropped |
| `PatternPrinter.ParsedWeight` | crates/luaml/src/pattern.rs:60-187 | printing what was read is never heavier, counting all characters but white space and commas, than the text it was read from |
| `PatternPrinter.JoinSplits` | crates/luaml/src/pattern.rs:204-243 | the splitter at top-level commas undoes joining pieces with ", " |
| `PatternPrinter.SplitWeight` | crates/luaml/src/pattern.rs:204-243 | splitting loses only commas |
| `PatternPrinter.IntRead` | crates/luaml/src/pattern.rs:96-99 | the decimal form of a 64-bit integer is read back |
| `PatternParser.FindPipe` | crates/luaml/src/pattern.rs:190-202 | the loop finds the first pipe outside all brackets, quotes not counted |
| `PatternParser.SplitTopLevel` | crates/luaml/src/pattern.rs:204-243 | the loop over quotes and brackets splits as the recursive function does |
| `PatternParser.PiecesAreShort` | crates/luaml/src/pattern.rs:204-243 | no piece is longer than the text, which is why nested parsing ends |
| `Patterns.CollectVariables` | crates/luaml/src/pattern.rs:259-290 | the walk pushes the variables in the order they are written |
| `Patterns.CheckDuplicateVariables` | crates/luaml/src/pattern.rs:293-308 | a policy is accepted exactly when no variable name occurs twice in it, at any depth |
| `Matching.MatchExact` | crates/luaml/src/pattern_match.rs:23-67 | if no variable repeats, matching succeeds with bindings exactly when the bindings name the pattern's variables and the pattern with them put in describes the value |
| `Matching.MatchFieldsExact` | crates/luaml/src/pattern_match.rs:95-114 | the same for a policy and an event, missing keys excused only under `:global:` |
| `Matching.BoundInPolicy` | crates/luaml/src/pattern_match.rs:95-114 | the names bound by a matched policy are its variables that were not excused |
| `Matching.LastCaptureWins` | crates/luaml/src/pattern_match.rs:23-171 | when a variable repeats, its last occurrence in written order wins |
| `Matching.LastCaptureWinsInPolicy` | crates/luaml/src/pattern_match.rs:95-114 | the same across the fields of a policy |
| `Matching.RecordIs` | crates/luaml/src/pattern_match.rs:23-171 | what is recorded for a name is its last capture |
| `Matching.AdmitsIff` | crates/luaml/src/pattern_match.rs:23-67 | whether a pattern matches does not depend on its variables, repeated or not: it matches exactly the values of its shape |
| `Matching.PinnedPolicyIsDead` | crates/luaml/src/pattern_match.rs:23-67 | a policy with a pin at any depth matches no event, against README.md:43 |
| `Pins.PinsAgreeIff` | crates/luaml/src/pattern_match.rs:95-114 | the matcher gives the result of the documented reading, in which a pin accepts what its name was bound to before, exactly when the policy has no pin or the event is no match in that reading either |
| `Pins.PinFreePolicy` | crates/luaml/src/pattern_match.rs:95-114 | for pin-free policies the left-to-right match with its growing context is the matcher, in every context |
| `Pins.PinIsLost` | crates/luaml/src/pattern_match.rs:58-62 | `a: $x`, `b: ^x` and an event with equal values under both keys: a match as documented, and none in the code |
| `Pins.InContextIff` | crates/luaml/src/pattern_match.rs:69-86 | the lookup of a pin in a given context agrees with the documented reading exactly when the pin is the whole pattern, there is none, or the documented match fails |
| `Matching.MatchStable` | crates/luaml/src/pattern_match.rs:95-114 | on a larger event a matched policy keeps its bindings, or fails exactly when a new key gives a `:global:` pattern a value that is no enum |
| `Matching.PolicyMatchIff` | crates/luaml/src/pattern_match.rs:95-114 | a policy matches exactly when each field does, on its own |
| `Matching.ElementsMatchIff` | crates/luaml/src/pattern_match.rs:143-154 | an element list matches exactly when each element does |
| `Matching.EntriesMatchIff` | crates/luaml/src/pattern_match.rs:158-171 | a map pattern matches exactly when each entry's key is there and its value matches |
| `Matching.MatchFieldValue` | crates/luaml/src/pattern_match.rs:23-67 | the recursive matcher with its growing bindings computes the matching function |
| `Matching.MatchList` | crates/luaml/src/pattern_match.rs:116-156 | lists: empty, head and tail, elements of equal number |
| `Matching.MatchMap` | crates/luaml/src/pattern_match.rs:158-171 | maps: every entry, the first mismatch ends the loop |
| `Matching.MatchPolicy` | crates/luaml/src/pattern_match.rs:95-114 | the loop over the fields of a policy |
| `Registry.MatchAllExact` | crates/luaml/src/registry.rs:215-223 | one match for each script with a firing clause, in registration order: the least clause whose policy matches and whose guard is true, with the bindings of its policy |
| `Registry.FiringIffAnyFires` | crates/luaml/src/registry.rs:284-307 | a script has a match exactly when one of its clauses fires |
| `Registry.FiresIff` | crates/luaml/src/registry.rs:284-307 | a clause fires exactly when its policy matches with some bindings and it has no guard, or its guard text is spelled by a derivation whose expression is true under these bindings |
| `Registry.FirstMatchStable` | crates/luaml/src/registry.rs:284-307 | on a larger event that gives `:global:` fields only enums, the clause that fired still fires, so the match is that clause or an earlier one |
| `Registry.QueryFindsMatching` | crates/luaml/src/registry.rs:271-281 | a clause that matches an event is returned for every query that is part of the event and asks only for the clause's keys |
| `Registry.QueryExact` | crates/luaml/src/registry.rs:237-281 | for every policy: it names all query keys and some event extending the query matches it exactly when the query returns it, the query's values also suit the later fields of a repeated key, and some value suits all fields of each key the query leaves open |
| `Registry.DiscoveredEventMatches` | crates/luaml/src/registry.rs:271-281 | the matching event, built from the query and the values found for the open keys |
| `Registry.SatisfiableIffMatched` | crates/luaml/src/pattern_match.rs:23-67 | a pattern is satisfiable, as computed by meeting its parts, exactly when some value matches it |
| `Satisfaction.MeetSound` | crates/luaml/src/pattern_match.rs:23-171 | the value found for several patterns is matched by all of them, repeated map keys included |
| `Satisfaction.MeetComplete` | crates/luaml/src/pattern_match.rs:23-171 | a value is found whenever some value is matched by all of them |
| `Registry.QueryAllExact` | crates/luaml/src/registry.rs:237-251 | the query returns exactly the clauses, with their indices, that accept it, of the registered scripts |
| `Registry.QueryAllInOrder` | crates/luaml/src/registry.rs:237-251 | results come script by script in registration order, and by rising clause index within a script |
| `Registry.WithoutExact` | crates/luaml/src/registry.rs:153-157 | unregistering removes exactly the scripts of the path, and tells whether there were any |
| `Registry.WithoutAppends` | crates/luaml/src/registry.rs:153-157 | script by script: what stays of two runs of scripts is what stays of each, in order |
| `Registry.ReplaceIsAtomicIff` | crates/luaml/src/registry.rs:162-171 | replacing swaps the path's scripts for the new one, or changes nothing, exactly when the text is read or no script had the path; otherwise the old script is lost, against the word "atomically" in crates/luaml/src/lib.rs:274 |
| `Registry.ReplaceKeepsPlaceIff` | crates/luaml/src/registry.rs:162-171 | a replaced script goes to the end of the registration order; it keeps its place exactly when that was the last |
| `Registry.ReplacedAnswersLast` | crates/luaml/src/registry.rs:162-171 | so its match comes after those of all other scripts |
| `Registry.FailedReplaceLosesScript` | crates/luaml/src/registry.rs:162-171 | an empty text is such a case |
| `Registry.ScriptRegistry.Replace` | crates/luaml/src/registry.rs:162-171 | unregister first, then read and register the text |
| `Registry.ScriptRegistry.RegisterText` | crates/luaml/src/registry.rs:39-47 | a text that is read is appended; one that is not leaves the registry as it was |
| `Registry.ScriptRegistry.Unregister` | crates/luaml/src/registry.rs:153-157 | keeps the other scripts in order |
| `Registry.ScriptRegistry.MatchClauses` | crates/luaml/src/registry.rs:215-223 | the loop over the scripts, at most one match each |
| `Registry.ScriptRegistry.QuerySubset` | crates/luaml/src/registry.rs:237-251 | every discoverable clause with its index, script by script; guards are ignored |
| `Registry.MatchFirstClause` | crates/luaml/src/registry.rs:284-307 | the first clause that fires; a guard that fails or errs skips its clause |
| `ScriptSplit.BoundaryIff` | crates/luaml/src/parser.rs:320-337 | the boundaries are exactly the lines that open a closed frontmatter-like block and do not themselves close an earlier one |
| `ScriptSplit.BoundariesDisjoint` | crates/luaml/src/parser.rs:320-337 | boundaries increase; every block is closed before the next opens, so all slices are in range |
| `ScriptSplit.FindClauseBoundaries` | crates/luaml/src/parser.rs:320-337 | the scanning loop finds them |
| `ScriptSplit.CutConserves` | crates/luaml/src/parser.rs:55-111 | bodies, fences and blocks in order give back the lines |
| `ScriptSplit.CutIsSlices` | crates/luaml/src/parser.rs:76-93 | slicing at the boundaries cuts the lines as the recursive definition does |
| `ScriptSplit.CutFirstSlice` | crates/luaml/src/parser.rs:59-60 | the first body ends at the first boundary, and there is one section per boundary |
| `ScriptSplit.CutUndoesAssemble` | crates/luaml/src/parser.rs:55-111 | cutting assembled parts returns them exactly when blocks are frontmatter without fences and no line of a body, with all that follows it, opens a block |
| `ScriptSplit.CheckFrontmatter` | crates/luaml/src/parser.rs:340-352 | the first line that is not blank decides |
| `ScriptSplit.BlockOpensIff` | crates/luaml/src/parser.rs:320-352 | a block opens at a line exactly when that line is a fence, a later fence is the next one, and of the lines between the first that is not blank holds a colon or begins with a question mark or an at sign |
| `Frontmatter.BlockSaysItsLines` | crates/luaml/src/parser.rs:212-317 | a block is read exactly when none of its lines is bad; then fields and guards are those of its lines in order, top annotations are those above the first field (none in a further clause), and each field keeps the annotations right above its last annotated line; guards and fields part annotations from what follows |
| `Frontmatter.BlockFailsAtFirstBadLine` | crates/luaml/src/parser.rs:212-317 | the error is that of the first bad line |
| `LineGrammar.LineIff` | crates/luaml/src/parser.rs:222-297 | what one line is, for every line: blank, annotation, guard, field or one of the errors, told by its first character, its first colon and the pattern that the rest reads as |
| `Frontmatter.FieldAnnotationsExact` | crates/luaml/src/parser.rs:280-294 | which annotations a field keeps, key by key |
| `Frontmatter.TopAnnotations` | crates/luaml/src/parser.rs:280-303 | which annotations are kept at the top |
| `Frontmatter.ParseFrontmatterBlock` | crates/luaml/src/parser.rs:212-317 | the loop over the lines with its pending annotations computes the fold over line kinds |
| `ScriptParser.MergeIsOverride` | crates/luaml/src/parser.rs:121-131 | per key, the last field of the further clause wins over the first of the base; base keys keep their order, new ones follow, distinct keys stay distinct |
| `ScriptParser.OverrideReplacesAllIff` | crates/luaml/src/parser.rs:120-131 | for any further clause and any key it names: every field of the merge with that key has the new pattern exactly when each base field with the key, past the first, already has it |
| `ScriptPrinter.RepeatedKeyIsNotOverridden` | crates/luaml/src/parser.rs:120-131 | a script that the parser accepts with the base lines `k: a` and `k: b` and a further clause `k: c`: the clause still asks for b, and an event with c does not match it |
| `ScriptParser.MergeFields` | crates/luaml/src/parser.rs:121-131 | the loop that edits the merged list in place |
| `ScriptParser.MergeFieldAnnotations` | crates/luaml/src/parser.rs:135-150 | inherited fields keep the base's annotations unless the further clause has its own |
| `ScriptParser.ExtensionIff` | crates/luaml/src/parser.rs:157-193 | a declaration is read exactly when the header declares at most one name, and not an empty one |
| `ScriptParser.HeaderDeclares` | crates/luaml/src/parser.rs:157-193 | said by the lines: the header ends at the first line that neither is blank nor begins with an exclamation mark; none is declared when all its lines are blank, and a name when exactly one is not and the name follows its mark |
| `ScriptParser.HeaderIff` | crates/luaml/src/parser.rs:157-193 | where the header ends |
| `ScriptParser.ExtractExtension` | crates/luaml/src/parser.rs:157-193 | the loop over the header lines, with the lines that remain |
| `ScriptParser.ScriptIsItsParts` | crates/luaml/src/parser.rs:27-118 | a script that is read is its first block, first body and sections without a line lost; the first clause is its block; each further clause has its own guard and annotations and none of the base's, per key the pattern of its own last field or else of the base, per key its own field annotations or else the base's; the Lua text is the body's lines with newlines between |
| `ScriptParser.ScriptOutcome` | crates/luaml/src/parser.rs:27-118 | which scripts are read and which error is given: extension first, then the first block, then the first further block that is not read |
| `ScriptParser.ScriptNeedsFences` | crates/luaml/src/parser.rs:32-51 | a text that does not begin with a fence, or has no second one, is one of two errors |
| `ScriptParser.JoinedIsText` | crates/luaml/src/parser.rs:60 | the lines of a body, each at its place, with one newline between neighbours and nothing else |
| `ScriptParser.NoUnclosedBlock` | crates/luaml/src/parser.rs:78-89 | the error for a further block that is not closed is never given |
| `ScriptParser.ParseLuaml` | crates/luaml/src/parser.rs:27-118 | the whole parser on the lines of a text |
| `ScriptParser.BlockGuardIsConjunction` | crates/luaml/src/parser.rs:305-309 | end to end: the guard of a block evaluates as the conjunction of its `?` lines under the condition above |
| `ScriptParser.BlockGuardIsConjunctionIff` | crates/luaml/src/parser.rs:305-309 | end to end, for all bindings: the guard of a block evaluates as the conjunction of its `?` lines exactly under the condition of `JoinIsConjunctionUnderIff` |
| `ScriptPrinter.ScriptRoundTrip` | crates/luaml/src/parser.rs:27-118 | a written script (extension, base block, bodies, further blocks) is read as exactly the clauses it was written for; bodies may hold any lines that open no block, and the base block may start with blank lines |
| `ScriptPrinter.FenceFreeIsWritable` | crates/luaml/src/parser.rs:55-111 | in particular every script of printable lines whose bodies hold no fence and whose further blocks are not all blank |
| `ScriptPrinter.LineReads` | crates/luaml/src/parser.rs:222-297 | a written field, guard or annotation line is read as what it was written for, patterns included |
| `Paths.NormalizePreserves` | crates/luaml/src/stdlib/path.rs:185-213 | normalizing keeps where a path leads from every directory, `..` at the root being a no-op; doing it twice changes nothing; the result is a root then names, or parents then names, or `.` |
| `Paths.NormalizeDecides` | crates/luaml/src/stdlib/path.rs:185-213 | two paths normalize to the same text exactly when they lead to the same place from every directory |
| `Paths.NormalIsCanonical` | crates/luaml/src/stdlib/path.rs:185-213 | normal forms that lead to the same place from every directory are equal |
| `Paths.StackIsNormal` | crates/luaml/src/stdlib/path.rs:185-205 | the component stack is in normal form throughout, so it never holds a `.`, and keeps the root |
| `Paths.TextReads` | crates/luaml/src/stdlib/path.rs:206-212 | the text built by pushing a normal form is read as that form |
| `Paths.NormalizeLexical` | crates/luaml/src/stdlib/path.rs:185-213 | the loop over the components and the loop that pushes the result |
| `Paths.RelativeInvertsJoinIff` | crates/luaml/src/stdlib/path.rs:131-141 | joining the relative path to where it starts and normalizing gives the end exactly when the end is absolute, or both are relative and what the start does not share with the end is plain names |
| `Paths.DifferentFrames` | crates/luaml/src/stdlib/path.rs:131-141 | where one path is absolute and the other is not, the answer is the end itself, normalized |
| `Paths.DotIsNotInverted` | crates/luaml/src/stdlib/path.rs:219-242 | the relative path of `.` to a name is `../name`, which does not lead back |
| `Paths.RelativeLexical` | crates/luaml/src/stdlib/path.rs:219-242 | the shared-prefix loop and the two pushing loops |
| `Json.CanonicalizeDecides` | crates/luaml/src/stdlib/json.rs:265-279 | two values have the same canonical form exactly when they are the same nested value, whatever the insertion order |
| `Json.CanonicalizeNormalizes` | crates/luaml/src/stdlib/json.rs:265-279 | the canonical form is key-sorted at every level, keeps the value and is its own canonical form |
| `Json.CanonicalIsUnique` | crates/luaml/src/stdlib/json.rs:265-279 | a value has one form with strictly sorted keys at every level |
| `JsonTables.DetectShape` | crates/luaml/src/stdlib/json.rs:133-223 | in whatever order the keys come, the count and the maximum tell arrays (keys exactly 1..N, or none), objects (string keys), and the three errors apart |
| `JsonTables.Pigeonhole` | crates/luaml/src/stdlib/json.rs:184-191 | as many distinct indices as the largest of them are all the indices up to it |
| `JsonTables.MaxDecides` | crates/luaml/src/stdlib/json.rs:191 | the maximum equals the count exactly when the keys are contiguous |
| `JsonTables.ShapeIff` | crates/luaml/src/stdlib/json.rs:133-223 | a table is an array if its keys are 1 to N, an object if all are strings, and otherwise one of three errors: a key that is neither, both kinds together, or indices with gaps |
| `JsonTables.EncodedIff` | crates/luaml/src/stdlib/json.rs:114-223 | a Lua value is encoded as the one JSON value that says what it is, and is an error exactly when none does: items by index, fields by name, finite numbers only, at every depth |
| `JsonTables.DecodedIff` | crates/luaml/src/stdlib/json.rs:228-259 | a JSON value is decoded to the one Lua value that shows it: items at index + 1, fields by name, nulls missing from both, integers beyond 64 bits as doubles |
| `JsonTables.RoundTripIff` | crates/luaml/src/stdlib/json.rs:114-259 | a JSON value comes back from Lua unchanged exactly when no array or object in it holds a null, no object is empty, and every number is a 64-bit integer or a finite double |
| `Combinatorics.Binom` | crates/luaml/src/stdlib/math.rs:176-195 | the multiplicative loop yields Pascal's coefficient, and an integer at every step |
| `Combinatorics.NextCoefficient` | crates/luaml/src/stdlib/math.rs:190-192 | (k + 1) C(n, k + 1) = (n - k) C(n, k) |
| `Combinatorics.ChooseSymmetric` | crates/luaml/src/stdlib/math.rs:188 | C(n, k) = C(n, n - k), which allows the smaller of the two |
| `Combinatorics.ChooseFactorial` | crates/luaml/src/stdlib/math.rs:162-195 | C(n, k) k! (n - k)! = n! |
| `Combinatorics.ComputeFactorial` | crates/luaml/src/stdlib/math.rs:162-174 | the loop yields the factorial |
| `Statistics.PercentileMonotone` | crates/luaml/src/stdlib/math.rs:94-122 | a larger share never gives a smaller percentile |
| `Statistics.PercentileBetweenEnds` | crates/luaml/src/stdlib/math.rs:94-122 | shares 0 and 1 give the least and the greatest element of the list; every other percentile lies between |
| `Statistics.PercentileIsLinear` | crates/luaml/src/stdlib/math.rs:94-122 | between two neighbouring ranks of the sorted list the percentile moves on a straight line from one to the other |
| `Statistics.PercentileRefuses` | crates/luaml/src/stdlib/math.rs:49-103 | percentile and median refuse the empty list, percentile then a share outside 0 to 1, and nothing else |
| `Statistics.HalfIsMedian` | crates/luaml/src/stdlib/math.rs:49-66 | the percentile at one half is the median, for every non-empty list |
| `Statistics.OrderForgotten` | crates/luaml/src/stdlib/math.rs:49-122 | percentile and median do not depend on the order of the list |
| `Url.DecodeUndoesEncode` | crates/luaml/src/stdlib/url.rs:59-96 | decoding undoes encoding on every byte string |
| `Url.EncodeUndoesDecodeIff` | crates/luaml/src/stdlib/url.rs:59-96 | encoding undoes decoding exactly on texts of letters, digits and upper-case triplets of other bytes |
| `Url.EncodedIsSafe` | crates/luaml/src/stdlib/url.rs:59-70 | an encoded text holds letters, digits and percent signs only |
| `Url.EncodeFront` | crates/luaml/src/stdlib/url.rs:59-70 | a letter or digit stands for itself, any other byte becomes a percent sign and its two upper-case digits, the high one first |
| `Url.DecodeFront` | crates/luaml/src/stdlib/url.rs:77-96 | a percent sign with two hexadecimal digits, of either case, is the byte they spell; any other byte passes through |
| `Url.EncodeComponent` | crates/luaml/src/stdlib/url.rs:59-70 | the byte loop |
| `Url.DecodeComponent` | crates/luaml/src/stdlib/url.rs:77-96 | the index loop; bytes that start no triplet pass through |
| `Rpc.AnswersInRequestOrder` | crates/luaml/src/stdlib/rpc.rs:373-415 | if every request of a batch is answered, in any order and among other items, by a result, an error or neither, its entry is made of its own item, in request order |
| `Rpc.ResultsInRequestOrder` | crates/luaml/src/stdlib/rpc.rs:373-415 | the special case of results: if every request of a batch is answered, in any order and among other items, each gets its own result, in request order |
| `Rpc.OrderAndStrangersIrrelevant` | crates/luaml/src/stdlib/rpc.rs:373-415 | neither the order of distinct-id responses nor items for unknown ids change the outcome |
| `Rpc.PermutationIrrelevant` | crates/luaml/src/stdlib/rpc.rs:373-415 | the special case of a permutation |
| `Rpc.GapIff` | crates/luaml/src/stdlib/rpc.rs:403-410 | a request without an answer gets the no-response error; an entry spelled so means that there is no answer, or that the server spelled the same error itself |
| `Rpc.EntrySays` | crates/luaml/src/stdlib/rpc.rs:390-450 | an error that is not null comes before a result; the missing parts of an error have their defaults, each on its own; an item with neither is an error of its own |
| `Rpc.LastAnswerCounts` | crates/luaml/src/stdlib/rpc.rs:373-389 | if several items answer one request, the last of them counts |
| `Rpc.StrangersAreDropped` | crates/luaml/src/stdlib/rpc.rs:370-415 | items that answer no request leave no entry, whatever they say: the outcome is that of the other items alone |
| `Rpc.CorrelateBatchResponse` | crates/luaml/src/stdlib/rpc.rs:373-415 | the map filled in one loop and read in another gives one entry per request |
| `Rpc.IdsDistinct` | crates/luaml/src/stdlib/rpc.rs:144-146 | ids are pairwise distinct until the 64-bit counter has gone around |
| `Rpc.IdsContinue` | crates/luaml/src/stdlib/rpc.rs:460-484 | the ids of successive batches are those of one longer batch |
| `Rpc.RpcClient.BuildBatchBody` | crates/luaml/src/stdlib/rpc.rs:460-484 | consecutive ids in request order; a bad entry stops the batch with the ids before it used up |

## Left out

- The Lua virtual machine, the API proxies and the conversion of emitted tables: one deterministic function of world, clause and bindings.
- Sockets, HTTP, processes, files, timers, promises, the file watcher, the JSON-RPC transport, cryptography, regular expressions, base64, TOML, serialization and console output.
- `register_dir` and extension manifests, the API binding tables and the by-type part of the statistics: bookkeeping around what is modelled.
- Reading a text into lines (`str::lines`) and joining the outcome messages: scripts are sequences of lines, errors carry the numbers their messages spell out.
- The counters wrap at 64 bits in the source and are unbounded here; the remaining budget never exceeds its 32-bit start.
- Engine.LuamlEngine.RunInner: `dispatch_inner` is divided into `Admit`, `RunMatched`, `SpendOn` and `RunEmitted`, one per check or loop, and returns the outcomes instead of pushing onto a shared vector; the log of calls and the path of active events are ghost.
- GuardLexer.Tokenize: characters are classified as ASCII, as the source does for words and digits; the value of a number text is left to `NumberLib`.
- Floats: values are kept as their 64 bits with IEEE equality and order; the conversion of an integer to a double is a parameter, and `math` is over exact reals.
- PatternGrammar.ReadsIff: says which texts are read and as what; of a text that is not read it is not said which error it gives, only whether it panics (`PatternPanics.PanicsIff`).
- GuardParser.ParseCorrect: likewise, which error an invalid guard gives is settled by the parser alone; nothing depends on it, since a guard that fails does not fire.
- Frontmatter.ParseFrontmatterBlock: a panic of the pattern parser is the error value `PatternPanics`, so the methods that read blocks, scripts and registry texts return it where the source unwinds.
- Registry.ReplaceIsAtomicIff: script paths are compared as strings, where the source compares them component by component.
- Paths: Unix components only; no prefixes, no lossy replacement of bytes.
- JsonTables.DetectShape: a float key of integer value is kept with the index it is cast to; strings are taken to be valid UTF-8.
- Json.CanonicalizeDecides: member lists are in insertion order; a build of the JSON library that sorts on its own is the special case.
- Url.DecodeComponent: works on bytes; the lossy conversion of the result to text is left out.
- Rpc: a request that is no pair of a method and parameters is one error, whatever its cause.
- `vec`, `lerp`, `clamp`, `smoothstep`, `mean`, `variance`: settled by reading one line.
