# Logikek resolver in Dafny

Logikek is a small logic language. A program is a text of lines, and each line is one of four things:
- a fact, such as `Likes(Max, Jane);`;
- a rule, such as `Friends(X, Y): Likes(X, Y) AND Knows(X, Y);`;
- a query, such as `Friends(Max, Jane)?` or `Friends(X, Y)?`;
- a comment.

Arguments are constants, or atoms (variables). The interpreter loads the text into facts, queries and rules, collecting errors on the way. Then it answers every query in source order:
- A query without atoms is answered true or false.
- A query with atoms is answered with the list of its solutions (bindings of its atoms).

This project models the interpreter's core and proves properties of the model:

- `ConditionOperators` (operators.dfy): the rule-body operators AND, OR and NOT, and their keywords.
- `Clauses` (clauses.dfy): arguments, facts, conditions, rules, queries and query results, as values.
- `Substitution` (substitution.dfy): the atom-to-argument rewrite, the one-sided pattern match, and the bindings of one solution.
- `Combinator` (combinator.dfy): the fold that joins the result of one rule-body condition to the result of the conditions before it.
- `Resolution` (resolution.dfy): the specification of the memoising resolver. It is a set of functions that pass the cache along explicitly:
  - `Resolve` handles cache hits.
  - `Fresh` handles the fact lookup and marks the query "in progress".
  - `Deduce` and `EvalBody` handle deduction.
  - `Induce` and `InduceRule` handle induction.
  - `Enumerate` and `RuleSolutions` handle solution mode.
  - `ResolveAll` answers a list of queries.
  - The recursion terminates because every real step adds a new query to the cache. The queries form a finite pool, built by `PoolOf` from the names and arguments of the program, and `Measure` counts the queries of the pool that are not yet cached.
- `Loading` (loading.dfy): splitting and trimming the text, classifying each line, and building the program.
- `LogikekParser` (parser.dfy): the interpreter itself. The class `Parser` has the fields `loaded`, `facts`, `queries`, `rules` and `cache`, and methods that update them. Each method is proved to compute exactly what its `Resolution` or `Loading` function specifies. The loops of the resolver keep their bodies in step methods: `DeduceWithRule`, `EvaluateCondition`, `InduceWithRule`, `InduceWithCondition` and `SolutionFromRule`.
- `LogikekProcessor` (processor.dfy): the earlier interpreter. It loads programs the same way but answers a query only by looking it up among the facts.
- `ResolutionProperties` (properties.dfy) and `LogikekExamples` (examples.dfy): lemmas about the resolver's specification, and concrete programs worked through it.

The grammar is a parameter. It is a record of four productions (fact, query, rule, comment), and each production returns a parsed value or a failure with a column.

Behaviours of the code worth knowing:

- **Already-cached condition.** During deduction, a condition query that is already in the cache, in any state, is not resolved again.
  - If the rule head's own query is still in progress, the rule body is aborted and the query is answered false.
  - Otherwise the query's own stored result is used in place of the condition's.

  This makes answers depend on the queries asked before (`CachedConditionAbortsRule` against `RuleAnswersAlone`).
- **Combinator without AND.** When the operator is not AND and the accumulated result is true, the combinator returns that result itself. So `theQuery` is then the earlier operand's query, not the later one's.
- **`EvaluateQuery` keeps the cache.** It resolves against the cache left by earlier calls; only `Run` starts from an empty cache.
- **Induction with a head in progress.** In induction, a head query that is still in progress answers the query false.
- **A rule asked its own query in solution mode.** For a query with atoms, each matching rule is asked the query its head gives under the query's arguments (Logikek/Parser.cs:281). With a head such as `Friends(X, Y)` and the query `Friends(X, Y)?` (the shape the comment at Logikek/Parser.cs:264-271 sketches), that is the query being answered, still in progress, so it resolves to a false cycle result and the rule adds no solution. With `A(p)` and `R(X): A(X)`, the query `R(X)?` has no solutions (`SelfRuleQueryAddsNothing`).
- **Exceptions.** Three .NET exceptions can end a call, and the model returns them as the `Failure` of an `Outcome`:
  - `DuplicateKey`: `Dictionary.Add` meets a key already present. This happens when a rule head, a matching condition or a query with solutions repeats an atom name.
  - `NullReference`: the resolver's `EvaluateQuery` runs before any `Run`, so the cache is still null and `ContainsKey` is called on it (Logikek/Parser.cs:105).
  - `ArgumentNull`: the earlier interpreter's `EvaluateQuery` runs before any `Run` on a simple query, so `Enumerable.Any` is given the null fact list (Logikek/Processor.cs:91).

  The resolver's specification returns the cache as it was at the throw (`Threw`, `StepThrew`, `FoldThrew`, `FoundThrew`, `BatchThrew`). A throw ends the whole `Run`, errors or not. Programs without repeated atom names (`WfRules`, `DistinctAtoms`) never throw.

## Model

| member | source | states |
|---|---|---|
| ConditionOperators.GetKeyword | Logikek/Language/ConditionOperator.cs:14-26 | Total over the three operators; the keyword lengths are 1, 3 and 2, and each length identifies its operator, so the default branch is unreachable |
| ConditionOperators.KeywordsDistinct | Logikek/Language/ConditionOperator.cs:18-23 | Equal keywords come from the same operator |
| Clauses.FactHolds | Logikek/Parser.cs:128 | True iff some fact has the query's name and exactly its argument list |
| Substitution.Bindings | Logikek/Parser.cs:373-382 | The dictionary maps each name to an argument taken from the positions of `atoms` |
| Substitution.BindingsKeys | Logikek/Parser.cs:375-382 | The dictionary's keys are exactly the names of the atoms in `atoms` |
| Substitution.BindingsFresh | Logikek/Parser.cs:379 | The name added at a step is already a key iff an earlier atom has the same name, which is when `Add` throws |
| Substitution.DistinctExtend | Logikek/Parser.cs:375-382 | Extending a list with distinct atom names by one argument keeps them distinct iff that argument is a constant or an atom with a new name |
| Substitution.DistinctPrefix | Logikek/Parser.cs:375-382 | A prefix of a list with distinct atom names has distinct atom names |
| Substitution.BindingsAt | Logikek/Parser.cs:375-382 | With distinct atom names, the atom at position k is bound to `names[k]` |
| Substitution.Substitute | Logikek/Parser.cs:370-398 | The rewritten list has the length of the target |
| Substitution.MapAtoms | Logikek/Parser.cs:373-382 | The `Add` loop throws a duplicate key iff `atoms` repeats an atom name, and otherwise builds `Bindings` |
| Substitution.ReplaceAtomsWithNames | Logikek/Parser.cs:370-398 | Throws a duplicate key iff `atoms` repeats an atom name; otherwise the in-place remove/insert loop computes `Substitute` |
| Substitution.SubstituteShape | Logikek/Parser.cs:387-395 | Constants and unbound atoms pass through; an atom named like `atoms[k]` becomes `names[k]` |
| Substitution.SubstituteFrom | Logikek/Parser.cs:384-395 | Every argument of the result comes from the target or from `names` |
| Substitution.SubstituteKeepsDistinct | Logikek/Parser.cs:151-152 | Substituting constants keeps atom names distinct |
| Substitution.SubstituteHead | Logikek/Parser.cs:281 | A head substituted into itself takes the query's argument at every atom position and keeps its constants |
| Substitution.SubstituteHeadDistinct | Logikek/Parser.cs:281 | A rule query built from a head keeps atom names distinct |
| Substitution.CompareArgumentsIgnoringAtoms | Logikek/Parser.cs:305-313 | True iff every constant position of the first list has the same name in the second |
| Substitution.CompareReflexive | Logikek/Parser.cs:305-313 | The match is reflexive |
| Substitution.CompareAllAtoms | Logikek/Parser.cs:305-313 | A pattern made only of atoms matches any list at least as long |
| Substitution.SolutionOf | Logikek/Parser.cs:252-261 | A solution holds exactly the pairs of atom name and value name at the query's atom positions |
| Substitution.SolutionKeyUsed | Logikek/Parser.cs:259 | While a solution is built, an atom's name is already a key iff an earlier atom has that name, which is when `Add` throws |
| Substitution.SolutionKeysDistinct | Logikek/Parser.cs:259 | With distinct atom names, no key of a solution repeats |
| Combinator.Stringify | Logikek/Parser.cs:315-318 | Each binding contributes at least two characters; the string is empty iff the solution is |
| Combinator.Stringified | Logikek/Parser.cs:335-336 | The string forms of the right operand's solutions, one per solution, in order |
| Combinator.KeepMatching | Logikek/Parser.cs:338 | The solutions kept are a subsequence of the left list: each solution whose string form is a key keeps all its copies, and every other solution is dropped |
| Combinator.ApplyLogicalOperator | Logikek/Parser.cs:320-368 | Each case of the fold. No accumulator gives the right operand. AND without bindings is a conjunction. AND with bindings keeps a list: when both sides have one, each left solution with all its copies iff its string form is among the right's, otherwise the side that has one; the result is true iff the list is non-empty. Without AND, the first true operand, else false with the right operand's query |
| Combinator.StringifyInjective | Logikek/Parser.cs:315-318 | For separator-free names the string form determines the solution |
| Combinator.AndKeepsCommonSolutions | Logikek/Parser.cs:331-339 | AND of two solution lists keeps exactly the left solutions that also occur in the right list |
| Resolution.CycleResult | Logikek/Parser.cs:107-117 | The answer for a query met while in progress is false, with an empty solution list iff the query has atoms |
| Resolution.Negated | Logikek/Parser.cs:171-181 | Negation flips the truth value and keeps query and solutions |
| Resolution.FactSolutions | Logikek/Parser.cs:244-262 | No more solutions than facts |
| Resolution.FactSolutionsFrom | Logikek/Parser.cs:244-262 | A fact solution is exactly the binding of one fact that has the query's name and arity and matches the query's constants |
| Resolution.Resolve | Logikek/Parser.cs:103-121 | A finished entry is returned with the cache unchanged. A marker becomes the cycle answer. A new query goes to `Fresh`. Without a throw, the query ends with a finished entry that fits it, and older finished entries keep their results. Without repeated atom names there is no throw |
| Resolution.Fresh | Logikek/Parser.cs:121-131 | A new query is answered and stored. An atom-free query that a fact answers is true. For a query with atoms, every fact solution is in the answer. Without repeated atom names there is no throw |
| Resolution.Answer | Logikek/Parser.cs:133-302 | For atom-free queries: deduction, then induction, then false. For queries with atoms: solution mode. Without a throw, the query's entry is finished and fits |
| Resolution.Deduce | Logikek/Parser.cs:136-191 | Matching rules in order. An answer is stored under the query and is about the query. Well-formed rules never throw |
| Resolution.EvalBody | Logikek/Parser.cs:148-185 | The body fold keeps the cache stable and the query's entry in place. Well-formed rules never throw |
| Resolution.Induce | Logikek/Parser.cs:196-236 | Candidate rules in order. An answer is stored under the query and is about the query. Well-formed rules never throw. Both directions are stated by `InduceAnswers` and `InduceFirstCandidate` |
| Resolution.InduceRule | Logikek/Parser.cs:205-235 | Matching conditions in order. An answer is stored under the query and is about the query. Well-formed rules never throw. Both directions are stated by `InduceRuleAnswers` and `InduceRuleFirstMatchingCondition` |
| Resolution.Enumerate | Logikek/Parser.cs:238-299 | Without a throw, the fact solutions are a prefix of the answer, the answer is true iff it has a solution, and it is stored under the query. Without repeated atom names there is no throw |
| Resolution.RuleSolutions | Logikek/Parser.cs:275-297 | Rule solutions are appended after the solutions found so far. Without repeated atom names there is no throw |
| Resolution.ResolveAll | Logikek/Parser.cs:73 | One result per query, in order, each fitting its query; a throw ends the batch |
| Resolution.BatchThrewStays | Logikek/Parser.cs:73 | Once a query throws, the later queries are never resolved: the batch throws with the cache of that moment |
| Resolution.Ask | Logikek/Parser.cs:83-95 | One more query against an existing cache, without a throw, leaves the cache stable and the query finished |
| Resolution.RunQueries | Logikek/Parser.cs:23-76 | The program's queries resolved over an empty cache: one fitting result per query, or a throw. Without repeated atom names there is no throw |
| Resolution.PoolOfCovers | Logikek/Parser.cs:121 | The pool of a program contains every query the resolver can reach, so the measure is finite |
| Resolution.MeasureDrops | Logikek/Parser.cs:121 | Marking a new query lowers the number of uncached queries of the pool |
| Resolution.StoreReady | Logikek/Parser.cs:97-101 | Storing a fitting result keeps the cache invariant |
| Loading.SplitLines | Logikek/Parser.cs:31 | At least one line; no line holds a newline |
| Loading.JoinSplit | Logikek/Parser.cs:31 | Joining the lines gives back the text |
| Loading.SplitJoin | Logikek/Parser.cs:31 | Splitting joined newline-free lines gives them back |
| Loading.TrimSpec | Logikek/Parser.cs:31 | The trimmed line is a slice of the line with only white space cut from both ends, and it neither starts nor ends with white space |
| Loading.TrimIdempotent | Logikek/Parser.cs:31 | Trimming twice is trimming once |
| Loading.TrimBlank | Logikek/Parser.cs:31-37 | A line trims to empty iff it is all white space |
| Loading.Lines | Logikek/Parser.cs:31 | One trimmed line per line of the text |
| Loading.Classify | Logikek/Parser.cs:37-65 | Only an empty line is blank. A parsed fact decides a non-empty line: an error at the fact's column if it has atoms, else a fact. Otherwise a parsed query, then a parsed rule, then a comment; a line nothing accepts is an error at the rule production's column |
| Loading.LineError | Logikek/Parser.cs:42-43 | A line reports an error, carrying its own number, iff it is a fact with atoms or matches no production |
| Loading.AddLine | Logikek/Parser.cs:36-70 | A fact, query or rule line appends its clause to that list and leaves everything else; a line's error is appended to the errors; blank and comment lines change nothing |
| Loading.LoadFacts | Logikek/Parser.cs:31-71 | The loaded facts are exactly the facts of the lines classified as fact lines |
| Loading.LoadQueries | Logikek/Parser.cs:31-71 | The loaded queries are exactly the queries of the lines classified as query lines |
| Loading.LoadRules | Logikek/Parser.cs:31-71 | The loaded rules are exactly the rules of the lines classified as rule lines |
| Loading.LoadShape | Logikek/Parser.cs:33-71 | Facts never hold atoms; error lines are 1-based physical line numbers, strictly increasing |
| Loading.ErrorOfLine | Logikek/Parser.cs:33-71 | Every reported error is the error of the line it names |
| Loading.AtomFactReported | Logikek/Parser.cs:40-47 | A fact line with an atom is reported at its line and column |
| Loading.LoadLines | Logikek/Parser.cs:31-71 | The counting loop over trimmed lines builds the program `Load` specifies |
| Loading.LoadLine | Logikek/Parser.cs:36-70 | One iteration: the early exits for blank lines, facts, queries, rules and comments, and the error otherwise |
| LogikekParser.CollectSolution | Logikek/Parser.cs:286-295 | The binding loop throws a duplicate key iff the query repeats an atom name, and otherwise builds `SolutionOf` |
| LogikekParser.ApplyNegation | Logikek/Parser.cs:171-181 | The negation branch computes `Negated` |
| LogikekParser.CycleAnswer | Logikek/Parser.cs:109-116 | The in-progress branch computes `CycleResult` |
| LogikekParser.Parser.constructor | Logikek/Parser.cs:10-14 | Nothing is loaded yet: the lists and the cache stand for null |
| LogikekParser.Parser.Run | Logikek/Parser.cs:21-76 | The lists are replaced by the loaded program's, and the cache is empty before resolving. A throw while resolving is the result; otherwise the errors if any, else the results of `RunQueries` in order |
| LogikekParser.Parser.Install | Logikek/Parser.cs:23-75 | Takes over the loaded lists, empties the cache and resolves. A throw is the result; otherwise the errors or the results |
| LogikekParser.Parser.ResolveLoaded | Logikek/Parser.cs:73 | The outcome and the final cache are those of `RunQueries` |
| LogikekParser.Parser.ResolveQueries | Logikek/Parser.cs:73 | Resolving the queries in order, stopping at a throw, computes `ResolveAll` |
| LogikekParser.Parser.EvaluateQuery | Logikek/Parser.cs:83-95 | A text that is not a query gives one error on line 0 and leaves the cache. A query before any `Run` throws a null reference. Otherwise the query is answered by `Ask` against the current cache, which is kept, and a throw there is the result |
| LogikekParser.Parser.AddToCacheAndReturn | Logikek/Parser.cs:97-101 | Stores the result under the query and returns it |
| LogikekParser.Parser.ResolveQuery | Logikek/Parser.cs:103-303 | Computes `Resolve`: the outcome and the new cache |
| LogikekParser.Parser.AnswerFromCache | Logikek/Parser.cs:105-119 | A cache hit computes `Resolve` |
| LogikekParser.Parser.ResolveFresh | Logikek/Parser.cs:121-131 | The marker, then the fact lookup, computes `Resolve` for a new query |
| LogikekParser.Parser.ResolveMarked | Logikek/Parser.cs:133-302 | Deduction, induction and solution mode compute `Answer` |
| LogikekParser.Parser.TryDeduction | Logikek/Parser.cs:136-191 | The loop over rules computes `Deduce` |
| LogikekParser.Parser.DeduceWithRule | Logikek/Parser.cs:145-190 | One rule of the deduction loop |
| LogikekParser.Parser.EvaluateRuleBody | Logikek/Parser.cs:147-185 | The loop over conditions computes `EvalBody` |
| LogikekParser.Parser.EvaluateCondition | Logikek/Parser.cs:150-184 | One condition: substitution, the already-cached check, recursion, negation and the fold |
| LogikekParser.Parser.TryInduction | Logikek/Parser.cs:196-236 | The loop over candidate rules computes `Induce` |
| LogikekParser.Parser.InduceWithRule | Logikek/Parser.cs:196-204 | One rule of the induction loop, skipped unless it is a candidate |
| LogikekParser.Parser.InduceFromRule | Logikek/Parser.cs:205-235 | The loop over a rule's conditions computes `InduceRule` |
| LogikekParser.Parser.InduceWithCondition | Logikek/Parser.cs:207-233 | One condition: the pattern check, the head query, the in-progress check and the recursion |
| LogikekParser.Parser.EnumerateSolutions | Logikek/Parser.cs:238-299 | Fact solutions, then rule solutions, compute `Enumerate` |
| LogikekParser.Parser.FactSolutionsOf | Logikek/Parser.cs:244-262 | The loop over facts computes `FactSolutions` |
| LogikekParser.Parser.RuleSolutionsOf | Logikek/Parser.cs:275-297 | The loop over rules computes `RuleSolutions` |
| LogikekParser.Parser.SolutionFromRule | Logikek/Parser.cs:281-296 | One rule: the rule query, its resolution and the solution it adds |
| LogikekProcessor.Processor.constructor | Logikek/Processor.cs:13-15 | Nothing is loaded yet: the lists stand for null |
| LogikekProcessor.Processor.ResolveQuery | Logikek/Processor.cs:85-98 | True iff the query has no atoms and some fact has its name and argument list; the answer carries the query and no solutions |
| LogikekProcessor.Processor.Answers | Logikek/Processor.cs:66 | One answer per query, in order |
| LogikekProcessor.Processor.Run | Logikek/Processor.cs:17-69 | The lists are replaced by the loaded program's. The result is the errors if any, else one fact-lookup answer per query in source order |
| LogikekProcessor.Processor.EvaluateQuery | Logikek/Processor.cs:71-83 | A text that is not a query gives one error on line 0. A simple query before any `Run` throws `ArgumentNull`, since `Enumerable.Any` is given the null fact list. Any other query gives its fact-lookup answer |
| LogikekProcessor.ResolverAgreesWithoutRules | Logikek/Processor.cs:85-98 | Without rules, the resolver answers a new atom-free query exactly as the fact lookup, without a throw |
| LogikekProcessor.ResolverKeepsFactAnswers | Logikek/Parser.cs:123-131 | A query the fact lookup answers true is true for the resolver, whatever the rules |
| ResolutionProperties.DeductionNeedsMatchingRule | Logikek/Parser.cs:136-143 | Without a rule of the query's name and arity, deduction is undecided and leaves the cache |
| ResolutionProperties.InductionSkipsOrRule | Logikek/Parser.cs:200-201 | A rule with an OR operator is passed over by induction, whatever the cache |
| ResolutionProperties.InductionSkipsOrRules | Logikek/Parser.cs:200-201 | When every remaining rule has an OR operator, induction is undecided and leaves the cache |
| ResolutionProperties.InductionNeedsCandidate | Logikek/Parser.cs:196-203 | Without a candidate rule, induction is undecided and leaves the cache |
| ResolutionProperties.UnsupportedQueryIsFalse | Logikek/Parser.cs:302 | A new atom-free query with no fact, no matching rule and no candidate rule is false, without a throw |
| ResolutionProperties.AnswerOrder | Logikek/Parser.cs:133-302 | For an atom-free query: deduction's answer if it has one, else induction's, else false stored under the query; a throw in either step is the query's throw |
| ResolutionProperties.DeduceAnswers | Logikek/Parser.cs:145-190 | Deduction answers true only through a matching rule whose body folds to true, and false only through a matching rule whose fold is aborted; the stored answer follows that fold |
| ResolutionProperties.DeduceSkips | Logikek/Parser.cs:136-145 | Rules of another name or arity are passed over without touching the cache |
| ResolutionProperties.DeduceFirstMatchingRule | Logikek/Parser.cs:145-190 | The first matching rule decides by its fold: a throw, false if aborted, true if the fold is true, and otherwise deduction goes on with the next rule from the cache the fold left |
| ResolutionProperties.EvalBodyCached | Logikek/Parser.cs:158-165 | A condition query already cached aborts the fold while the query's own entry is the marker, and otherwise the fold goes on with the query's own result |
| ResolutionProperties.EvalBodyResolves | Logikek/Parser.cs:166-184 | A condition query not cached is resolved, and the fold goes on from the cache that leaves, or throws with it |
| ResolutionProperties.EvalBodyAborts | Logikek/Parser.cs:158-163 | A fold is aborted only when the query's own entry is the marker, both when the fold starts and in the cache it stops with, and the query of a condition from the current one on is in that cache |
| ResolutionProperties.InduceAnswers | Logikek/Parser.cs:196-236 | Induction answers only through a candidate rule: one with a condition of the query's relation and arity and no OR |
| ResolutionProperties.InduceSkips | Logikek/Parser.cs:196-201 | Rules that are not candidates are passed over without touching the cache |
| ResolutionProperties.InduceFirstCandidate | Logikek/Parser.cs:203-236 | The first candidate rule decides: its answer or throw is induction's, and if it is undecided induction goes on with the next rule from the cache it left |
| ResolutionProperties.InduceRuleSkips | Logikek/Parser.cs:205-210 | Conditions whose pattern does not match the query are passed over without touching the cache |
| ResolutionProperties.InduceRuleFirstMatchingCondition | Logikek/Parser.cs:205-233 | The first matching condition decides: a repeated atom throws, a head in progress answers false, a head result different from the negation flag answers true, and otherwise the rule goes on with the next condition; a cached head is not resolved again |
| ResolutionProperties.InduceRuleAnswers | Logikek/Parser.cs:205-233 | Induction over one rule answers true only through a matching condition whose head result differs from its negation flag, and false only through a matching condition whose head is still in progress |
| ResolutionProperties.FactSolutionsAppend | Logikek/Parser.cs:250-262 | The fact solutions of two lists of facts are those of the first followed by those of the second |
| ResolutionProperties.FactSolutionsSingle | Logikek/Parser.cs:244-262 | One fact gives one solution if it matches the query's pattern, and none otherwise |
| ResolutionProperties.HeldFromMatchingRule | Logikek/Parser.cs:279-296 | Every solution a rule can add binds the query's atoms to the arguments of the rule query of a rule of the query's name and arity |
| ResolutionProperties.RuleSolutionsExact | Logikek/Parser.cs:279-297 | Without a throw, rule enumeration appends exactly one solution for each matching rule whose rule query ends finished and true, in rule order, and nothing else |
| ResolutionProperties.FactsThenRules | Logikek/Parser.cs:240-299 | The answer is the fact solutions in fact order followed by exactly the solutions of the matching rules whose rule query holds, in rule order, in the cache the rule loop leaves; the answer is stored in that cache; every solution after the fact solutions comes from a matching rule |
| ResolutionProperties.SelfRuleAddsNothing | Logikek/Parser.cs:279-296 | A matching rule whose rule query is the query itself, still in progress, adds no solution and leaves the query's false cycle result in the cache |
| LogikekExamples.RuleAnswersAlone | Logikek/Parser.cs:143-189 | With `A(p)` and `R(X): A(X)`, the query `R(p)` asked alone is true |
| LogikekExamples.CachedConditionAbortsRule | Logikek/Parser.cs:158-163 | With the same program, `A(p)` then `R(p)` gives true then false: the cached condition aborts the rule |
| LogikekExamples.SelfReferenceIsFalse | Logikek/Parser.cs:158-163 | `R(X): R(X)` ends, and `R(p)` is false |
| LogikekExamples.InductionFromHead | Logikek/Parser.cs:196-233 | With `R(p)` and `R(X): A(X)`, the query `A(p)` is true by induction |
| LogikekExamples.SelfRuleQueryAddsNothing | Logikek/Parser.cs:240-299 | With `A(p)` and `R(X): A(X)`, the query `R(X)` is false with no solutions |
| LogikekExamples.FactsEnumerated | Logikek/Parser.cs:244-262 | `A(X)` over `A(p)` and `A(s)` gives the solutions `X=p` and `X=s`, in fact order |

## Left out

- The grammar productions are a parameter. Sprache's parsers are not part of this model, and neither are error message texts or Sprache's expectation lists; an error keeps only its kind, line and column.
- .NET `Dictionary` hashing and key order are not modelled. The cache is a map. A solution is a sequence of pairs in insertion order, which is the order `Stringify` reads.
- Structural equality of the data classes is assumed. The data classes are not part of this model; they are datatypes, compared by value.
- `Query.IsSimple` and `Query.HasAtoms` are not part of this model. `IsSimple` is read as "no argument is an atom", the meaning the comment at Logikek/Parser.cs:123 gives to `!query.HasAtoms`.
- Exceptions other than the duplicate key of `Dictionary.Add` and the null cache or fact list before the first `Run` are not modelled. Which of several `Add` calls throws is not distinguished: both are `DuplicateKey`.
- Resolution.Resolve: proved to terminate only for queries in a finite pool. The pool holds the program's names, its arguments and the maximal arity, and covers every query the resolver can reach from the program's queries. The measure is a proof device and changes no result.
- LogikekParser.Parser.ResolveQuery: the loops of the resolver are split into one method per loop body. Branches and order are those of the source; an early `return` in a body becomes an answer passed back to the loop.
- Loading.LineError: an error's message is not modelled. The column of a syntax error is the rule production's column, and that of a fact with atoms is the fact production's.
