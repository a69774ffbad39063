/** The resolving interpreter: a program's facts, queries and rules and the
    memo cache, with the imperative ResolveQuery proved to compute what
    module Resolution specifies. An exception is an outcome: `Dictionary.Add`
    on a key already present, or a member call on a list that is still null. */
module LogikekParser {
  import opened Clauses
  import opened Substitution
  import opened Combinator
  import opened Resolution
  import opened Loading

  /** The bindings of one solution: each atom of the query bound to the value
      at its position, added in position order. `Add` throws when an atom
      name repeats. */
  method CollectSolution(queryArgs: seq<Arg>, values: seq<Arg>) returns (s: Outcome<Solution>)
    requires |queryArgs| <= |values|
    ensures s.Failure? <==> !DistinctAtoms(queryArgs)
    ensures s.Failure? ==> s.error == DuplicateKey
    ensures s.Success? ==> s.value == SolutionOf(queryArgs, values)
  {
    var d: Solution := [];
    var i := 0;
    while i < |queryArgs|
      invariant 0 <= i <= |queryArgs|
      invariant DistinctAtoms(queryArgs[..i])
      invariant d == SolutionOf(queryArgs[..i], values)
    {
      var arg := queryArgs[i];
      assert queryArgs[..i + 1][..i] == queryArgs[..i];
      DistinctExtend(queryArgs, i);
      if arg.isAtom {
        SolutionKeyUsed(queryArgs, values, i);
        if exists p :: p in d && p.0 == arg.name {
          // Dictionary.Add with a key already present
          DistinctPrefix(queryArgs, i + 1);
          return Failure(DuplicateKey);
        }
        d := d + [(arg.name, values[i].name)];
      }
      i := i + 1;
    }
    assert queryArgs[..|queryArgs|] == queryArgs;
    return Success(d);
  }

  /** A negated condition flips the result and keeps query and solutions. */
  method ApplyNegation(queryResult: QueryResult, isNegated: bool) returns (r: QueryResult)
    ensures r == Negated(queryResult, isNegated)
  {
    r := queryResult;
    if isNegated {
      if r.solutions.Some? {
        r := QueryResult(!r.result, r.theQuery, r.solutions);
      } else {
        r := QueryResult(!r.result, r.theQuery, None);
      }
    }
  }

  /** The false answer for a query met again while it is being resolved:
      with an empty solution list iff it has atoms. */
  method CycleAnswer(q: Query) returns (r: QueryResult)
    ensures r == CycleResult(q)
  {
    if HasAtoms(q.args) {
      r := QueryResult(false, q, Some([]));
    } else {
      r := QueryResult(false, q, None);
    }
  }

  class Parser {
    /** False until the first Run: the source's lists and cache are null then. */
    var loaded: bool
    var facts: seq<Fact>
    var queries: seq<Query>
    var rules: seq<Rule>
    var cache: Cache

    /** The facts and rules the resolver reads. */
    ghost function Knowledge(): Kb
      reads this`facts, this`rules
    {
      Kb(facts, rules)
    }

    /** A cache whose entries fit the facts. */
    ghost predicate Valid()
      reads this
    {
      CacheOk(facts, cache)
    }

    /** The static fields before any Run: nothing is loaded. */
    constructor()
      ensures !loaded
      ensures facts == [] && queries == [] && rules == [] && cache == map[]
      ensures Valid()
    {
      loaded, facts, queries, rules, cache := false, [], [], [], map[];
    }

    /** Loads a text and resolves its queries in order over a fresh cache.
        The errors win if there are any, but only once every query is
        resolved: a duplicate key while resolving throws first. */
    method Run(code: string, g: Grammar) returns (res: Outcome<ProcessResult>)
      modifies this
      ensures loaded
      ensures facts == Load(Lines(code), g).facts
      ensures queries == Load(Lines(code), g).queries
      ensures rules == Load(Lines(code), g).rules
      ensures Valid()
      ensures cache == RunQueries(Knowledge(), queries).cache
      ensures RunQueries(Knowledge(), queries).BatchThrew? ==> res == Failure(DuplicateKey)
      ensures RunQueries(Knowledge(), queries).Batch? ==>
        res == Success(if Load(Lines(code), g).errors != [] then ErrorsResult(Load(Lines(code), g).errors)
                       else QueriesResult(RunQueries(Knowledge(), queries).results))
    {
      var program := LoadLines(code, g);
      res := Install(program);
    }

    /** Takes over the facts, queries and rules of a loaded program, empties
        the cache and resolves the queries; then the errors win if there are
        any. */
    method Install(program: Program) returns (res: Outcome<ProcessResult>)
      modifies this
      ensures loaded
      ensures facts == program.facts && queries == program.queries && rules == program.rules
      ensures Valid()
      ensures cache == RunQueries(Knowledge(), queries).cache
      ensures RunQueries(Knowledge(), queries).BatchThrew? ==> res == Failure(DuplicateKey)
      ensures RunQueries(Knowledge(), queries).Batch? ==>
        res == Success(if program.errors != [] then ErrorsResult(program.errors)
                       else QueriesResult(RunQueries(Knowledge(), queries).results))
    {
      loaded := true;
      cache := map[];
      facts := program.facts;
      queries := program.queries;
      rules := program.rules;
      var results :- ResolveLoaded();
      res := Success(if |program.errors| > 0 then ErrorsResult(program.errors) else QueriesResult(results));
    }

    /** Resolves every loaded query, in order, starting from an empty cache. */
    method ResolveLoaded() returns (results: Outcome<seq<QueryResult>>)
      requires cache == map[]
      modifies this`cache
      ensures Valid()
      ensures results == RunQueries(Knowledge(), queries).Value()
      ensures cache == RunQueries(Knowledge(), queries).cache
    {
      PoolOfCovers(rules, set q | q in queries);
      results := ResolveQueries(PoolOf(rules, set q | q in queries));
    }

    /** Resolves the loaded queries in order, sharing the cache; a throw ends
        the loop. */
    method ResolveQueries(ghost pool: Pool) returns (results: Outcome<seq<QueryResult>>)
      requires Ready(Knowledge(), pool, cache) && forall q :: q in queries ==> Askable(pool, q)
      modifies this`cache
      ensures results == ResolveAll(Knowledge(), pool, old(cache), queries).Value()
      ensures cache == ResolveAll(Knowledge(), pool, old(cache), queries).cache
    {
      ghost var kb := Knowledge();
      ghost var c0 := cache;
      var done: seq<QueryResult> := [];
      var k := 0;
      while k < |queries|
        invariant 0 <= k <= |queries| && kb == Knowledge()
        invariant Ready(kb, pool, cache)
        invariant ResolveAll(kb, pool, c0, queries[..k]) == Batch(done, cache)
      {
        BatchExtend(kb, pool, c0, queries, k);
        var r := ResolveQuery(pool, queries[k]);
        if r.Failure? {
          BatchThrewStays(kb, pool, c0, queries, k + 1);
          return Failure(r.error);
        }
        done := done + [r.value];
        k := k + 1;
      }
      assert queries[..|queries|] == queries;
      results := Success(done);
    }

    /** Resolves one more query against the loaded program, keeping the cache;
        a text that is not a query is an error on line 0. Before any Run the
        cache is null and a query throws. */
    method EvaluateQuery(code: string, g: Grammar) returns (res: Outcome<ProcessResult>)
      requires Valid()
      modifies this`cache
      ensures Valid()
      ensures g.query(Trim(code)).Failed? ==>
        res == Success(ErrorsResult([ParseError(SyntaxError, 0, g.query(Trim(code)).column)])) && cache == old(cache)
      ensures g.query(Trim(code)).Parsed? && !loaded ==> res == Failure(NullReference) && cache == old(cache)
      ensures g.query(Trim(code)).Parsed? && loaded ==>
        var out := Ask(Knowledge(), old(cache), g.query(Trim(code)).value);
        cache == out.cache && res == (if out.Resolved? then Success(QueriesResult([out.result])) else Failure(DuplicateKey))
    {
      var query := g.query(Trim(code));
      if query.Parsed? {
        if !loaded {
          // _cache.ContainsKey on a null dictionary
          return Failure(NullReference);
        }
        AskPool(rules, cache, query.value);
        var r :- ResolveQuery(PoolOf(rules, cache.Keys + {query.value}), query.value);
        res := Success(QueriesResult([r]));
      } else {
        res := Success(ErrorsResult([ParseError(SyntaxError, 0, query.column)]));
      }
    }

    method AddToCacheAndReturn(q: Query, result: QueryResult) returns (r: QueryResult)
      modifies this`cache
      ensures cache == old(cache)[q := Done(result)] && r == result
    {
      cache := cache[q := Done(result)];
      r := result;
    }

    /** ResolveQuery: answers a query from the cache, or marks it in progress
        and resolves it. */
    method ResolveQuery(ghost pool: Pool, q: Query) returns (r: Outcome<QueryResult>)
      requires Ready(Knowledge(), pool, cache) && Askable(pool, q)
      modifies this`cache
      ensures r == Resolve(Knowledge(), pool, old(cache), q).Value()
      ensures cache == Resolve(Knowledge(), pool, old(cache), q).cache
      decreases Measure(pool, cache), 1
    {
      if q in cache {
        var a := AnswerFromCache(pool, q);
        r := Success(a);
      } else {
        r := ResolveFresh(pool, q);
      }
    }

    /** A query not in the cache: marked in progress, then answered by a fact
        with the same name and arguments or resolved further. */
    method ResolveFresh(ghost pool: Pool, q: Query) returns (r: Outcome<QueryResult>)
      requires Ready(Knowledge(), pool, cache) && Askable(pool, q) && q !in cache
      modifies this`cache
      ensures r == Resolve(Knowledge(), pool, old(cache), q).Value()
      ensures cache == Resolve(Knowledge(), pool, old(cache), q).cache
      decreases Measure(pool, cache), 0
    {
      cache := cache[q := InProgress];
      MeasureDrops(pool, old(cache), cache, q);
      // 1: a fact with the same name and arguments
      if !HasAtoms(q.args) && FactHolds(facts, q) {
        var t := AddToCacheAndReturn(q, QueryResult(true, q, None));
        assert cache == old(cache)[q := Done(TrueResult(q))];
        return Success(t);
      }
      MarkReady(Knowledge(), pool, old(cache), q);
      r := ResolveMarked(pool, q);
    }

    /** A cached query: a finished entry is the answer; the marker means the
        query is met again while being resolved, and it is answered false. */
    method AnswerFromCache(ghost pool: Pool, q: Query) returns (r: QueryResult)
      requires Ready(Knowledge(), pool, cache) && Askable(pool, q) && q in cache
      modifies this`cache
      ensures Resolve(Knowledge(), pool, old(cache), q) == Resolved(r, cache)
    {
      if cache[q].InProgress? {
        var cycle := CycleAnswer(q);
        cache := cache[q := Done(cycle)];
      }
      r := cache[q].res;
    }

    /** The rest of ResolveQuery for a query just marked in progress that no
        fact answers: deduction, induction, else false; or solution mode. */
    method ResolveMarked(ghost pool: Pool, q: Query) returns (r: Outcome<QueryResult>)
      requires Ready(Knowledge(), pool, cache) && Askable(pool, q) && q in cache
      requires HasAtoms(q.args) || !FactHolds(facts, q)
      modifies this`cache
      ensures r == Answer(Knowledge(), pool, old(cache), q).Value()
      ensures cache == Answer(Knowledge(), pool, old(cache), q).cache
      decreases Measure(pool, cache), 6
    {
      if !HasAtoms(q.args) {
        // 2: deduction
        var answer :- TryDeduction(pool, q);
        if answer.Some? {
          return Success(answer.value);
        }
        // 3: induction
        MeasureMono(pool, old(cache), cache);
        answer :- TryInduction(pool, q);
        if answer.Some? {
          return Success(answer.value);
        }
        var f := AddToCacheAndReturn(q, QueryResult(false, q, None));
        r := Success(f);
      } else {
        r := EnumerateSolutions(pool, q);
      }
    }

    /** Deduction over the rules with the query's name and arity. */
    method TryDeduction(ghost pool: Pool, q: Query) returns (answer: Outcome<Option<QueryResult>>)
      requires Ready(Knowledge(), pool, cache) && Askable(pool, q)
      requires !HasAtoms(q.args) && !FactHolds(facts, q) && q in cache
      modifies this`cache
      ensures answer == Resolution.Deduce(Knowledge(), pool, old(cache), q, 0).Value()
      ensures cache == Resolution.Deduce(Knowledge(), pool, old(cache), q, 0).cache
      decreases Measure(pool, cache), 5
    {
      var i := 0;
      while i < |rules|
        invariant 0 <= i <= |rules|
        invariant Ready(Knowledge(), pool, cache) && q in cache
        invariant old(cache).Keys <= cache.Keys
        invariant Resolution.Deduce(Knowledge(), pool, old(cache), q, 0)
                  == Resolution.Deduce(Knowledge(), pool, cache, q, i)
      {
        MeasureMono(pool, old(cache), cache);
        answer := DeduceWithRule(pool, q, i);
        if answer != Success(None) {
          return;
        }
        i := i + 1;
      }
      answer := Success(None);
    }

    /** Deduction with rule i: when it has the query's name and arity, its body
        is evaluated; an aborted fold answers false, a true fold answers true. */
    method DeduceWithRule(ghost pool: Pool, q: Query, i: nat) returns (answer: Outcome<Option<QueryResult>>)
      requires Ready(Knowledge(), pool, cache) && Askable(pool, q)
      requires !HasAtoms(q.args) && !FactHolds(facts, q) && q in cache && i < |rules|
      modifies this`cache
      ensures Ready(Knowledge(), pool, cache) && q in cache && old(cache).Keys <= cache.Keys
      ensures answer != Success(None) ==>
        answer == Resolution.Deduce(Knowledge(), pool, old(cache), q, i).Value()
        && cache == Resolution.Deduce(Knowledge(), pool, old(cache), q, i).cache
      ensures answer == Success(None) ==>
        Resolution.Deduce(Knowledge(), pool, old(cache), q, i) == Resolution.Deduce(Knowledge(), pool, cache, q, i + 1)
      decreases Measure(pool, cache), 4
    {
      answer := Success(None);
      var rule := rules[i];
      if rule.name == q.name && |rule.args| == |q.args| {
        var aborted, finalResult :- EvaluateRuleBody(pool, q, rule);
        if aborted {
          var r := AddToCacheAndReturn(q, QueryResult(false, q, None));
          return Success(Some(r));
        }
        if finalResult.Some? && finalResult.value.result {
          var r := AddToCacheAndReturn(q, QueryResult(finalResult.value.result, q, None));
          return Success(Some(r));
        }
      }
    }

    /** The left-to-right fold of one rule body under the query's bindings:
        whether it was aborted, and the folded result. */
    method EvaluateRuleBody(ghost pool: Pool, q: Query, rule: Rule) returns (aborted: Outcome<bool>, finalResult: Option<QueryResult>)
      requires Ready(Knowledge(), pool, cache) && Askable(pool, q) && !HasAtoms(q.args)
      requires q in cache && rule in rules && RuleMatches(rule, q)
      modifies this`cache
      ensures var out := EvalBody(Knowledge(), pool, old(cache), q, rule, 0, None);
        && cache == out.cache
        && aborted == (if out.FoldThrew? then Failure(DuplicateKey) else Success(out.Aborted?))
        && (out.Folded? ==> finalResult == out.acc)
      decreases Measure(pool, cache), 3
    {
      finalResult := None;
      var j := 0;
      while j < |rule.conditions|
        invariant 0 <= j <= |rule.conditions|
        invariant Ready(Knowledge(), pool, cache) && q in cache
        invariant old(cache).Keys <= cache.Keys
        invariant EvalBody(Knowledge(), pool, old(cache), q, rule, 0, None)
                  == EvalBody(Knowledge(), pool, cache, q, rule, j, finalResult)
      {
        MeasureMono(pool, old(cache), cache);
        var stop, next :- EvaluateCondition(pool, q, rule, j, finalResult);
        if stop {
          return Success(true), finalResult;
        }
        finalResult := next;
        j := j + 1;
      }
      aborted := Success(false);
    }

    /** One condition of a rule body: its query under the bindings, answered
        from the cache (or aborting while the query itself is in progress) or
        resolved, then negated if needed and folded into `acc`. */
    method EvaluateCondition(ghost pool: Pool, q: Query, rule: Rule, j: nat, acc: Option<QueryResult>)
      returns (aborted: Outcome<bool>, next: Option<QueryResult>)
      requires Ready(Knowledge(), pool, cache) && Askable(pool, q) && !HasAtoms(q.args)
      requires q in cache && rule in rules && RuleMatches(rule, q) && j < |rule.conditions|
      modifies this`cache
      ensures Ready(Knowledge(), pool, cache) && q in cache && old(cache).Keys <= cache.Keys
      ensures aborted.Failure? ==>
        aborted.error == DuplicateKey && EvalBody(Knowledge(), pool, old(cache), q, rule, j, acc) == FoldThrew(cache)
      ensures aborted == Success(true) ==> EvalBody(Knowledge(), pool, old(cache), q, rule, j, acc) == Aborted(cache)
      ensures aborted == Success(false) ==>
        EvalBody(Knowledge(), pool, old(cache), q, rule, j, acc) == EvalBody(Knowledge(), pool, cache, q, rule, j + 1, next)
      decreases Measure(pool, cache), 2
    {
      next := acc;
      var condition := rule.conditions[j];
      var conditionArgs :- ReplaceAtomsWithNames(rule.args, q.args, condition.condition.args);
      var conditionQuery := Query(condition.condition.name, conditionArgs);
      var queryResult;
      if conditionQuery in cache {
        if cache[q].InProgress? {
          return Success(true), acc;
        }
        queryResult := cache[q].res;
      } else {
        ConditionQueryAskable(Knowledge(), pool, q, rule, condition);
        queryResult :- ResolveQuery(pool, conditionQuery);
      }
      queryResult := ApplyNegation(queryResult, condition.condition.isNegated);
      next := Some(ApplyLogicalOperator(acc, condition.op, queryResult));
      aborted := Success(false);
    }

    /** Induction over the rules that use the query's relation as a condition
        and have no OR. */
    method TryInduction(ghost pool: Pool, q: Query) returns (answer: Outcome<Option<QueryResult>>)
      requires Ready(Knowledge(), pool, cache) && Askable(pool, q)
      requires !HasAtoms(q.args) && !FactHolds(facts, q) && q in cache
      modifies this`cache
      ensures answer == Induce(Knowledge(), pool, old(cache), q, 0).Value()
      ensures cache == Induce(Knowledge(), pool, old(cache), q, 0).cache
      decreases Measure(pool, cache), 5
    {
      var i := 0;
      while i < |rules|
        invariant 0 <= i <= |rules|
        invariant Ready(Knowledge(), pool, cache) && q in cache
        invariant old(cache).Keys <= cache.Keys
        invariant Induce(Knowledge(), pool, old(cache), q, 0) == Induce(Knowledge(), pool, cache, q, i)
      {
        MeasureMono(pool, old(cache), cache);
        answer := InduceWithRule(pool, q, i);
        if answer != Success(None) {
          return;
        }
        i := i + 1;
      }
      answer := Success(None);
    }

    /** Induction with rule i when it is a candidate. */
    method InduceWithRule(ghost pool: Pool, q: Query, i: nat) returns (answer: Outcome<Option<QueryResult>>)
      requires Ready(Knowledge(), pool, cache) && Askable(pool, q)
      requires !HasAtoms(q.args) && !FactHolds(facts, q) && q in cache && i < |rules|
      modifies this`cache
      ensures Ready(Knowledge(), pool, cache) && q in cache && old(cache).Keys <= cache.Keys
      ensures answer != Success(None) ==>
        answer == Induce(Knowledge(), pool, old(cache), q, i).Value()
        && cache == Induce(Knowledge(), pool, old(cache), q, i).cache
      ensures answer == Success(None) ==>
        Induce(Knowledge(), pool, old(cache), q, i) == Induce(Knowledge(), pool, cache, q, i + 1)
      decreases Measure(pool, cache), 4
    {
      answer := Success(None);
      if InductionCandidate(rules[i], q) {
        answer := InduceFromRule(pool, q, rules[i]);
      }
    }

    /** One candidate rule: each condition that matches the query proposes the
        rule's head with the condition's atoms bound. */
    method InduceFromRule(ghost pool: Pool, q: Query, rule: Rule) returns (answer: Outcome<Option<QueryResult>>)
      requires Ready(Knowledge(), pool, cache) && Askable(pool, q)
      requires !HasAtoms(q.args) && !FactHolds(facts, q) && q in cache && rule in rules
      modifies this`cache
      ensures answer == InduceRule(Knowledge(), pool, old(cache), q, rule, 0).Value()
      ensures cache == InduceRule(Knowledge(), pool, old(cache), q, rule, 0).cache
      decreases Measure(pool, cache), 3
    {
      var j := 0;
      while j < |rule.conditions|
        invariant 0 <= j <= |rule.conditions|
        invariant Ready(Knowledge(), pool, cache) && q in cache
        invariant old(cache).Keys <= cache.Keys
        invariant InduceRule(Knowledge(), pool, old(cache), q, rule, 0)
                  == InduceRule(Knowledge(), pool, cache, q, rule, j)
      {
        MeasureMono(pool, old(cache), cache);
        answer := InduceWithCondition(pool, q, rule, j);
        if answer != Success(None) {
          return;
        }
        j := j + 1;
      }
      answer := Success(None);
    }

    /** Condition j of a candidate rule: when it matches the query, the head
        query is taken from the cache (a marker answers false) or resolved; an
        outcome that agrees with the condition's polarity answers true. */
    method InduceWithCondition(ghost pool: Pool, q: Query, rule: Rule, j: nat) returns (answer: Outcome<Option<QueryResult>>)
      requires Ready(Knowledge(), pool, cache) && Askable(pool, q)
      requires !HasAtoms(q.args) && !FactHolds(facts, q) && q in cache && rule in rules
      requires j < |rule.conditions|
      modifies this`cache
      ensures Ready(Knowledge(), pool, cache) && q in cache && old(cache).Keys <= cache.Keys
      ensures answer != Success(None) ==>
        answer == InduceRule(Knowledge(), pool, old(cache), q, rule, j).Value()
        && cache == InduceRule(Knowledge(), pool, old(cache), q, rule, j).cache
      ensures answer == Success(None) ==>
        InduceRule(Knowledge(), pool, old(cache), q, rule, j) == InduceRule(Knowledge(), pool, cache, q, rule, j + 1)
      decreases Measure(pool, cache), 2
    {
      var condition := rule.conditions[j];
      answer := Success(None);
      if condition.condition.name == q.name && |condition.condition.args| == |q.args| {
        if CompareArgumentsIgnoringAtoms(condition.condition.args, q.args) {
          var headArgs :- ReplaceAtomsWithNames(condition.condition.args, q.args, rule.args);
          var nextQuery := Query(rule.name, headArgs);
          var result;
          if nextQuery in cache {
            if cache[nextQuery].InProgress? {
              var r := AddToCacheAndReturn(q, QueryResult(false, q, None));
              return Success(Some(r));
            }
            result := cache[nextQuery].res;
          } else {
            HeadQueryAskable(Knowledge(), pool, q, rule, condition);
            result :- ResolveQuery(pool, nextQuery);
          }
          if result.result != condition.condition.isNegated {
            var r := AddToCacheAndReturn(q, QueryResult(true, q, None));
            return Success(Some(r));
          }
        }
      }
    }

    /** Solution mode: the fact solutions in fact order, then one solution per
        matching rule whose rule query holds, in rule order; true iff any. */
    method EnumerateSolutions(ghost pool: Pool, q: Query) returns (r: Outcome<QueryResult>)
      requires Ready(Knowledge(), pool, cache) && Askable(pool, q) && HasAtoms(q.args) && q in cache
      modifies this`cache
      ensures r == Enumerate(Knowledge(), pool, old(cache), q).Value()
      ensures cache == Enumerate(Knowledge(), pool, old(cache), q).cache
      decreases Measure(pool, cache), 4
    {
      var solutions :- FactSolutionsOf(q);
      solutions :- RuleSolutionsOf(pool, q, solutions);
      var res := AddToCacheAndReturn(q, QueryResult(|solutions| > 0, q, Some(solutions)));
      r := Success(res);
    }

    /** Step 1 of solution mode: the facts of the query's name and arity whose
        constants agree with the query, in fact order. The first of them
        throws when the query repeats an atom name. */
    method FactSolutionsOf(q: Query) returns (solutions: Outcome<seq<Solution>>)
      ensures solutions.Failure? <==> !DistinctAtoms(q.args) && FactSolutions(facts, q) != []
      ensures solutions.Failure? ==> solutions.error == DuplicateKey
      ensures solutions.Success? ==> solutions.value == FactSolutions(facts, q)
    {
      var found: seq<Solution> := [];
      var k := 0;
      while k < |facts|
        invariant 0 <= k <= |facts|
        invariant found == FactSolutions(facts[..k], q)
        invariant !DistinctAtoms(q.args) ==> found == []
      {
        var fact := facts[k];
        assert facts[..k + 1][..k] == facts[..k];
        if fact.name == q.name && |fact.args| == |q.args| && CompareArgumentsIgnoringAtoms(q.args, fact.args) {
          var s := CollectSolution(q.args, fact.args);
          if s.Failure? {
            FactSolutionsFrom(facts, q, SolutionOf(q.args, fact.args));
            return Failure(s.error);
          }
          found := found + [s.value];
        }
        k := k + 1;
      }
      assert facts[..|facts|] == facts;
      solutions := Success(found);
    }

    /** Step 2 of solution mode: each rule of the query's name and arity adds a
        solution when its rule query holds. */
    method RuleSolutionsOf(ghost pool: Pool, q: Query, fromFacts: seq<Solution>) returns (solutions: Outcome<seq<Solution>>)
      requires Ready(Knowledge(), pool, cache) && Askable(pool, q) && HasAtoms(q.args) && q in cache
      modifies this`cache
      ensures solutions == RuleSolutions(Knowledge(), pool, old(cache), q, 0, fromFacts).Value()
      ensures cache == RuleSolutions(Knowledge(), pool, old(cache), q, 0, fromFacts).cache
      decreases Measure(pool, cache), 3
    {
      var found := fromFacts;
      var i := 0;
      while i < |rules|
        invariant 0 <= i <= |rules|
        invariant Ready(Knowledge(), pool, cache) && q in cache
        invariant old(cache).Keys <= cache.Keys
        invariant RuleSolutions(Knowledge(), pool, old(cache), q, 0, fromFacts)
                  == RuleSolutions(Knowledge(), pool, cache, q, i, found)
      {
        MeasureMono(pool, old(cache), cache);
        found :- SolutionFromRule(pool, q, i, found);
        i := i + 1;
      }
      solutions := Success(found);
    }

    /** Rule i in solution mode: with the query's name and arity, the rule
        query (its head under the query's bindings) is resolved, and when it
        holds one solution is appended. */
    method SolutionFromRule(ghost pool: Pool, q: Query, i: nat, acc: seq<Solution>) returns (solutions: Outcome<seq<Solution>>)
      requires Ready(Knowledge(), pool, cache) && Askable(pool, q) && HasAtoms(q.args) && q in cache
      requires i < |rules|
      modifies this`cache
      ensures Ready(Knowledge(), pool, cache) && q in cache && old(cache).Keys <= cache.Keys
      ensures solutions.Failure? ==>
        solutions.error == DuplicateKey && RuleSolutions(Knowledge(), pool, old(cache), q, i, acc) == FoundThrew(cache)
      ensures solutions.Success? ==>
        RuleSolutions(Knowledge(), pool, old(cache), q, i, acc) == RuleSolutions(Knowledge(), pool, cache, q, i + 1, solutions.value)
      decreases Measure(pool, cache), 2
    {
      var found := acc;
      var rule := rules[i];
      if rule.name == q.name && |rule.args| == |q.args| {
        var ruleArgs :- ReplaceAtomsWithNames(rule.args, q.args, rule.args);
        var ruleQuery := Query(rule.name, ruleArgs);
        RuleQueryAskable(Knowledge(), pool, q, rule);
        var queryResult :- ResolveQuery(pool, ruleQuery);
        if queryResult.result {
          var s :- CollectSolution(q.args, ruleQuery.args);
          found := found + [s];
        }
      }
      solutions := Success(found);
    }
  }
}
