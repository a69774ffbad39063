/** The query-resolution engine as state-passing functions over an explicit
    memo cache. Each function returns the result and the cache after the call;
    the imperative engine in module LogikekParser is proved to compute exactly
    these values. */
module Resolution {
  import opened ConditionOperators
  import opened Clauses
  import opened Substitution
  import opened Combinator

  /** A cache entry: the in-progress marker (null in the source) or a result. */
  datatype Entry = InProgress | Done(res: QueryResult)

  type Cache = map<Query, Entry>

  /** The loaded program the resolver reads. */
  datatype Kb = Kb(facts: seq<Fact>, rules: seq<Rule>)

  /** What a call returns: its result and the cache afterwards, or the cache
      as it was when `Dictionary.Add` threw on a duplicate key. */
  datatype Resolved = Resolved(result: QueryResult, cache: Cache) | Threw(cache: Cache) {
    /** The result as the caller sees it. */
    function Value(): Outcome<QueryResult> {
      if Resolved? then Success(result) else Failure(DuplicateKey)
    }
  }

  /** A strategy either answers the query (having stored the answer), leaves
      it to the next strategy, or throws. */
  datatype Step = Answered(result: QueryResult, cache: Cache) | Undecided(cache: Cache) | StepThrew(cache: Cache) {
    /** The answer as the caller sees it, None when undecided. */
    function Value(): Outcome<Option<QueryResult>> {
      match this
      case Answered(r, _) => Success(Some(r))
      case Undecided(_) => Success(None)
      case StepThrew(_) => Failure(DuplicateKey)
    }
  }

  /** Folding a rule body either runs to the end, is cut short by the
      re-entrancy guard, or throws. */
  datatype Fold = Aborted(cache: Cache) | Folded(acc: Option<QueryResult>, cache: Cache) | FoldThrew(cache: Cache)

  /** Solutions collected so far, or a throw. */
  datatype Found = Found(solutions: seq<Solution>, cache: Cache) | FoundThrew(cache: Cache) {
    /** The solutions as the caller sees them. */
    function Value(): Outcome<seq<Solution>> {
      if Found? then Success(solutions) else Failure(DuplicateKey)
    }
  }

  // ----- The finite universe of queries that bounds the recursion -----

  /** Argument values, relation names and the largest arity that may occur. */
  datatype Pool = Pool(args: set<Arg>, names: set<string>, arity: nat, universe: set<Query>)

  ghost predicate Within(pool: Pool, q: Query) {
    q.name in pool.names && |q.args| <= pool.arity && forall a :: a in q.args ==> a in pool.args
  }

  /** Every rule head and every condition lies within the pool. */
  ghost predicate Covers(pool: Pool, rules: seq<Rule>) {
    forall r :: r in rules ==>
      && Within(pool, Query(r.name, r.args))
      && forall rc :: rc in r.conditions ==> Within(pool, Query(rc.condition.name, rc.condition.args))
  }

  /** All argument lists of length at most n over the given values. */
  ghost function ArgLists(args: set<Arg>, n: nat): set<seq<Arg>> {
    if n == 0 then {[]}
    else ArgLists(args, n - 1) + set a, t | a in args && t in ArgLists(args, n - 1) :: [a] + t
  }

  lemma {:induction false} InArgLists(args: set<Arg>, n: nat, t: seq<Arg>)
    requires |t| <= n && forall a :: a in t ==> a in args
    ensures t in ArgLists(args, n)
  {
    if n > 0 {
      if |t| < n {
        InArgLists(args, n - 1, t);
      } else {
        InArgLists(args, n - 1, t[1..]);
        assert t == [t[0]] + t[1..];
      }
    }
  }

  /** Every query over the given names and values, up to the given arity. */
  ghost function Universe(args: set<Arg>, names: set<string>, arity: nat): set<Query> {
    set n, t | n in names && t in ArgLists(args, arity) :: Query(n, t)
  }

  lemma WithinUniverse(pool: Pool, q: Query)
    requires Within(pool, q)
    ensures q in Universe(pool.args, pool.names, pool.arity)
  {
    InArgLists(pool.args, pool.arity, q.args);
    assert Query(q.name, q.args) == q;
  }

  /** The pool's universe holds every query within the pool. */
  ghost predicate Closed(pool: Pool) {
    forall q {:trigger Within(pool, q)} :: Within(pool, q) ==> q in pool.universe
  }

  /** The cache holds only queries of the pool's universe. */
  ghost predicate Bounded(pool: Pool, c: Cache) {
    c.Keys <= pool.universe
  }

  /** The number of queries of the universe not yet in a bounded cache. */
  ghost function Measure(pool: Pool, c: Cache): nat {
    if |c.Keys| <= |pool.universe| then |pool.universe| - |c.Keys| else 0
  }

  lemma SubsetCard<T>(a: set<T>, b: set<T>)
    requires a <= b
    ensures |a| <= |b|
    ensures a != b ==> |a| < |b|
  {
    assert b == a + (b - a);
    if a != b {
      var x :| x in b - a;
    }
  }

  /** A growing cache never raises the measure. */
  lemma MeasureMono(pool: Pool, c: Cache, c2: Cache)
    requires c.Keys <= c2.Keys && Bounded(pool, c2)
    ensures Measure(pool, c2) <= Measure(pool, c)
  {
    SubsetCard(c.Keys, c2.Keys);
    SubsetCard(c2.Keys, pool.universe);
  }

  /** Adding a query of the universe lowers it. */
  lemma MeasureDrops(pool: Pool, c: Cache, c2: Cache, q: Query)
    requires Closed(pool) && Bounded(pool, c) && Within(pool, q) && q !in c && c2.Keys == c.Keys + {q}
    ensures Bounded(pool, c2) && Measure(pool, c2) < Measure(pool, c)
  {
    SubsetCard(c.Keys, c2.Keys);
    SubsetCard(c2.Keys, pool.universe);
  }

  // ----- Well-formedness and the invariants of the cache -----

  /** No rule head or condition repeats an atom name: the programs whose
      resolution never makes `Dictionary.Add` throw. */
  ghost predicate WfRules(rules: seq<Rule>) {
    forall r :: r in rules ==>
      && DistinctAtoms(r.args)
      && forall rc :: rc in r.conditions ==> DistinctAtoms(rc.condition.args)
  }

  /** What every result the resolver stores satisfies. */
  ghost predicate ResultFits(facts: seq<Fact>, q: Query, r: QueryResult) {
    && r.theQuery == q
    && (r.solutions.Some? <==> HasAtoms(q.args))
    && (r.solutions.Some? ==> (r.result <==> |r.solutions.value| > 0))
    && (!HasAtoms(q.args) && FactHolds(facts, q) ==> r.result)
  }

  /** Finished entries fit their key; a marker never stands for a query that a
      fact answers, since that query is answered before any recursion. */
  ghost predicate CacheOk(facts: seq<Fact>, c: Cache) {
    forall k :: k in c ==>
      if c[k].Done? then ResultFits(facts, k, c[k].res) else HasAtoms(k.args) || !FactHolds(facts, k)
  }

  /** The cache only grows and finished entries keep their result. */
  ghost predicate Grows(c: Cache, c2: Cache) {
    && c.Keys <= c2.Keys
    && (forall k :: k in c && c[k].Done? ==> c2[k] == c[k])
  }

  /** The cache grows, and no marker is left behind that was not there
      before. */
  ghost predicate Stable(c: Cache, c2: Cache) {
    && Grows(c, c2)
    && (forall k :: k in c2 && c2[k].InProgress? ==> k in c && c[k].InProgress?)
  }

  /** Stable, except that the entry of `q`, whose own call is still running,
      may be overwritten. */
  ghost predicate StableExcept(c: Cache, c2: Cache, q: Query) {
    && c.Keys <= c2.Keys
    && (forall k :: k in c && k != q && c[k].Done? ==> c2[k] == c[k])
    && (forall k :: k in c2 && c2[k].InProgress? ==> k in c && c[k].InProgress?)
  }

  ghost predicate Ready(kb: Kb, pool: Pool, c: Cache) {
    Closed(pool) && Covers(pool, kb.rules) && CacheOk(kb.facts, c) && Bounded(pool, c)
  }

  /** A query the resolver may be asked: one within the pool. */
  ghost predicate Askable(pool: Pool, q: Query) {
    Within(pool, q)
  }

  // ----- The pieces the engine shares with its imperative form -----

  /** The answer for a query met again while its own resolution is running. */
  function CycleResult(q: Query): (r: QueryResult)
    ensures !r.result && r.theQuery == q
    ensures r.solutions.Some? <==> HasAtoms(q.args)
    ensures r.solutions.Some? ==> r.solutions.value == []
  {
    if HasAtoms(q.args) then QueryResult(false, q, Some([])) else FalseResult(q)
  }

  predicate RuleMatches(rule: Rule, q: Query) {
    rule.name == q.name && |rule.args| == |q.args|
  }

  predicate ConditionMatches(cond: Condition, q: Query) {
    cond.name == q.name && |cond.args| == |q.args|
  }

  /** Rules searched by induction: some condition names the query's relation
      with its arity, and no condition is joined by OR. */
  predicate InductionCandidate(rule: Rule, q: Query) {
    && (exists rc :: rc in rule.conditions && ConditionMatches(rc.condition, q))
    && forall rc :: rc in rule.conditions ==> rc.op != Some(Or)
  }

  /** A fact of the query's relation and arity whose constants agree with the
      query's constants. */
  predicate FactMatchesPattern(f: Fact, q: Query) {
    f.name == q.name && |f.args| == |q.args| && CompareArgumentsIgnoringAtoms(q.args, f.args)
  }

  /** Flips the truth value of a negated condition, keeping its solutions. */
  function Negated(v: QueryResult, negate: bool): (r: QueryResult)
    ensures r.result == (v.result != negate)
    ensures r.theQuery == v.theQuery && r.solutions == v.solutions
  {
    if negate then QueryResult(!v.result, v.theQuery, v.solutions) else v
  }

  /** The solutions contributed by the facts, in fact order. */
  function FactSolutions(facts: seq<Fact>, q: Query): (sols: seq<Solution>)
    ensures |sols| <= |facts|
    decreases |facts|
  {
    if facts == [] then []
    else
      var last := |facts| - 1;
      FactSolutions(facts[..last], q)
        + if FactMatchesPattern(facts[last], q) then [SolutionOf(q.args, facts[last].args)] else []
  }

  /** Each fact solution comes from one matching fact, and every matching
      fact gives one. */
  lemma {:induction false} FactSolutionsFrom(facts: seq<Fact>, q: Query, s: Solution)
    ensures s in FactSolutions(facts, q) <==>
      exists i :: 0 <= i < |facts| && FactMatchesPattern(facts[i], q) && s == SolutionOf(q.args, facts[i].args)
    decreases |facts|
  {
    if facts != [] {
      var last := |facts| - 1;
      FactSolutionsFrom(facts[..last], q, s);
      assert forall i :: 0 <= i < last ==> facts[..last][i] == facts[i];
    }
  }

  // ----- The resolver -----

  /** Storing the running query's own answer keeps StableExcept. */
  lemma StableExceptStore(c: Cache, c2: Cache, q: Query, r: QueryResult)
    requires StableExcept(c, c2, q)
    ensures StableExcept(c, c2[q := Done(r)], q)
  {
  }

  /** Marking a fresh query, running its resolution and storing its answer
      leaves the rest of the cache stable. */
  lemma StableAfterFresh(c: Cache, c2: Cache, q: Query, r: QueryResult)
    requires q !in c && StableExcept(c[q := InProgress], c2, q) && q in c2 && c2[q] == Done(r)
    ensures Stable(c, c2)
  {
    forall k | k in c2 && c2[k].InProgress? ensures k in c && c[k].InProgress? {
      assert k != q;
    }
  }

  /** Storing a fitting result keeps the cache invariant. */
  lemma CacheOkStore(facts: seq<Fact>, c: Cache, q: Query, r: QueryResult)
    requires CacheOk(facts, c) && ResultFits(facts, q, r)
    ensures CacheOk(facts, c[q := Done(r)])
  {
  }

  /** Storing a fitting result for a cached query or a query of the pool
      keeps the resolver ready. */
  lemma StoreReady(kb: Kb, pool: Pool, c: Cache, q: Query, r: QueryResult)
    requires Ready(kb, pool, c) && (q in c || Within(pool, q)) && ResultFits(kb.facts, q, r)
    ensures Ready(kb, pool, c[q := Done(r)])
  {
    CacheOkStore(kb.facts, c, q, r);
    assert c[q := Done(r)].Keys == c.Keys + {q};
  }

  /** Marking a query of the pool that no fact answers keeps the resolver
      ready and lowers the measure. */
  lemma MarkReady(kb: Kb, pool: Pool, c: Cache, q: Query)
    requires Ready(kb, pool, c) && Askable(pool, q) && q !in c
    requires HasAtoms(q.args) || !FactHolds(kb.facts, q)
    ensures Ready(kb, pool, c[q := InProgress]) && q in c[q := InProgress]
    ensures Measure(pool, c[q := InProgress]) < Measure(pool, c)
  {
    MeasureDrops(pool, c, c[q := InProgress], q);
  }

  /** Storing the running query's answer after a stable change keeps the
      resolver ready and the change stable except for that query. */
  lemma AnswerStored(kb: Kb, pool: Pool, c: Cache, c1: Cache, q: Query, r: QueryResult)
    requires Ready(kb, pool, c1) && q in c && Stable(c, c1) && ResultFits(kb.facts, q, r)
    ensures Ready(kb, pool, c1[q := Done(r)]) && c.Keys <= c1[q := Done(r)].Keys
    ensures StableExcept(c, c1[q := Done(r)], q)
  {
    StoreReady(kb, pool, c1, q, r);
  }

  lemma StableTrans(c1: Cache, c2: Cache, c3: Cache)
    requires Stable(c1, c2) && Stable(c2, c3)
    ensures Stable(c1, c3)
  {
  }

  lemma StableExceptTrans(c1: Cache, c2: Cache, c3: Cache, q: Query)
    requires Stable(c1, c2) && StableExcept(c2, c3, q)
    ensures StableExcept(c1, c3, q)
  {
  }

  /** Storing a result for a query not yet cached is a stable change. */
  lemma StableStoreFresh(c: Cache, q: Query, r: QueryResult)
    requires q !in c
    ensures Stable(c, c[q := Done(r)])
  {
  }

  /** Replacing a marker by a result is a stable change. */
  lemma StableFinish(c: Cache, q: Query, r: QueryResult)
    requires q in c && c[q].InProgress?
    ensures Stable(c, c[q := Done(r)])
  {
  }

  /** ResolveQuery: a cache hit returns the stored result (a marker becomes a
      false result first); any other query is resolved by Fresh. */
  ghost function Resolve(kb: Kb, pool: Pool, c: Cache, q: Query): (out: Resolved)
    requires Ready(kb, pool, c) && Askable(pool, q)
    ensures Ready(kb, pool, out.cache) && c.Keys <= out.cache.Keys
    ensures out.Resolved? ==> Stable(c, out.cache) && q in out.cache && out.cache[q] == Done(out.result)
    ensures out.Resolved? ==> ResultFits(kb.facts, q, out.result)
    ensures q in c && c[q].Done? ==> out == Resolved(c[q].res, c)
    ensures q in c && c[q].InProgress? ==> out == Resolved(CycleResult(q), c[q := Done(CycleResult(q))])
    ensures q !in c ==> out == Fresh(kb, pool, c, q)
    ensures WfRules(kb.rules) && DistinctAtoms(q.args) ==> out.Resolved?
    decreases Measure(pool, c), 1, 0
  {
    if q in c then
      if c[q].InProgress? then
        StoreReady(kb, pool, c, q, CycleResult(q));
        StableFinish(c, q, CycleResult(q));
        Resolved(CycleResult(q), c[q := Done(CycleResult(q))])
      else Resolved(c[q].res, c)
    else Fresh(kb, pool, c, q)
  }

  /** A query not in the cache: a query without atoms that is a fact is true;
      otherwise the query is marked in progress and answered by Answer. */
  ghost function Fresh(kb: Kb, pool: Pool, c: Cache, q: Query): (out: Resolved)
    requires Ready(kb, pool, c) && Askable(pool, q) && q !in c
    ensures Ready(kb, pool, out.cache) && c.Keys + {q} <= out.cache.Keys
    ensures out.Resolved? ==> Stable(c, out.cache) && out.cache[q] == Done(out.result)
    ensures out.Resolved? ==> ResultFits(kb.facts, q, out.result)
    ensures out.Resolved? && HasAtoms(q.args) ==> FactSolutions(kb.facts, q) <= out.result.solutions.value
    ensures WfRules(kb.rules) && DistinctAtoms(q.args) ==> out.Resolved?
    decreases Measure(pool, c), 0, 0
  {
    if !HasAtoms(q.args) && FactHolds(kb.facts, q) then
      // the marker set first is overwritten at once
      StoreReady(kb, pool, c, q, TrueResult(q));
      StableStoreFresh(c, q, TrueResult(q));
      Resolved(TrueResult(q), c[q := Done(TrueResult(q))])
    else
      var c1 := c[q := InProgress];
      MarkReady(kb, pool, c, q);
      var out := Answer(kb, pool, c1, q);
      if out.Threw? then out
      else
        StableAfterFresh(c, out.cache, q, out.result);
        out
  }

  /** A query just marked in progress that no fact answers. Without atoms:
      deduction, then induction, else false. With atoms: solution mode. */
  ghost function Answer(kb: Kb, pool: Pool, c: Cache, q: Query): (out: Resolved)
    requires Ready(kb, pool, c) && Askable(pool, q) && q in c
    requires HasAtoms(q.args) || !FactHolds(kb.facts, q)
    ensures Ready(kb, pool, out.cache) && c.Keys <= out.cache.Keys
    ensures out.Resolved? ==> StableExcept(c, out.cache, q) && out.cache[q] == Done(out.result)
    ensures out.Resolved? ==> ResultFits(kb.facts, q, out.result)
    ensures out.Resolved? && HasAtoms(q.args) ==> FactSolutions(kb.facts, q) <= out.result.solutions.value
    ensures WfRules(kb.rules) && DistinctAtoms(q.args) ==> out.Resolved?
    decreases Measure(pool, c), 4, 0
  {
    if !HasAtoms(q.args) then
      match Deduce(kb, pool, c, q, 0)
      case StepThrew(c2) => Threw(c2)
      case Answered(r, c2) => Resolved(r, c2)
      case Undecided(c2) =>
        MeasureMono(pool, c, c2);
        match Induce(kb, pool, c2, q, 0)
        case StepThrew(c3) => Threw(c3)
        case Answered(r, c3) => Resolved(r, c3)
        case Undecided(c3) =>
          StoreReady(kb, pool, c3, q, FalseResult(q));
          StableExceptStore(c, c3, q, FalseResult(q));
          Resolved(FalseResult(q), c3[q := Done(FalseResult(q))])
    else
      Enumerate(kb, pool, c, q)
  }

  /** Deduction: the rules of the query's name and arity, in order; the first
      whose body folds to true answers true. The re-entrancy guard answers false. */
  ghost function Deduce(kb: Kb, pool: Pool, c: Cache, q: Query, i: nat): (out: Step)
    requires Ready(kb, pool, c) && Askable(pool, q) && !HasAtoms(q.args) && !FactHolds(kb.facts, q)
    requires q in c && i <= |kb.rules|
    ensures Ready(kb, pool, out.cache) && c.Keys <= out.cache.Keys
    ensures !out.StepThrew? ==> StableExcept(c, out.cache, q)
    ensures out.Answered? ==> out.cache[q] == Done(out.result)
    ensures out.Answered? ==> out.result == TrueResult(q) || out.result == FalseResult(q)
    ensures WfRules(kb.rules) ==> !out.StepThrew?
    decreases Measure(pool, c), 2, |kb.rules| - i
  {
    if i == |kb.rules| then Undecided(c)
    else
      var rule := kb.rules[i];
      if !RuleMatches(rule, q) then Deduce(kb, pool, c, q, i + 1)
      else
        match EvalBody(kb, pool, c, q, rule, 0, None)
        case FoldThrew(c1) => StepThrew(c1)
        case Aborted(c1) =>
          AnswerStored(kb, pool, c, c1, q, FalseResult(q));
          Answered(FalseResult(q), c1[q := Done(FalseResult(q))])
        case Folded(acc, c1) =>
          if acc.Some? && acc.value.result then
            AnswerStored(kb, pool, c, c1, q, TrueResult(q));
            Answered(TrueResult(q), c1[q := Done(TrueResult(q))])
          else
            MeasureMono(pool, c, c1);
            var out := Deduce(kb, pool, c1, q, i + 1);
            if out.StepThrew? then out
            else
              StableExceptTrans(c, c1, out.cache, q);
              out
  }

  /** The substituted query of one condition of a matching rule. */
  function ConditionQueryOf(rule: Rule, q: Query, cond: Condition): Query
    requires |rule.args| <= |q.args|
  {
    Query(cond.name, Substitute(rule.args, q.args, cond.args))
  }

  lemma ConditionQueryAskable(kb: Kb, pool: Pool, q: Query, rule: Rule, rc: RuleCondition)
    requires Covers(pool, kb.rules) && Askable(pool, q) && !HasAtoms(q.args)
    requires rule in kb.rules && rc in rule.conditions && RuleMatches(rule, q)
    ensures Askable(pool, ConditionQueryOf(rule, q, rc.condition))
    ensures WfRules(kb.rules) ==> DistinctAtoms(ConditionQueryOf(rule, q, rc.condition).args)
  {
    SubstituteFrom(rule.args, q.args, rc.condition.args);
    if WfRules(kb.rules) {
      SubstituteKeepsDistinct(rule.args, q.args, rc.condition.args);
    }
  }

  /** The left-to-right fold of one rule body. Building a condition query
      throws when the head repeats an atom name. A condition query that is
      already cached is not resolved: while the query's own entry is still the
      marker the fold is aborted, otherwise the query's own entry is used. */
  ghost function EvalBody(kb: Kb, pool: Pool, c: Cache, q: Query, rule: Rule, j: nat, acc: Option<QueryResult>): (out: Fold)
    requires Ready(kb, pool, c) && Askable(pool, q) && !HasAtoms(q.args)
    requires q in c && rule in kb.rules && RuleMatches(rule, q) && j <= |rule.conditions|
    ensures Ready(kb, pool, out.cache) && c.Keys <= out.cache.Keys
    ensures !out.FoldThrew? ==> Stable(c, out.cache)
    ensures WfRules(kb.rules) ==> !out.FoldThrew?
    decreases Measure(pool, c), 1, |rule.conditions| - j
  {
    if j == |rule.conditions| then Folded(acc, c)
    else if !DistinctAtoms(rule.args) then FoldThrew(c)
    else
      var rc := rule.conditions[j];
      var cq := ConditionQueryOf(rule, q, rc.condition);
      if cq in c then
        if c[q].InProgress? then Aborted(c)
        else
          var v := Negated(c[q].res, rc.condition.isNegated);
          EvalBody(kb, pool, c, q, rule, j + 1, Some(ApplyLogicalOperator(acc, rc.op, v)))
      else
        ConditionQueryAskable(kb, pool, q, rule, rc);
        var rv := Resolve(kb, pool, c, cq);
        if rv.Threw? then FoldThrew(rv.cache)
        else
          MeasureMono(pool, c, rv.cache);
          var v := Negated(rv.result, rc.condition.isNegated);
          EvalBody(kb, pool, rv.cache, q, rule, j + 1, Some(ApplyLogicalOperator(acc, rc.op, v)))
  }

  /** Induction: the candidate rules in order; see InduceRule. */
  ghost function Induce(kb: Kb, pool: Pool, c: Cache, q: Query, i: nat): (out: Step)
    requires Ready(kb, pool, c) && Askable(pool, q) && !HasAtoms(q.args) && !FactHolds(kb.facts, q)
    requires q in c && i <= |kb.rules|
    ensures Ready(kb, pool, out.cache) && c.Keys <= out.cache.Keys
    ensures !out.StepThrew? ==> StableExcept(c, out.cache, q)
    ensures out.Answered? ==> out.cache[q] == Done(out.result)
    ensures out.Answered? ==> out.result == TrueResult(q) || out.result == FalseResult(q)
    ensures WfRules(kb.rules) ==> !out.StepThrew?
    decreases Measure(pool, c), 2, |kb.rules| - i
  {
    if i == |kb.rules| then Undecided(c)
    else if !InductionCandidate(kb.rules[i], q) then Induce(kb, pool, c, q, i + 1)
    else
      match InduceRule(kb, pool, c, q, kb.rules[i], 0)
      case StepThrew(c1) => StepThrew(c1)
      case Answered(r, c1) => Answered(r, c1)
      case Undecided(c1) =>
        MeasureMono(pool, c, c1);
        Induce(kb, pool, c1, q, i + 1)
  }

  /** The head query obtained by binding a matching condition's atoms to the
      query's arguments. */
  function HeadQueryOf(rule: Rule, cond: Condition, q: Query): Query
    requires |cond.args| <= |q.args|
  {
    Query(rule.name, Substitute(cond.args, q.args, rule.args))
  }

  lemma HeadQueryAskable(kb: Kb, pool: Pool, q: Query, rule: Rule, rc: RuleCondition)
    requires Covers(pool, kb.rules) && Askable(pool, q) && !HasAtoms(q.args)
    requires rule in kb.rules && rc in rule.conditions && |rc.condition.args| == |q.args|
    ensures Askable(pool, HeadQueryOf(rule, rc.condition, q))
    ensures WfRules(kb.rules) ==> DistinctAtoms(HeadQueryOf(rule, rc.condition, q).args)
  {
    SubstituteFrom(rc.condition.args, q.args, rule.args);
    if WfRules(kb.rules) {
      SubstituteKeepsDistinct(rc.condition.args, q.args, rule.args);
    }
  }

  /** For each condition of the query's relation and arity whose pattern
      matches the query, the rule's head is resolved with the condition's atoms
      bound (building it throws when the condition repeats an atom name); a
      head result that differs from the condition's negation flag answers
      true, a head still in progress answers false. */
  ghost function InduceRule(kb: Kb, pool: Pool, c: Cache, q: Query, rule: Rule, j: nat): (out: Step)
    requires Ready(kb, pool, c) && Askable(pool, q) && !HasAtoms(q.args) && !FactHolds(kb.facts, q)
    requires q in c && rule in kb.rules && j <= |rule.conditions|
    ensures Ready(kb, pool, out.cache) && c.Keys <= out.cache.Keys
    ensures !out.StepThrew? ==> StableExcept(c, out.cache, q)
    ensures out.Answered? ==> out.cache[q] == Done(out.result)
    ensures out.Answered? ==> out.result == TrueResult(q) || out.result == FalseResult(q)
    ensures WfRules(kb.rules) ==> !out.StepThrew?
    decreases Measure(pool, c), 1, |rule.conditions| - j
  {
    if j == |rule.conditions| then Undecided(c)
    else
      var rc := rule.conditions[j];
      var cond := rc.condition;
      if !(ConditionMatches(cond, q) && CompareArgumentsIgnoringAtoms(cond.args, q.args)) then
        InduceRule(kb, pool, c, q, rule, j + 1)
      else if !DistinctAtoms(cond.args) then StepThrew(c)
      else
        var nq := HeadQueryOf(rule, cond, q);
        if nq in c && c[nq].InProgress? then
          AnswerStored(kb, pool, c, c, q, FalseResult(q));
          Answered(FalseResult(q), c[q := Done(FalseResult(q))])
        else
          HeadQueryAskable(kb, pool, q, rule, rc);
          var rv := if nq in c then Resolved(c[nq].res, c) else Resolve(kb, pool, c, nq);
          if rv.Threw? then StepThrew(rv.cache)
          else if rv.result.result != cond.isNegated then
            AnswerStored(kb, pool, c, rv.cache, q, TrueResult(q));
            Answered(TrueResult(q), rv.cache[q := Done(TrueResult(q))])
          else
            MeasureMono(pool, c, rv.cache);
            var out := InduceRule(kb, pool, rv.cache, q, rule, j + 1);
            if out.StepThrew? then out
            else
              StableExceptTrans(c, rv.cache, out.cache, q);
              out
  }

  /** The query of a matching rule with the rule's atoms bound to the
      query's arguments. */
  function RuleQueryOf(rule: Rule, q: Query): Query
    requires |rule.args| <= |q.args|
  {
    Query(rule.name, Substitute(rule.args, q.args, rule.args))
  }

  lemma RuleQueryAskable(kb: Kb, pool: Pool, q: Query, rule: Rule)
    requires Covers(pool, kb.rules) && Askable(pool, q)
    requires rule in kb.rules && RuleMatches(rule, q)
    ensures Askable(pool, RuleQueryOf(rule, q))
    ensures DistinctAtoms(rule.args) && DistinctAtoms(q.args) ==> DistinctAtoms(RuleQueryOf(rule, q).args)
  {
    SubstituteFrom(rule.args, q.args, rule.args);
    if DistinctAtoms(rule.args) && DistinctAtoms(q.args) {
      SubstituteHeadDistinct(rule.args, q.args);
    }
  }

  /** Solution mode: the fact solutions, then the rule solutions; true iff
      there is any. Collecting a solution throws when the query repeats an
      atom name. */
  ghost function Enumerate(kb: Kb, pool: Pool, c: Cache, q: Query): (out: Resolved)
    requires Ready(kb, pool, c) && Askable(pool, q) && HasAtoms(q.args) && q in c
    ensures Ready(kb, pool, out.cache) && c.Keys <= out.cache.Keys
    ensures out.Resolved? ==> StableExcept(c, out.cache, q) && out.cache[q] == Done(out.result)
    ensures out.Resolved? ==> ResultFits(kb.facts, q, out.result)
    ensures out.Resolved? ==> FactSolutions(kb.facts, q) <= out.result.solutions.value
    ensures WfRules(kb.rules) && DistinctAtoms(q.args) ==> out.Resolved?
    decreases Measure(pool, c), 2, 0
  {
    if !DistinctAtoms(q.args) && FactSolutions(kb.facts, q) != [] then Threw(c)
    else
      match RuleSolutions(kb, pool, c, q, 0, FactSolutions(kb.facts, q))
      case FoundThrew(c1) => Threw(c1)
      case Found(sols, c1) =>
        var r := QueryResult(|sols| > 0, q, Some(sols));
        Resolved(r, c1[q := Done(r)])
  }

  /** Each rule of the query's name and arity, in order: its rule query is
      resolved, and if true it adds one solution binding the query's atoms to
      the rule query's arguments. */
  ghost function RuleSolutions(kb: Kb, pool: Pool, c: Cache, q: Query, i: nat, acc: seq<Solution>): (out: Found)
    requires Ready(kb, pool, c) && Askable(pool, q) && HasAtoms(q.args) && q in c && i <= |kb.rules|
    ensures Ready(kb, pool, out.cache) && c.Keys <= out.cache.Keys
    ensures out.Found? ==> Stable(c, out.cache) && acc <= out.solutions
    ensures WfRules(kb.rules) && DistinctAtoms(q.args) ==> out.Found?
    decreases Measure(pool, c), 1, |kb.rules| - i
  {
    if i == |kb.rules| then Found(acc, c)
    else
      var rule := kb.rules[i];
      if !RuleMatches(rule, q) then RuleSolutions(kb, pool, c, q, i + 1, acc)
      else if !DistinctAtoms(rule.args) then FoundThrew(c)
      else
        var rq := RuleQueryOf(rule, q);
        RuleQueryAskable(kb, pool, q, rule);
        var rv := Resolve(kb, pool, c, rq);
        if rv.Threw? then FoundThrew(rv.cache)
        else if rv.result.result && !DistinctAtoms(q.args) then FoundThrew(rv.cache)
        else
          MeasureMono(pool, c, rv.cache);
          var more := if rv.result.result then acc + [SolutionOf(q.args, rq.args)] else acc;
          RuleSolutions(kb, pool, rv.cache, q, i + 1, more)
  }

  // ----- The pool of a program, and resolving a list of queries -----

  function LongestCondition(cs: seq<RuleCondition>): (n: nat)
    ensures forall rc :: rc in cs ==> |rc.condition.args| <= n
  {
    if cs == [] then 0
    else
      var rest := LongestCondition(cs[1..]);
      if |cs[0].condition.args| > rest then |cs[0].condition.args| else rest
  }

  function LongestRule(rules: seq<Rule>): (n: nat)
    ensures forall r :: r in rules ==> |r.args| <= n && LongestCondition(r.conditions) <= n
  {
    if rules == [] then 0
    else
      var here := if |rules[0].args| > LongestCondition(rules[0].conditions)
                  then |rules[0].args| else LongestCondition(rules[0].conditions);
      var rest := LongestRule(rules[1..]);
      if here > rest then here else rest
  }

  ghost function LongestQuery(queries: set<Query>): (n: nat)
    ensures forall q :: q in queries ==> |q.args| <= n
    decreases |queries|
  {
    if queries == {} then 0
    else
      var x :| x in queries;
      var rest := LongestQuery(queries - {x});
      if |x.args| > rest then |x.args| else rest
  }

  /** The names, argument values and arities of the rules and queries. */
  ghost function PoolOf(rules: seq<Rule>, queries: set<Query>): Pool {
    var args :=
      (set r, a | r in rules && a in r.args :: a)
        + (set r, rc, a | r in rules && rc in r.conditions && a in rc.condition.args :: a)
        + (set q, a | q in queries && a in q.args :: a);
    var names :=
      (set r | r in rules :: r.name)
        + (set r, rc | r in rules && rc in r.conditions :: rc.condition.name)
        + (set q | q in queries :: q.name);
    var arity := if LongestRule(rules) > LongestQuery(queries) then LongestRule(rules) else LongestQuery(queries);
    Pool(args, names, arity, Universe(args, names, arity))
  }

  /** The pool of a program bounds its rules and its queries, and its
      universe is closed. */
  lemma PoolOfCovers(rules: seq<Rule>, queries: set<Query>)
    ensures Closed(PoolOf(rules, queries))
    ensures Covers(PoolOf(rules, queries), rules)
    ensures forall q :: q in queries ==> Within(PoolOf(rules, queries), q)
  {
    var pool := PoolOf(rules, queries);
    forall q | Within(pool, q) ensures q in pool.universe {
      WithinUniverse(pool, q);
    }
    forall r | r in rules
      ensures Within(pool, Query(r.name, r.args))
      ensures forall rc :: rc in r.conditions ==> Within(pool, Query(rc.condition.name, rc.condition.args))
    {
      forall rc | rc in r.conditions
        ensures Within(pool, Query(rc.condition.name, rc.condition.args))
      {
        assert |rc.condition.args| <= LongestCondition(r.conditions);
      }
    }
  }

  /** The results of a list of queries resolved one after another, or the
      cache when one of them threw. */
  datatype Batch = Batch(results: seq<QueryResult>, cache: Cache) | BatchThrew(cache: Cache) {
    /** The results as the caller sees them. */
    function Value(): Outcome<seq<QueryResult>> {
      if Batch? then Success(results) else Failure(DuplicateKey)
    }
  }

  lemma PrefixAskable(pool: Pool, queries: seq<Query>, n: nat)
    requires n <= |queries| && forall q :: q in queries ==> Askable(pool, q)
    ensures forall q :: q in queries[..n] ==> Askable(pool, q)
  {
  }

  /** A fitting result for the last query extends the fitting results of
      the ones before it. */
  lemma BatchFits(facts: seq<Fact>, queries: seq<Query>, before: seq<QueryResult>, r: QueryResult)
    requires |queries| > 0 && |before| == |queries| - 1
    requires forall i :: 0 <= i < |before| ==> ResultFits(facts, queries[..|before|][i], before[i])
    requires ResultFits(facts, queries[|before|], r)
    ensures forall i :: 0 <= i < |queries| ==> ResultFits(facts, queries[i], (before + [r])[i])
  {
    forall i | 0 <= i < |queries| ensures ResultFits(facts, queries[i], (before + [r])[i]) {
      if i < |before| {
        assert queries[..|before|][i] == queries[i];
      }
    }
  }

  /** The queries resolved in source order over one shared cache: one result
      per query, each fitting its query; a throw ends the batch. */
  ghost function ResolveAll(kb: Kb, pool: Pool, c: Cache, queries: seq<Query>): (out: Batch)
    requires Ready(kb, pool, c) && forall q :: q in queries ==> Askable(pool, q)
    ensures Ready(kb, pool, out.cache) && c.Keys <= out.cache.Keys
    ensures out.Batch? ==> Stable(c, out.cache) && |out.results| == |queries|
    ensures out.Batch? ==> forall i :: 0 <= i < |queries| ==> ResultFits(kb.facts, queries[i], out.results[i])
    ensures WfRules(kb.rules) && (forall q :: q in queries ==> DistinctAtoms(q.args)) ==> out.Batch?
    decreases |queries|
  {
    if queries == [] then Batch([], c)
    else
      var n := |queries| - 1;
      PrefixAskable(pool, queries, n);
      match ResolveAll(kb, pool, c, queries[..n])
      case BatchThrew(c1) => BatchThrew(c1)
      case Batch(before, c1) =>
        var last := Resolve(kb, pool, c1, queries[n]);
        if last.Threw? then BatchThrew(last.cache)
        else
          StableTrans(c, c1, last.cache);
          BatchFits(kb.facts, queries, before, last.result);
          Batch(before + [last.result], last.cache)
  }

  /** One more query of a batch that has not thrown: it is resolved over the
      cache the prefix left. */
  lemma BatchExtend(kb: Kb, pool: Pool, c: Cache, queries: seq<Query>, k: nat)
    requires Ready(kb, pool, c) && forall q :: q in queries ==> Askable(pool, q)
    requires k < |queries| && ResolveAll(kb, pool, c, queries[..k]).Batch?
    ensures var b := ResolveAll(kb, pool, c, queries[..k]);
      var r := Resolve(kb, pool, b.cache, queries[k]);
      ResolveAll(kb, pool, c, queries[..k + 1])
        == if r.Resolved? then Batch(b.results + [r.result], r.cache) else BatchThrew(r.cache)
  {
    assert queries[..k + 1][..k] == queries[..k];
  }

  /** A batch whose queries before the last throw does not resolve the last. */
  lemma BatchThrewLast(kb: Kb, pool: Pool, c: Cache, queries: seq<Query>)
    requires Ready(kb, pool, c) && forall q :: q in queries ==> Askable(pool, q)
    requires |queries| > 0 && ResolveAll(kb, pool, c, queries[..|queries| - 1]).BatchThrew?
    ensures ResolveAll(kb, pool, c, queries) == ResolveAll(kb, pool, c, queries[..|queries| - 1])
  {
  }

  /** Once a prefix of the queries throws, the whole batch throws with the
      same cache: later queries are never resolved. */
  lemma {:induction false} BatchThrewStays(kb: Kb, pool: Pool, c: Cache, queries: seq<Query>, m: nat)
    requires Ready(kb, pool, c) && forall q :: q in queries ==> Askable(pool, q)
    requires m <= |queries|
    requires ResolveAll(kb, pool, c, queries[..m]).BatchThrew?
    ensures ResolveAll(kb, pool, c, queries) == ResolveAll(kb, pool, c, queries[..m])
    decreases |queries| - m
  {
    if m < |queries| {
      var n := |queries| - 1;
      assert queries[..n][..m] == queries[..m];
      PrefixAskable(pool, queries, n);
      BatchThrewStays(kb, pool, c, queries[..n], m);
      BatchThrewLast(kb, pool, c, queries);
    } else {
      assert queries[..m] == queries;
    }
  }

  /** The pool of the rules, the cached queries and one more query bounds
      all of them. */
  lemma AskPool(rules: seq<Rule>, c: Cache, q: Query)
    ensures Closed(PoolOf(rules, c.Keys + {q})) && Covers(PoolOf(rules, c.Keys + {q}), rules)
    ensures Within(PoolOf(rules, c.Keys + {q}), q) && Bounded(PoolOf(rules, c.Keys + {q}), c)
  {
    var pool := PoolOf(rules, c.Keys + {q});
    PoolOfCovers(rules, c.Keys + {q});
    forall k | k in c ensures k in pool.universe {
      assert Within(pool, k);
    }
  }

  /** Resolving one query over a cache, with the pool of the rules, the
      cached queries and the query; the pool only bounds the recursion. */
  ghost function Ask(kb: Kb, c: Cache, q: Query): (out: Resolved)
    requires CacheOk(kb.facts, c)
    ensures CacheOk(kb.facts, out.cache) && c.Keys <= out.cache.Keys
    ensures out.Resolved? ==> Stable(c, out.cache) && q in out.cache && out.cache[q] == Done(out.result)
    ensures out.Resolved? ==> ResultFits(kb.facts, q, out.result)
    ensures WfRules(kb.rules) && DistinctAtoms(q.args) ==> out.Resolved?
  {
    AskPool(kb.rules, c, q);
    Resolve(kb, PoolOf(kb.rules, c.Keys + {q}), c, q)
  }

  /** A program's queries resolved in order over a fresh cache. */
  ghost function RunQueries(kb: Kb, queries: seq<Query>): (out: Batch)
    ensures CacheOk(kb.facts, out.cache)
    ensures out.Batch? ==> |out.results| == |queries|
    ensures out.Batch? ==> forall i :: 0 <= i < |queries| ==> ResultFits(kb.facts, queries[i], out.results[i])
    ensures WfRules(kb.rules) && (forall q :: q in queries ==> DistinctAtoms(q.args)) ==> out.Batch?
  {
    PoolOfCovers(kb.rules, set q | q in queries);
    ResolveAll(kb, PoolOf(kb.rules, set q | q in queries), map[], queries)
  }
}
