/** Properties of the resolver's specification that relate several of its
    steps: which rules deduction and induction can use, and where the
    solutions of solution mode come from. */
module ResolutionProperties {
  import opened ConditionOperators
  import opened Clauses
  import opened Substitution
  import opened Combinator
  import opened Resolution

  /** Deduction only uses rules of the query's name and arity: with none left
      it is undecided and leaves the cache as it was. */
  lemma {:induction false} DeductionNeedsMatchingRule(kb: Kb, pool: Pool, c: Cache, q: Query, i: nat)
    requires Ready(kb, pool, c) && Askable(pool, q) && !HasAtoms(q.args) && !FactHolds(kb.facts, q)
    requires q in c && i <= |kb.rules|
    requires forall k :: i <= k < |kb.rules| ==> !RuleMatches(kb.rules[k], q)
    ensures Deduce(kb, pool, c, q, i) == Undecided(c)
    decreases |kb.rules| - i
  {
    if i < |kb.rules| {
      DeductionNeedsMatchingRule(kb, pool, c, q, i + 1);
    }
  }

  /** Some condition of the rule is joined by OR. */
  predicate HasOr(rule: Rule) {
    exists rc :: rc in rule.conditions && rc.op == Some(Or)
  }

  /** A rule with an OR operator is passed over by induction, whatever the
      cache: induction from it is induction from the next rule. */
  lemma InductionSkipsOrRule(kb: Kb, pool: Pool, c: Cache, q: Query, i: nat)
    requires Ready(kb, pool, c) && Askable(pool, q) && !HasAtoms(q.args) && !FactHolds(kb.facts, q)
    requires q in c && i < |kb.rules|
    requires HasOr(kb.rules[i])
    ensures Induce(kb, pool, c, q, i) == Induce(kb, pool, c, q, i + 1)
  {
    var rc :| rc in kb.rules[i].conditions && rc.op == Some(Or);
    assert !InductionCandidate(kb.rules[i], q);
  }

  /** Induction never searches a rule with an OR operator: when every
      remaining rule has one, it is undecided and leaves the cache as it was. */
  lemma {:induction false} InductionSkipsOrRules(kb: Kb, pool: Pool, c: Cache, q: Query, i: nat)
    requires Ready(kb, pool, c) && Askable(pool, q) && !HasAtoms(q.args) && !FactHolds(kb.facts, q)
    requires q in c && i <= |kb.rules|
    requires forall k :: i <= k < |kb.rules| ==> HasOr(kb.rules[k])
    ensures Induce(kb, pool, c, q, i) == Undecided(c)
    decreases |kb.rules| - i
  {
    if i < |kb.rules| {
      InductionSkipsOrRule(kb, pool, c, q, i);
      InductionSkipsOrRules(kb, pool, c, q, i + 1);
    }
  }

  /** Induction only searches candidate rules: with none left it is undecided
      and leaves the cache as it was. */
  lemma {:induction false} InductionNeedsCandidate(kb: Kb, pool: Pool, c: Cache, q: Query, i: nat)
    requires Ready(kb, pool, c) && Askable(pool, q) && !HasAtoms(q.args) && !FactHolds(kb.facts, q)
    requires q in c && i <= |kb.rules|
    requires forall k :: i <= k < |kb.rules| ==> !InductionCandidate(kb.rules[k], q)
    ensures Induce(kb, pool, c, q, i) == Undecided(c)
    decreases |kb.rules| - i
  {
    if i < |kb.rules| {
      InductionNeedsCandidate(kb, pool, c, q, i + 1);
    }
  }

  /** A new atom-free query that no fact answers, that no rule has as its
      head relation (name and arity) and that no rule can be searched by
      induction for, is false. */
  lemma UnsupportedQueryIsFalse(kb: Kb, pool: Pool, c: Cache, q: Query)
    requires Ready(kb, pool, c) && Askable(pool, q) && q !in c
    requires !HasAtoms(q.args) && !FactHolds(kb.facts, q)
    requires forall k :: 0 <= k < |kb.rules| ==> !RuleMatches(kb.rules[k], q) && !InductionCandidate(kb.rules[k], q)
    ensures Resolve(kb, pool, c, q).Resolved?
    ensures Resolve(kb, pool, c, q).result == FalseResult(q)
  {
    var c1 := c[q := InProgress];
    MarkReady(kb, pool, c, q);
    DeductionNeedsMatchingRule(kb, pool, c1, q, 0);
    InductionNeedsCandidate(kb, pool, c1, q, 0);
    assert Answer(kb, pool, c1, q).result == FalseResult(q);
  }

  // ----- What deduction and induction answer -----

  /** For a query without atoms: deduction's answer when it has one, else
      induction's answer, else false; a throw in either is the query's throw. */
  lemma AnswerOrder(kb: Kb, pool: Pool, c: Cache, q: Query)
    requires Ready(kb, pool, c) && Askable(pool, q) && q in c
    requires !HasAtoms(q.args) && !FactHolds(kb.facts, q)
    ensures var d := Deduce(kb, pool, c, q, 0);
      && (d.Answered? ==> Answer(kb, pool, c, q) == Resolved(d.result, d.cache))
      && (d.StepThrew? ==> Answer(kb, pool, c, q) == Threw(d.cache))
      && (d.Undecided? ==>
            var n := Induce(kb, pool, d.cache, q, 0);
            && (n.Answered? ==> Answer(kb, pool, c, q) == Resolved(n.result, n.cache))
            && (n.StepThrew? ==> Answer(kb, pool, c, q) == Threw(n.cache))
            && (n.Undecided? ==> Answer(kb, pool, c, q) == Resolved(FalseResult(q), n.cache[q := Done(FalseResult(q))])))
  {
  }

  /** Rule k matches the query and, from cache `c1`, its body folds to a true
      result; `out` is the true answer stored after that fold. */
  ghost predicate BodyFoldsTrue(kb: Kb, pool: Pool, q: Query, k: nat, c1: Cache, out: Step) {
    && k < |kb.rules| && RuleMatches(kb.rules[k], q)
    && Ready(kb, pool, c1) && Askable(pool, q) && !HasAtoms(q.args) && q in c1
    && var f := EvalBody(kb, pool, c1, q, kb.rules[k], 0, None);
       f.Folded? && f.acc.Some? && f.acc.value.result
       && out == Answered(TrueResult(q), f.cache[q := Done(TrueResult(q))])
  }

  /** Rule k matches the query and, from cache `c1`, the fold of its body is
      aborted; `out` is the false answer stored after that. */
  ghost predicate BodyAborts(kb: Kb, pool: Pool, q: Query, k: nat, c1: Cache, out: Step) {
    && k < |kb.rules| && RuleMatches(kb.rules[k], q)
    && Ready(kb, pool, c1) && Askable(pool, q) && !HasAtoms(q.args) && q in c1
    && var f := EvalBody(kb, pool, c1, q, kb.rules[k], 0, None);
       f.Aborted? && out == Answered(FalseResult(q), f.cache[q := Done(FalseResult(q))])
  }

  /** Deduction answers true only through a rule of the query's name and
      arity whose body folds to true, and false only through such a rule
      whose fold is aborted. */
  lemma {:induction false} DeduceAnswers(kb: Kb, pool: Pool, c: Cache, q: Query, i: nat)
    requires Ready(kb, pool, c) && Askable(pool, q) && !HasAtoms(q.args) && !FactHolds(kb.facts, q)
    requires q in c && i <= |kb.rules|
    ensures var out := Deduce(kb, pool, c, q, i);
      out.Answered? && out.result == TrueResult(q) ==>
        exists k, c1 :: i <= k && BodyFoldsTrue(kb, pool, q, k, c1, out)
    ensures var out := Deduce(kb, pool, c, q, i);
      out.Answered? && out.result == FalseResult(q) ==>
        exists k, c1 :: i <= k && BodyAborts(kb, pool, q, k, c1, out)
    decreases |kb.rules| - i
  {
    if i < |kb.rules| {
      var rule := kb.rules[i];
      var out := Deduce(kb, pool, c, q, i);
      if !RuleMatches(rule, q) {
        DeduceAnswers(kb, pool, c, q, i + 1);
      } else {
        var f := EvalBody(kb, pool, c, q, rule, 0, None);
        if f.Aborted? {
          assert BodyAborts(kb, pool, q, i, c, out);
        } else if f.Folded? && f.acc.Some? && f.acc.value.result {
          assert BodyFoldsTrue(kb, pool, q, i, c, out);
        } else if f.Folded? {
          DeduceAnswers(kb, pool, f.cache, q, i + 1);
        }
      }
    }
  }

  /** The state in which deduction and induction run: a marked atom-free
      query that no fact answers. */
  ghost predicate RulesDecide(kb: Kb, pool: Pool, c: Cache, q: Query) {
    Ready(kb, pool, c) && Askable(pool, q) && !HasAtoms(q.args) && !FactHolds(kb.facts, q) && q in c
  }

  ghost predicate NoneMatch(rules: seq<Rule>, q: Query, i: nat, k: nat) {
    forall j {:trigger RuleMatches(rules[j], q)} :: i <= j < k && j < |rules| ==> !RuleMatches(rules[j], q)
  }

  /** A rule of another name or arity is passed over by deduction. */
  lemma DeduceSkipsOne(kb: Kb, pool: Pool, c: Cache, q: Query, i: nat, k: nat)
    requires RulesDecide(kb, pool, c, q)
    requires i < |kb.rules| && k == i + 1 && !RuleMatches(kb.rules[i], q)
    ensures Deduce(kb, pool, c, q, i) == Deduce(kb, pool, c, q, k)
  {
  }

  /** Deduction passes over the rules of another name or arity without
      touching the cache. */
  lemma {:induction false} DeduceSkips(kb: Kb, pool: Pool, c: Cache, q: Query, i: nat, k: nat)
    requires RulesDecide(kb, pool, c, q)
    requires i <= k <= |kb.rules|
    requires NoneMatch(kb.rules, q, i, k)
    ensures Deduce(kb, pool, c, q, i) == Deduce(kb, pool, c, q, k)
    decreases k - i
  {
    if i < k {
      DeduceSkips(kb, pool, c, q, i, k - 1);
      DeduceSkipsOne(kb, pool, c, q, k - 1, k);
    }
  }

  /** The first rule of the query's name and arity decides deduction by its
      fold: true if the fold is true, false if it is aborted, a throw if it
      throws; otherwise deduction goes on with the next rule. */
  lemma DeduceFirstMatchingRule(kb: Kb, pool: Pool, c: Cache, q: Query, i: nat, k: nat)
    requires Ready(kb, pool, c) && Askable(pool, q) && !HasAtoms(q.args) && !FactHolds(kb.facts, q)
    requires q in c && i <= k < |kb.rules| && RuleMatches(kb.rules[k], q)
    requires forall j :: i <= j < k ==> !RuleMatches(kb.rules[j], q)
    ensures var f := EvalBody(kb, pool, c, q, kb.rules[k], 0, None);
      && (f.FoldThrew? ==> Deduce(kb, pool, c, q, i) == StepThrew(f.cache))
      && (f.Aborted? ==> Deduce(kb, pool, c, q, i) == Answered(FalseResult(q), f.cache[q := Done(FalseResult(q))]))
      && (f.Folded? && f.acc.Some? && f.acc.value.result ==>
            Deduce(kb, pool, c, q, i) == Answered(TrueResult(q), f.cache[q := Done(TrueResult(q))]))
      && (f.Folded? && !(f.acc.Some? && f.acc.value.result) ==>
            Deduce(kb, pool, c, q, i) == Deduce(kb, pool, f.cache, q, k + 1))
  {
    assert NoneMatch(kb.rules, q, i, k);
    DeduceSkips(kb, pool, c, q, i, k);
  }

  /** One condition of a fold whose query is already cached: the fold is
      aborted while the query's own entry is the marker, and otherwise goes on
      with the query's own result. */
  lemma EvalBodyCached(kb: Kb, pool: Pool, c: Cache, q: Query, rule: Rule, j: nat, acc: Option<QueryResult>)
    requires Ready(kb, pool, c) && Askable(pool, q) && !HasAtoms(q.args)
    requires q in c && rule in kb.rules && RuleMatches(rule, q) && j < |rule.conditions| && DistinctAtoms(rule.args)
    requires ConditionQueryOf(rule, q, rule.conditions[j].condition) in c
    ensures c[q].InProgress? ==> EvalBody(kb, pool, c, q, rule, j, acc) == Aborted(c)
    ensures !c[q].InProgress? ==>
      var rc := rule.conditions[j];
      EvalBody(kb, pool, c, q, rule, j, acc)
      == EvalBody(kb, pool, c, q, rule, j + 1, Some(ApplyLogicalOperator(acc, rc.op, Negated(c[q].res, rc.condition.isNegated))))
  {
  }

  /** One condition of a fold whose query is not cached: the condition query
      is resolved, and the fold goes on from the cache that leaves. */
  lemma EvalBodyResolves(kb: Kb, pool: Pool, c: Cache, q: Query, rule: Rule, j: nat, acc: Option<QueryResult>)
    requires Ready(kb, pool, c) && Askable(pool, q) && !HasAtoms(q.args)
    requires q in c && rule in kb.rules && RuleMatches(rule, q) && j < |rule.conditions| && DistinctAtoms(rule.args)
    requires ConditionQueryOf(rule, q, rule.conditions[j].condition) !in c
    ensures Askable(pool, ConditionQueryOf(rule, q, rule.conditions[j].condition))
    ensures var rc := rule.conditions[j];
      var rv := Resolve(kb, pool, c, ConditionQueryOf(rule, q, rc.condition));
      rv.Resolved? ==>
        && Stable(c, rv.cache) && Ready(kb, pool, rv.cache) && q in rv.cache
        && EvalBody(kb, pool, c, q, rule, j, acc)
           == EvalBody(kb, pool, rv.cache, q, rule, j + 1, Some(ApplyLogicalOperator(acc, rc.op, Negated(rv.result, rc.condition.isNegated))))
    ensures var rv := Resolve(kb, pool, c, ConditionQueryOf(rule, q, rule.conditions[j].condition));
      rv.Threw? ==> EvalBody(kb, pool, c, q, rule, j, acc) == FoldThrew(rv.cache)
  {
    ConditionQueryAskable(kb, pool, q, rule, rule.conditions[j]);
  }

  /** What an aborted fold leaves: the query's own entry is the marker and a
      condition query from index `j` on is cached. */
  ghost predicate AbortsFrom(q: Query, rule: Rule, j: nat, out: Fold)
    requires |rule.args| <= |q.args|
  {
    out.Aborted? ==>
      && q in out.cache && out.cache[q].InProgress?
      && exists k :: j <= k < |rule.conditions| && ConditionQueryOf(rule, q, rule.conditions[k].condition) in out.cache
  }

  /** A fold is aborted only when the query's own entry is the marker, both
      when the fold starts and when it stops, and some later condition's
      query is already cached. */
  lemma {:induction false} EvalBodyAborts(kb: Kb, pool: Pool, c: Cache, q: Query, rule: Rule, j: nat, acc: Option<QueryResult>)
    requires Ready(kb, pool, c) && Askable(pool, q) && !HasAtoms(q.args)
    requires q in c && rule in kb.rules && RuleMatches(rule, q) && j <= |rule.conditions|
    ensures EvalBody(kb, pool, c, q, rule, j, acc).Aborted? ==> c[q].InProgress?
    ensures AbortsFrom(q, rule, j, EvalBody(kb, pool, c, q, rule, j, acc))
    decreases |rule.conditions| - j
  {
    var out := EvalBody(kb, pool, c, q, rule, j, acc);
    if j < |rule.conditions| && DistinctAtoms(rule.args) {
      var rc := rule.conditions[j];
      var cq := ConditionQueryOf(rule, q, rc.condition);
      if cq in c {
        EvalBodyCached(kb, pool, c, q, rule, j, acc);
        if !c[q].InProgress? {
          var v := Negated(c[q].res, rc.condition.isNegated);
          EvalBodyAborts(kb, pool, c, q, rule, j + 1, Some(ApplyLogicalOperator(acc, rc.op, v)));
        }
      } else {
        EvalBodyResolves(kb, pool, c, q, rule, j, acc);
        var rv := Resolve(kb, pool, c, cq);
        if rv.Resolved? {
          var v := Negated(rv.result, rc.condition.isNegated);
          EvalBodyAborts(kb, pool, rv.cache, q, rule, j + 1, Some(ApplyLogicalOperator(acc, rc.op, v)));
        }
      }
    }
  }

  /** Rule k is a candidate for induction and, from cache `c1`, searching it
      gives `out`. */
  ghost predicate InducedBy(kb: Kb, pool: Pool, q: Query, k: nat, c1: Cache, out: Step) {
    && k < |kb.rules| && InductionCandidate(kb.rules[k], q)
    && Ready(kb, pool, c1) && Askable(pool, q) && !HasAtoms(q.args) && !FactHolds(kb.facts, q) && q in c1
    && InduceRule(kb, pool, c1, q, kb.rules[k], 0) == out
  }

  /** Induction answers only through a candidate rule: one with a condition
      of the query's relation and arity and no OR. */
  lemma {:induction false} InduceAnswers(kb: Kb, pool: Pool, c: Cache, q: Query, i: nat)
    requires Ready(kb, pool, c) && Askable(pool, q) && !HasAtoms(q.args) && !FactHolds(kb.facts, q)
    requires q in c && i <= |kb.rules|
    ensures var out := Induce(kb, pool, c, q, i);
      out.Answered? ==> exists k, c1 :: i <= k && InducedBy(kb, pool, q, k, c1, out)
    decreases |kb.rules| - i
  {
    if i < |kb.rules| {
      var out := Induce(kb, pool, c, q, i);
      if !InductionCandidate(kb.rules[i], q) {
        InduceAnswers(kb, pool, c, q, i + 1);
      } else {
        var r := InduceRule(kb, pool, c, q, kb.rules[i], 0);
        if r.Answered? {
          assert InducedBy(kb, pool, q, i, c, out);
        } else if r.Undecided? {
          InduceAnswers(kb, pool, r.cache, q, i + 1);
        }
      }
    }
  }

  /** Condition k of the rule names the query's relation with its arity, its
      constants agree with the query's, and in cache `c1` the rule's head
      under the condition's bindings is finished with a result that differs
      from the condition's negation flag. */
  ghost predicate HeadHolds(q: Query, rule: Rule, k: nat, c1: Cache) {
    && k < |rule.conditions|
    && var cond := rule.conditions[k].condition;
       && ConditionMatches(cond, q) && CompareArgumentsIgnoringAtoms(cond.args, q.args) && DistinctAtoms(cond.args)
       && HeadQueryOf(rule, cond, q) in c1 && c1[HeadQueryOf(rule, cond, q)].Done?
       && c1[HeadQueryOf(rule, cond, q)].res.result != cond.isNegated
  }

  /** As HeadHolds, but the head is still in progress in `c1`. */
  ghost predicate HeadPending(q: Query, rule: Rule, k: nat, c1: Cache) {
    && k < |rule.conditions|
    && var cond := rule.conditions[k].condition;
       && ConditionMatches(cond, q) && CompareArgumentsIgnoringAtoms(cond.args, q.args) && DistinctAtoms(cond.args)
       && HeadQueryOf(rule, cond, q) in c1 && c1[HeadQueryOf(rule, cond, q)].InProgress?
  }

  /** Induction over one rule answers true only through a matching condition
      whose head result differs from its negation flag, and false only
      through a matching condition whose head is still in progress. */
  lemma {:induction false} InduceRuleAnswers(kb: Kb, pool: Pool, c: Cache, q: Query, rule: Rule, j: nat)
    requires Ready(kb, pool, c) && Askable(pool, q) && !HasAtoms(q.args) && !FactHolds(kb.facts, q)
    requires q in c && rule in kb.rules && j <= |rule.conditions|
    ensures var out := InduceRule(kb, pool, c, q, rule, j);
      out.Answered? && out.result == TrueResult(q) ==>
        exists k, c1 :: j <= k && HeadHolds(q, rule, k, c1) && out.cache == c1[q := Done(TrueResult(q))]
    ensures var out := InduceRule(kb, pool, c, q, rule, j);
      out.Answered? && out.result == FalseResult(q) ==>
        exists k, c1 :: j <= k && HeadPending(q, rule, k, c1) && out.cache == c1[q := Done(FalseResult(q))]
    decreases |rule.conditions| - j
  {
    if j < |rule.conditions| {
      var rc := rule.conditions[j];
      var cond := rc.condition;
      var out := InduceRule(kb, pool, c, q, rule, j);
      if !(ConditionMatches(cond, q) && CompareArgumentsIgnoringAtoms(cond.args, q.args)) {
        InduceRuleAnswers(kb, pool, c, q, rule, j + 1);
      } else if DistinctAtoms(cond.args) {
        var nq := HeadQueryOf(rule, cond, q);
        if nq in c && c[nq].InProgress? {
          assert HeadPending(q, rule, j, c);
        } else {
          HeadQueryAskable(kb, pool, q, rule, rc);
          var rv := if nq in c then Resolved(c[nq].res, c) else Resolve(kb, pool, c, nq);
          if rv.Resolved? {
            assert rv.cache[nq] == Done(rv.result);
            if rv.result.result != cond.isNegated {
              assert HeadHolds(q, rule, j, rv.cache);
            } else {
              InduceRuleAnswers(kb, pool, rv.cache, q, rule, j + 1);
            }
          }
        }
      }
    }
  }

  /** A condition of the query's relation and arity whose constants agree
      with the query's: the conditions induction acts on. */
  predicate PatternMatches(cond: Condition, q: Query) {
    ConditionMatches(cond, q) && CompareArgumentsIgnoringAtoms(cond.args, q.args)
  }

  /** A condition whose pattern does not match the query is passed over by
      induction over its rule. */
  lemma InduceRuleSkipsOne(kb: Kb, pool: Pool, c: Cache, q: Query, rule: Rule, j: nat, k: nat)
    requires RulesDecide(kb, pool, c, q)
    requires rule in kb.rules && j < |rule.conditions| && k == j + 1
    requires !PatternMatches(rule.conditions[j].condition, q)
    ensures InduceRule(kb, pool, c, q, rule, j) == InduceRule(kb, pool, c, q, rule, k)
  {
  }

  /** Induction over a rule passes over the conditions whose pattern does not
      match without touching the cache. */
  lemma {:induction false} InduceRuleSkips(kb: Kb, pool: Pool, c: Cache, q: Query, rule: Rule, j: nat, k: nat)
    requires RulesDecide(kb, pool, c, q)
    requires rule in kb.rules && j <= k <= |rule.conditions|
    requires forall m {:trigger PatternMatches(rule.conditions[m].condition, q)} :: j <= m < k ==> !PatternMatches(rule.conditions[m].condition, q)
    ensures InduceRule(kb, pool, c, q, rule, j) == InduceRule(kb, pool, c, q, rule, k)
    decreases k - j
  {
    if j < k {
      InduceRuleSkips(kb, pool, c, q, rule, j, k - 1);
      InduceRuleSkipsOne(kb, pool, c, q, rule, k - 1, k);
    }
  }

  /** The first condition whose pattern matches decides induction over its
      rule by the rule's head under the condition's bindings: a repeated atom
      name throws; a head in progress answers false; a head whose result
      differs from the condition's negation flag answers true; otherwise
      induction goes on with the next condition, over the cache the head's
      resolution left. A head already finished is not resolved again. */
  lemma InduceRuleFirstMatchingCondition(kb: Kb, pool: Pool, c: Cache, q: Query, rule: Rule, j: nat, k: nat)
    requires Ready(kb, pool, c) && Askable(pool, q) && !HasAtoms(q.args) && !FactHolds(kb.facts, q)
    requires q in c && rule in kb.rules && j <= k < |rule.conditions|
    requires PatternMatches(rule.conditions[k].condition, q)
    requires forall m {:trigger PatternMatches(rule.conditions[m].condition, q)} :: j <= m < k ==> !PatternMatches(rule.conditions[m].condition, q)
    ensures Askable(pool, HeadQueryOf(rule, rule.conditions[k].condition, q))
    ensures !DistinctAtoms(rule.conditions[k].condition.args) ==> InduceRule(kb, pool, c, q, rule, j) == StepThrew(c)
    ensures var cond := rule.conditions[k].condition;
      var nq := HeadQueryOf(rule, cond, q);
      DistinctAtoms(cond.args) && nq in c ==>
        && (c[nq].InProgress? ==>
              InduceRule(kb, pool, c, q, rule, j) == Answered(FalseResult(q), c[q := Done(FalseResult(q))]))
        && (c[nq].Done? && c[nq].res.result != cond.isNegated ==>
              InduceRule(kb, pool, c, q, rule, j) == Answered(TrueResult(q), c[q := Done(TrueResult(q))]))
        && (c[nq].Done? && c[nq].res.result == cond.isNegated ==>
              InduceRule(kb, pool, c, q, rule, j) == InduceRule(kb, pool, c, q, rule, k + 1))
    ensures var cond := rule.conditions[k].condition;
      var nq := HeadQueryOf(rule, cond, q);
      var rv := Resolve(kb, pool, c, nq);
      DistinctAtoms(cond.args) && nq !in c ==>
        && (rv.Threw? ==> InduceRule(kb, pool, c, q, rule, j) == StepThrew(rv.cache))
        && (rv.Resolved? && rv.result.result != cond.isNegated ==>
              InduceRule(kb, pool, c, q, rule, j) == Answered(TrueResult(q), rv.cache[q := Done(TrueResult(q))]))
        && (rv.Resolved? && rv.result.result == cond.isNegated ==>
              InduceRule(kb, pool, c, q, rule, j) == InduceRule(kb, pool, rv.cache, q, rule, k + 1))
  {
    HeadQueryAskable(kb, pool, q, rule, rule.conditions[k]);
    InduceRuleSkips(kb, pool, c, q, rule, j, k);
  }

  /** A rule that is not a candidate is passed over by induction. */
  lemma InduceSkipsOne(kb: Kb, pool: Pool, c: Cache, q: Query, i: nat, k: nat)
    requires RulesDecide(kb, pool, c, q)
    requires i < |kb.rules| && k == i + 1 && !InductionCandidate(kb.rules[i], q)
    ensures Induce(kb, pool, c, q, i) == Induce(kb, pool, c, q, k)
  {
  }

  /** Induction passes over the rules that are not candidates without
      touching the cache. */
  lemma {:induction false} InduceSkips(kb: Kb, pool: Pool, c: Cache, q: Query, i: nat, k: nat)
    requires RulesDecide(kb, pool, c, q)
    requires i <= k <= |kb.rules|
    requires forall m {:trigger InductionCandidate(kb.rules[m], q)} :: i <= m < k ==> !InductionCandidate(kb.rules[m], q)
    ensures Induce(kb, pool, c, q, i) == Induce(kb, pool, c, q, k)
    decreases k - i
  {
    if i < k {
      InduceSkips(kb, pool, c, q, i, k - 1);
      InduceSkipsOne(kb, pool, c, q, k - 1, k);
    }
  }

  /** The first candidate rule decides induction when induction over it
      answers or throws; otherwise induction goes on with the next rule, over
      the cache that rule left. */
  lemma InduceFirstCandidate(kb: Kb, pool: Pool, c: Cache, q: Query, i: nat, k: nat)
    requires Ready(kb, pool, c) && Askable(pool, q) && !HasAtoms(q.args) && !FactHolds(kb.facts, q)
    requires q in c && i <= k < |kb.rules| && InductionCandidate(kb.rules[k], q)
    requires forall m {:trigger InductionCandidate(kb.rules[m], q)} :: i <= m < k ==> !InductionCandidate(kb.rules[m], q)
    ensures var r := InduceRule(kb, pool, c, q, kb.rules[k], 0);
      && (!r.Undecided? ==> Induce(kb, pool, c, q, i) == r)
      && (r.Undecided? ==> Induce(kb, pool, c, q, i) == Induce(kb, pool, r.cache, q, k + 1))
  {
    InduceSkips(kb, pool, c, q, i, k);
  }

  // ----- Where the solutions of solution mode come from -----

  /** The fact solutions of a list of facts are those of its first part
      followed by those of its second part. */
  lemma {:induction false} FactSolutionsAppend(f1: seq<Fact>, f2: seq<Fact>, q: Query)
    ensures FactSolutions(f1 + f2, q) == FactSolutions(f1, q) + FactSolutions(f2, q)
    decreases |f2|
  {
    if f2 == [] {
      assert f1 + f2 == f1;
    } else {
      var last := |f2| - 1;
      assert (f1 + f2)[..|f1 + f2| - 1] == f1 + f2[..last];
      FactSolutionsAppend(f1, f2[..last], q);
    }
  }

  /** One fact gives one solution when it matches the query's pattern, and
      none otherwise. */
  lemma FactSolutionsSingle(f: Fact, q: Query)
    ensures FactSolutions([f], q) == if FactMatchesPattern(f, q) then [SolutionOf(q.args, f.args)] else []
  {
    assert [f][..0] == [];
  }

  /** The solutions that the rules from index `i` on give for a cache `c`:
      one for each rule of the query's name and arity whose rule query is
      finished and true in `c`, in rule order. */
  ghost function Held(rules: seq<Rule>, q: Query, i: nat, c: Cache): seq<Solution>
    decreases |rules| - i
  {
    if i >= |rules| then []
    else
      var rule := rules[i];
      var here :=
        if RuleMatches(rule, q) && RuleQueryOf(rule, q) in c && c[RuleQueryOf(rule, q)].Done?
           && c[RuleQueryOf(rule, q)].res.result
        then [SolutionOf(q.args, RuleQueryOf(rule, q).args)]
        else [];
      here + Held(rules, q, i + 1, c)
  }

  /** Every solution from the rules binds the query's atoms to the rule query
      of a rule of the query's name and arity. */
  ghost predicate FromMatchingRule(rules: seq<Rule>, q: Query, i: nat, sol: Solution) {
    exists j :: i <= j < |rules| && RuleMatches(rules[j], q) && sol == SolutionOf(q.args, RuleQueryOf(rules[j], q).args)
  }

  lemma {:induction false} HeldFromMatchingRule(rules: seq<Rule>, q: Query, i: nat, c: Cache)
    ensures forall s :: s in Held(rules, q, i, c) ==> FromMatchingRule(rules, q, i, s)
    decreases |rules| - i
  {
    if i < |rules| {
      HeldFromMatchingRule(rules, q, i + 1, c);
      forall s | s in Held(rules, q, i, c) ensures FromMatchingRule(rules, q, i, s) {
        if s in Held(rules, q, i + 1, c) {
          var j :| i + 1 <= j < |rules| && RuleMatches(rules[j], q) && s == SolutionOf(q.args, RuleQueryOf(rules[j], q).args);
        }
      }
    }
  }

  /** A rule of the query's name and arity in an enumeration that does not
      throw: its rule query is resolved without a throw, and enumeration goes
      on from the cache it leaves, with one more solution iff it holds. */
  lemma RuleSolutionsStep(kb: Kb, pool: Pool, c: Cache, q: Query, i: nat, acc: seq<Solution>)
    requires Ready(kb, pool, c) && Askable(pool, q) && HasAtoms(q.args) && q in c && i < |kb.rules|
    requires RuleMatches(kb.rules[i], q) && RuleSolutions(kb, pool, c, q, i, acc).Found?
    ensures Askable(pool, RuleQueryOf(kb.rules[i], q))
    ensures var rq := RuleQueryOf(kb.rules[i], q);
      var rv := Resolve(kb, pool, c, rq);
      && rv.Resolved? && rv.cache[rq] == Done(rv.result)
      && RuleSolutions(kb, pool, c, q, i, acc)
         == RuleSolutions(kb, pool, rv.cache, q, i + 1, if rv.result.result then acc + [SolutionOf(q.args, rq.args)] else acc)
  {
    RuleQueryAskable(kb, pool, q, kb.rules[i]);
  }

  /** The solution a matching rule contributes to Held, given its rule
      query's finished entry. */
  lemma HeldStep(rules: seq<Rule>, q: Query, i: nat, c: Cache, v: QueryResult)
    requires i < |rules| && RuleMatches(rules[i], q)
    requires RuleQueryOf(rules[i], q) in c && c[RuleQueryOf(rules[i], q)] == Done(v)
    ensures Held(rules, q, i, c)
            == (if v.result then [SolutionOf(q.args, RuleQueryOf(rules[i], q).args)] else []) + Held(rules, q, i + 1, c)
  {
  }

  /** A rule of another name or arity adds nothing to the enumeration. */
  lemma RuleSolutionsSkip(kb: Kb, pool: Pool, c: Cache, q: Query, i: nat, acc: seq<Solution>)
    requires Ready(kb, pool, c) && Askable(pool, q) && HasAtoms(q.args) && q in c && i < |kb.rules|
    requires !RuleMatches(kb.rules[i], q)
    ensures RuleSolutions(kb, pool, c, q, i, acc) == RuleSolutions(kb, pool, c, q, i + 1, acc)
    ensures Held(kb.rules, q, i, RuleSolutions(kb, pool, c, q, i, acc).cache)
            == Held(kb.rules, q, i + 1, RuleSolutions(kb, pool, c, q, i, acc).cache)
  {
  }

  /** The step of RuleSolutionsExact for a rule of the query's name and
      arity: its rule query finished as `v`, the enumeration of the rest
      gave `out` from a cache that only grew. */
  lemma RuleSolutionsExactStep(rules: seq<Rule>, q: Query, i: nat, acc: seq<Solution>, v: QueryResult, c1: Cache, out: Found)
    requires i < |rules| && RuleMatches(rules[i], q)
    requires RuleQueryOf(rules[i], q) in c1 && c1[RuleQueryOf(rules[i], q)] == Done(v)
    requires out.Found? && Grows(c1, out.cache)
    requires out.solutions
             == (if v.result then acc + [SolutionOf(q.args, RuleQueryOf(rules[i], q).args)] else acc)
                + Held(rules, q, i + 1, out.cache)
    ensures out.solutions == acc + Held(rules, q, i, out.cache)
  {
    var here := if v.result then [SolutionOf(q.args, RuleQueryOf(rules[i], q).args)] else [];
    HeldStep(rules, q, i, out.cache, v);
    assert (acc + here) + Held(rules, q, i + 1, out.cache) == acc + (here + Held(rules, q, i + 1, out.cache));
  }

  /** Rule enumeration appends exactly the solutions of the matching rules
      whose rule query ends up finished and true, once each and in rule
      order. */
  lemma {:induction false} RuleSolutionsExact(kb: Kb, pool: Pool, c: Cache, q: Query, i: nat, acc: seq<Solution>)
    requires Ready(kb, pool, c) && Askable(pool, q) && HasAtoms(q.args) && q in c && i <= |kb.rules|
    ensures var out := RuleSolutions(kb, pool, c, q, i, acc);
      out.Found? ==> out.solutions == acc + Held(kb.rules, q, i, out.cache)
    decreases |kb.rules| - i
  {
    if i == |kb.rules| {
      assert acc + [] == acc;
    } else if !RuleMatches(kb.rules[i], q) {
      RuleSolutionsSkip(kb, pool, c, q, i, acc);
      RuleSolutionsExact(kb, pool, c, q, i + 1, acc);
    } else if RuleSolutions(kb, pool, c, q, i, acc).Found? {
      RuleSolutionsStep(kb, pool, c, q, i, acc);
      var rq := RuleQueryOf(kb.rules[i], q);
      var rv := Resolve(kb, pool, c, rq);
      var more := if rv.result.result then acc + [SolutionOf(q.args, rq.args)] else acc;
      RuleSolutionsExact(kb, pool, rv.cache, q, i + 1, more);
      var out := RuleSolutions(kb, pool, rv.cache, q, i + 1, more);
      RuleSolutionsExactStep(kb.rules, q, i, acc, rv.result, rv.cache, out);
    }
  }

  /** Solution mode, unfolded: the stored result carries the enumeration's
      solutions over the cache the enumeration left. */
  lemma EnumerateUnfold(kb: Kb, pool: Pool, c: Cache, q: Query)
    requires Ready(kb, pool, c) && Askable(pool, q) && HasAtoms(q.args) && q in c
    ensures var out := Enumerate(kb, pool, c, q);
      var found := RuleSolutions(kb, pool, c, q, 0, FactSolutions(kb.facts, q));
      out.Resolved? ==>
        && found.Found? && out.result.solutions.value == found.solutions
        && out.cache == found.cache[q := Done(out.result)]
  {
  }

  /** The solutions after the fact solutions come from matching rules. */
  lemma SuffixFromMatchingRule(rules: seq<Rule>, q: Query, pre: seq<Solution>, c1: Cache, sols: seq<Solution>)
    requires sols == pre + Held(rules, q, 0, c1)
    ensures forall k :: |pre| <= k < |sols| ==> FromMatchingRule(rules, q, 0, sols[k])
  {
    var held := Held(rules, q, 0, c1);
    HeldFromMatchingRule(rules, q, 0, c1);
    forall k | |pre| <= k < |sols| ensures FromMatchingRule(rules, q, 0, sols[k]) {
      assert sols[k] == held[k - |pre|];
      assert sols[k] in held;
    }
  }

  /** A matching rule whose rule query is the query itself, asked while the
      query is in progress, meets the query's own marker: the rule query is
      false and the rule adds no solution. */
  lemma SelfRuleAddsNothing(kb: Kb, pool: Pool, c: Cache, q: Query, i: nat, acc: seq<Solution>)
    requires Ready(kb, pool, c) && Askable(pool, q) && HasAtoms(q.args) && q in c && i < |kb.rules|
    requires RuleMatches(kb.rules[i], q) && DistinctAtoms(kb.rules[i].args) && RuleQueryOf(kb.rules[i], q) == q
    requires c[q].InProgress?
    ensures Ready(kb, pool, c[q := Done(CycleResult(q))])
    ensures RuleSolutions(kb, pool, c, q, i, acc) == RuleSolutions(kb, pool, c[q := Done(CycleResult(q))], q, i + 1, acc)
  {
    StoreReady(kb, pool, c, q, CycleResult(q));
    RuleQueryAskable(kb, pool, q, kb.rules[i]);
  }

  /** Solution mode: the fact solutions in fact order, then exactly the
      solutions of the rules whose rule query holds in the cache the
      enumeration leaves, in rule order; the stored result is the returned
      one. */
  lemma FactsThenRules(kb: Kb, pool: Pool, c: Cache, q: Query)
    requires Ready(kb, pool, c) && Askable(pool, q) && HasAtoms(q.args) && q in c
    ensures var out := Enumerate(kb, pool, c, q);
      var found := RuleSolutions(kb, pool, c, q, 0, FactSolutions(kb.facts, q));
      out.Resolved? ==>
        && out.result.solutions.value == FactSolutions(kb.facts, q) + Held(kb.rules, q, 0, found.cache)
        && out.cache == found.cache[q := Done(out.result)]
    ensures var out := Enumerate(kb, pool, c, q);
      out.Resolved? ==> forall k :: |FactSolutions(kb.facts, q)| <= k < |out.result.solutions.value| ==>
        FromMatchingRule(kb.rules, q, 0, out.result.solutions.value[k])
  {
    var out := Enumerate(kb, pool, c, q);
    if out.Resolved? {
      EnumerateUnfold(kb, pool, c, q);
      var found := RuleSolutions(kb, pool, c, q, 0, FactSolutions(kb.facts, q));
      RuleSolutionsExact(kb, pool, c, q, 0, FactSolutions(kb.facts, q));
      SuffixFromMatchingRule(kb.rules, q, FactSolutions(kb.facts, q), found.cache, out.result.solutions.value);
    }
  }
}
