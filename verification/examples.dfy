/** Small programs run through the resolver's specification, showing the
    order in which it consults facts, rules and the cache. */
module LogikekExamples {
  import opened Clauses
  import opened Substitution
  import opened Combinator
  import opened Resolution
  import opened ResolutionProperties

  const p := Arg("p", false)
  const s := Arg("s", false)
  const X := Arg("X", true)

  /** The fact A(p). */
  const FactAp := Fact("A", [p])

  /** The fact R(p). */
  const FactRp := Fact("R", [p])

  /** The rule R(X): A(X). */
  const RuleRfromA := Rule("R", [X], [RuleCondition(Condition("A", [X], false), None)])

  /** The rule R(X): R(X), which refers to itself. */
  const RuleRfromR := Rule("R", [X], [RuleCondition(Condition("R", [X], false), None)])

  const Ap := Query("A", [p])
  const Rp := Query("R", [p])
  const AX := Query("A", [X])
  const RX := Query("R", [X])

  /** The only condition of R(X): A(X), asked for R(p), is A(p). */
  lemma ConditionOfRp()
    ensures ConditionQueryOf(RuleRfromA, Rp, RuleRfromA.conditions[0].condition) == Ap
  {
    assert Bindings([X], [p]) == map["X" := p];
    assert Substitute([X], [p], [X]) == [p];
  }

  // Each example is proved for any pool that bounds it, one resolver step
  // per lemma; the last lemma of each instantiates the pool of the program.

  /** The pool of a program's queries, ready for an empty cache. */
  lemma ProgramPool(kb: Kb, qs: seq<Query>)
    ensures Ready(kb, PoolOf(kb.rules, set x | x in qs), map[])
    ensures forall q :: q in qs ==> Askable(PoolOf(kb.rules, set x | x in qs), q)
  {
    PoolOfCovers(kb.rules, set x | x in qs);
  }

  /** Resolving one query from an empty cache, as a batch of one. */
  lemma SingleBatch(kb: Kb, pool: Pool, q: Query)
    requires Ready(kb, pool, map[]) && Askable(pool, q)
    ensures var r := Resolve(kb, pool, map[], q);
      ResolveAll(kb, pool, map[], [q]) == if r.Resolved? then Batch([r.result], r.cache) else BatchThrew(r.cache)
  {
    assert [q][..0] == [];
    assert ResolveAll(kb, pool, map[], []) == Batch([], map[]);
  }

  /** Resolving two queries from an empty cache: the second one sees the
      cache the first one left. */
  lemma PairBatch(kb: Kb, pool: Pool, q1: Query, q2: Query)
    requires Ready(kb, pool, map[]) && Askable(pool, q1) && Askable(pool, q2)
    requires Resolve(kb, pool, map[], q1).Resolved?
    ensures var r1 := Resolve(kb, pool, map[], q1);
      var r2 := Resolve(kb, pool, r1.cache, q2);
      ResolveAll(kb, pool, map[], [q1, q2]) == if r2.Resolved? then Batch([r1.result, r2.result], r2.cache) else BatchThrew(r2.cache)
  {
    SingleBatch(kb, pool, q1);
    assert [q1, q2][..1] == [q1];
    assert ResolveAll(kb, pool, map[], [q1]).cache == Resolve(kb, pool, map[], q1).cache by {
      assert [q1][..0] == [];
    }
  }

  /** A new atom-free query that a fact answers is stored as true at once. */
  lemma FactAnswersAtOnce(kb: Kb, pool: Pool, c: Cache, q: Query)
    requires Ready(kb, pool, c) && Askable(pool, q) && q !in c
    requires !HasAtoms(q.args) && FactHolds(kb.facts, q)
    ensures Resolve(kb, pool, c, q) == Resolved(TrueResult(q), c[q := Done(TrueResult(q))])
  {
  }

  /** A new query that no fact answers is marked in progress and answered
      by Answer. */
  lemma MarkedThenAnswered(kb: Kb, pool: Pool, c: Cache, q: Query)
    requires Ready(kb, pool, c) && Askable(pool, q) && q !in c
    requires HasAtoms(q.args) || !FactHolds(kb.facts, q)
    ensures Ready(kb, pool, c[q := InProgress])
    ensures Resolve(kb, pool, c, q) == Answer(kb, pool, c[q := InProgress], q)
  {
    MarkReady(kb, pool, c, q);
  }

  /** R(p) marked in progress, its condition A(p) not cached: the fact
      answers A(p) and the rule makes R(p) true. */
  lemma RuleFiresOnFact(pool: Pool)
    requires Ready(Kb([FactAp], [RuleRfromA]), pool, map[Rp := InProgress]) && Askable(pool, Rp)
    ensures Deduce(Kb([FactAp], [RuleRfromA]), pool, map[Rp := InProgress], Rp, 0).Answered?
    ensures Deduce(Kb([FactAp], [RuleRfromA]), pool, map[Rp := InProgress], Rp, 0).result == TrueResult(Rp)
  {
    var kb := Kb([FactAp], [RuleRfromA]);
    var c1 := map[Rp := InProgress];
    ConditionOfRp();
    var c2 := c1[Ap := Done(TrueResult(Ap))];
    assert FactHolds(kb.facts, Ap);
    FactAnswersAtOnce(kb, pool, c1, Ap);
    assert EvalBody(kb, pool, c2, Rp, RuleRfromA, 1, Some(TrueResult(Ap))) == Folded(Some(TrueResult(Ap)), c2);
  }

  /** For any bounding pool, R(p) asked first is true. */
  lemma RuleAnswersFirst(pool: Pool)
    requires Ready(Kb([FactAp], [RuleRfromA]), pool, map[]) && Askable(pool, Rp)
    ensures Resolve(Kb([FactAp], [RuleRfromA]), pool, map[], Rp).Resolved?
    ensures Resolve(Kb([FactAp], [RuleRfromA]), pool, map[], Rp).result == TrueResult(Rp)
  {
    var kb := Kb([FactAp], [RuleRfromA]);
    assert !FactHolds(kb.facts, Rp);
    MarkedThenAnswered(kb, pool, map[], Rp);
    RuleFiresOnFact(pool);
    AnswerOrder(kb, pool, map[Rp := InProgress], Rp);
  }

  /** Asked alone, R(p) follows from the fact A(p) through the rule. */
  lemma RuleAnswersAlone()
    ensures RunQueries(Kb([FactAp], [RuleRfromA]), [Rp]).Value() == Success([TrueResult(Rp)])
  {
    var kb := Kb([FactAp], [RuleRfromA]);
    ProgramPool(kb, [Rp]);
    var pool := PoolOf(kb.rules, set x | x in [Rp]);
    RuleAnswersFirst(pool);
    SingleBatch(kb, pool, Rp);
  }

  /** R(p) marked in progress with A(p) already answered: the cached
      condition aborts the rule body and R(p) is false. */
  lemma CachedConditionAborts(pool: Pool)
    requires Ready(Kb([FactAp], [RuleRfromA]), pool, map[Ap := Done(TrueResult(Ap)), Rp := InProgress])
    requires Askable(pool, Rp)
    ensures Deduce(Kb([FactAp], [RuleRfromA]), pool, map[Ap := Done(TrueResult(Ap)), Rp := InProgress], Rp, 0).Answered?
    ensures Deduce(Kb([FactAp], [RuleRfromA]), pool, map[Ap := Done(TrueResult(Ap)), Rp := InProgress], Rp, 0).result
            == FalseResult(Rp)
  {
    var kb := Kb([FactAp], [RuleRfromA]);
    var c2 := map[Ap := Done(TrueResult(Ap)), Rp := InProgress];
    ConditionOfRp();
    assert EvalBody(kb, pool, c2, Rp, RuleRfromA, 0, None) == Aborted(c2);
  }

  /** For any bounding pool, R(p) asked after A(p) is false. */
  lemma RuleAnswersSecond(pool: Pool)
    requires Ready(Kb([FactAp], [RuleRfromA]), pool, map[Ap := Done(TrueResult(Ap))]) && Askable(pool, Rp)
    ensures Resolve(Kb([FactAp], [RuleRfromA]), pool, map[Ap := Done(TrueResult(Ap))], Rp).Resolved?
    ensures Resolve(Kb([FactAp], [RuleRfromA]), pool, map[Ap := Done(TrueResult(Ap))], Rp).result == FalseResult(Rp)
  {
    var kb := Kb([FactAp], [RuleRfromA]);
    var c1 := map[Ap := Done(TrueResult(Ap))];
    assert !FactHolds(kb.facts, Rp);
    MarkedThenAnswered(kb, pool, c1, Rp);
    CachedConditionAborts(pool);
    AnswerOrder(kb, pool, c1[Rp := InProgress], Rp);
  }

  /** Asked after A(p), R(p) is false: the condition A(p) is already cached
      while R(p) is still in progress, and that aborts the rule body. The
      answer of a query depends on the queries asked before it. */
  lemma CachedConditionAbortsRule()
    ensures RunQueries(Kb([FactAp], [RuleRfromA]), [Ap, Rp]).Value() == Success([TrueResult(Ap), FalseResult(Rp)])
  {
    var kb := Kb([FactAp], [RuleRfromA]);
    ProgramPool(kb, [Ap, Rp]);
    var pool := PoolOf(kb.rules, set x | x in [Ap, Rp]);
    assert FactHolds(kb.facts, Ap);
    FactAnswersAtOnce(kb, pool, map[], Ap);
    RuleAnswersSecond(pool);
    PairBatch(kb, pool, Ap, Rp);
  }

  /** R(p) marked in progress under R(X): R(X): its only condition is R(p)
      itself, found in the cache, and R(p) is false. */
  lemma SelfReferenceAborts(pool: Pool)
    requires Ready(Kb([], [RuleRfromR]), pool, map[Rp := InProgress]) && Askable(pool, Rp)
    ensures Deduce(Kb([], [RuleRfromR]), pool, map[Rp := InProgress], Rp, 0).Answered?
    ensures Deduce(Kb([], [RuleRfromR]), pool, map[Rp := InProgress], Rp, 0).result == FalseResult(Rp)
  {
    var kb := Kb([], [RuleRfromR]);
    var c1 := map[Rp := InProgress];
    assert Bindings([X], [p]) == map["X" := p];
    assert Substitute([X], [p], [X]) == [p];
    assert ConditionQueryOf(RuleRfromR, Rp, RuleRfromR.conditions[0].condition) == Rp;
    assert EvalBody(kb, pool, c1, Rp, RuleRfromR, 0, None) == Aborted(c1);
  }

  /** A rule that refers to itself ends: the query meets its own marker in
      the cache and is answered false. */
  lemma SelfReferenceIsFalse()
    ensures RunQueries(Kb([], [RuleRfromR]), [Rp]).Value() == Success([FalseResult(Rp)])
  {
    var kb := Kb([], [RuleRfromR]);
    ProgramPool(kb, [Rp]);
    var pool := PoolOf(kb.rules, set x | x in [Rp]);
    MarkedThenAnswered(kb, pool, map[], Rp);
    SelfReferenceAborts(pool);
    AnswerOrder(kb, pool, map[Rp := InProgress], Rp);
    SingleBatch(kb, pool, Rp);
  }

  /** The head of R(X): A(X) under the binding of its condition A(X) to
      A(p) is R(p). */
  lemma HeadOfAp()
    ensures HeadQueryOf(RuleRfromA, RuleRfromA.conditions[0].condition, Ap) == Rp
  {
    assert Bindings([X], [p]) == map["X" := p];
    assert Substitute([X], [p], [X]) == [p];
  }

  /** A(p) marked in progress, under the fact R(p) and the rule R(X): A(X):
      the rule's condition A(X) matches A(p), the rule's head R(p) is a
      fact, and induction makes A(p) true. */
  lemma HeadFactInduces(pool: Pool)
    requires Ready(Kb([FactRp], [RuleRfromA]), pool, map[Ap := InProgress]) && Askable(pool, Ap)
    ensures Induce(Kb([FactRp], [RuleRfromA]), pool, map[Ap := InProgress], Ap, 0).Answered?
    ensures Induce(Kb([FactRp], [RuleRfromA]), pool, map[Ap := InProgress], Ap, 0).result == TrueResult(Ap)
  {
    var kb := Kb([FactRp], [RuleRfromA]);
    var c1 := map[Ap := InProgress];
    var rc := RuleRfromA.conditions[0];
    assert !FactHolds(kb.facts, Ap);
    assert rc in RuleRfromA.conditions && ConditionMatches(rc.condition, Ap);
    assert PatternMatches(rc.condition, Ap);
    HeadOfAp();
    assert FactHolds(kb.facts, Rp);
    InduceRuleFirstMatchingCondition(kb, pool, c1, Ap, RuleRfromA, 0, 0);
    FactAnswersAtOnce(kb, pool, c1, Rp);
    InduceFirstCandidate(kb, pool, c1, Ap, 0, 0);
  }

  /** For any bounding pool, A(p) asked first is true by induction. */
  lemma InductionAnswersFirst(pool: Pool)
    requires Ready(Kb([FactRp], [RuleRfromA]), pool, map[]) && Askable(pool, Ap)
    ensures Resolve(Kb([FactRp], [RuleRfromA]), pool, map[], Ap).Resolved?
    ensures Resolve(Kb([FactRp], [RuleRfromA]), pool, map[], Ap).result == TrueResult(Ap)
  {
    var kb := Kb([FactRp], [RuleRfromA]);
    var c1 := map[Ap := InProgress];
    assert !FactHolds(kb.facts, Ap);
    MarkedThenAnswered(kb, pool, map[], Ap);
    DeductionNeedsMatchingRule(kb, pool, c1, Ap, 0);
    HeadFactInduces(pool);
    AnswerOrder(kb, pool, c1, Ap);
  }

  /** Induction: with the fact R(p) and the rule R(X): A(X), the query A(p)
      is true, since the head of a rule whose condition is A(p) holds. No
      rule has A as its head, so deduction has nothing to use. */
  lemma InductionFromHead()
    ensures RunQueries(Kb([FactRp], [RuleRfromA]), [Ap]).Value() == Success([TrueResult(Ap)])
  {
    var kb := Kb([FactRp], [RuleRfromA]);
    ProgramPool(kb, [Ap]);
    var pool := PoolOf(kb.rules, set x | x in [Ap]);
    InductionAnswersFirst(pool);
    SingleBatch(kb, pool, Ap);
  }

  /** Without rules, a query with atoms lists exactly its fact solutions. */
  lemma FactsOnlyEnumerated(kb: Kb, pool: Pool, c: Cache, q: Query)
    requires Ready(kb, pool, c) && Askable(pool, q) && HasAtoms(q.args) && q in c && kb.rules == []
    requires DistinctAtoms(q.args)
    ensures Answer(kb, pool, c, q).Resolved?
    ensures Answer(kb, pool, c, q).result
            == QueryResult(|FactSolutions(kb.facts, q)| > 0, q, Some(FactSolutions(kb.facts, q)))
  {
    assert RuleSolutions(kb, pool, c, q, 0, FactSolutions(kb.facts, q)) == Found(FactSolutions(kb.facts, q), c);
  }

  /** The solutions of A(X) over the facts A(p) and A(s). */
  lemma TwoFactSolutions()
    ensures FactSolutions([FactAp, Fact("A", [s])], AX) == [[("X", "p")], [("X", "s")]]
  {
    assert SolutionOf([X], [p]) == [("X", "p")] by { assert [X][..0] == []; }
    assert SolutionOf([X], [s]) == [("X", "s")] by { assert [X][..0] == []; }
    assert FactMatchesPattern(FactAp, AX) && FactMatchesPattern(Fact("A", [s]), AX);
    assert FactSolutions([FactAp], AX) == [[("X", "p")]] by { assert [FactAp][..0] == []; }
    assert [FactAp, Fact("A", [s])][..1] == [FactAp];
  }

  /** A query with an atom lists one solution per matching fact, in fact
      order. */
  lemma FactsEnumerated()
    ensures RunQueries(Kb([FactAp, Fact("A", [s])], []), [AX]).Value()
            == Success([QueryResult(true, AX, Some([[("X", "p")], [("X", "s")]]))])
  {
    var kb := Kb([FactAp, Fact("A", [s])], []);
    assert HasAtoms(AX.args) by { assert X in AX.args; }
    ProgramPool(kb, [AX]);
    var pool := PoolOf(kb.rules, set x | x in [AX]);
    MarkedThenAnswered(kb, pool, map[], AX);
    FactsOnlyEnumerated(kb, pool, map[AX := InProgress], AX);
    TwoFactSolutions();
    SingleBatch(kb, pool, AX);
  }

  /** The rule query of R(X): A(X) for the query R(X) is R(X) itself. */
  lemma RuleQueryOfRX()
    ensures RuleQueryOf(RuleRfromA, RX) == RX
  {
    assert Bindings([X], [X]) == map["X" := X];
    assert Substitute([X], [X], [X]) == [X];
  }

  /** R(X) marked in progress, under the fact A(p) and the rule R(X): A(X):
      no fact is of relation R, and the rule's query is R(X) itself, which
      meets its own marker; R(X) has no solution. */
  lemma SelfRuleQueryEnumerates(pool: Pool)
    requires Ready(Kb([FactAp], [RuleRfromA]), pool, map[RX := InProgress]) && Askable(pool, RX)
    ensures Answer(Kb([FactAp], [RuleRfromA]), pool, map[RX := InProgress], RX).Resolved?
    ensures Answer(Kb([FactAp], [RuleRfromA]), pool, map[RX := InProgress], RX).result == QueryResult(false, RX, Some([]))
  {
    var kb := Kb([FactAp], [RuleRfromA]);
    var c1 := map[RX := InProgress];
    assert HasAtoms(RX.args) by { assert X in RX.args; }
    FactSolutionsSingle(FactAp, RX);
    RuleQueryOfRX();
    SelfRuleAddsNothing(kb, pool, c1, RX, 0, []);
    var c2 := c1[RX := Done(CycleResult(RX))];
    assert RuleSolutions(kb, pool, c2, RX, 1, []) == Found([], c2);
  }

  /** In solution mode a rule whose query is the asked query itself adds no
      solution: with A(p) and R(X): A(X), the query R(X) is false with no
      solutions, although A(p) would bind X to p through the rule. */
  lemma SelfRuleQueryAddsNothing()
    ensures RunQueries(Kb([FactAp], [RuleRfromA]), [RX]).Value() == Success([QueryResult(false, RX, Some([]))])
  {
    var kb := Kb([FactAp], [RuleRfromA]);
    assert HasAtoms(RX.args) by { assert X in RX.args; }
    ProgramPool(kb, [RX]);
    var pool := PoolOf(kb.rules, set x | x in [RX]);
    MarkedThenAnswered(kb, pool, map[], RX);
    SelfRuleQueryEnumerates(pool);
    SingleBatch(kb, pool, RX);
  }
}
