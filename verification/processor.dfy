/** The earlier, fact-only interpreter: it loads a program the same way as the
    resolver but answers each query by looking it up among the facts, with no
    rules, no cache and no solutions. */
module LogikekProcessor {
  import opened Clauses
  import opened Resolution
  import opened ResolutionProperties
  import opened Loading

  class Processor {
    /** False until the first Run: the source's lists are null then. */
    var loaded: bool
    var facts: seq<Fact>
    var queries: seq<Query>
    var rules: seq<Rule>

    /** The static fields before any Run: nothing is loaded. */
    constructor()
      ensures !loaded
      ensures facts == [] && queries == [] && rules == []
    {
      loaded, facts, queries, rules := false, [], [], [];
    }

    /** A query is true iff it has no atoms and some fact has its name and,
        position by position, its arguments. The answer never carries
        solutions. */
    function ResolveQuery(q: Query): (r: QueryResult)
      reads this`facts
      ensures r.theQuery == q && r.solutions.None?
      ensures r.result <==> (!HasAtoms(q.args) &&
        exists i :: 0 <= i < |facts| && facts[i].name == q.name && facts[i].args == q.args)
    {
      if IsSimple(q) && FactHolds(facts, q) then TrueResult(q) else FalseResult(q)
    }

    /** The answers to `qs`, one per query and in the same order. */
    function Answers(qs: seq<Query>): (rs: seq<QueryResult>)
      reads this`facts
      ensures |rs| == |qs|
      ensures forall i :: 0 <= i < |qs| ==> rs[i] == ResolveQuery(qs[i])
    {
      if qs == [] then [] else [ResolveQuery(qs[0])] + Answers(qs[1..])
    }

    /** Loads a text into fresh lists (facts with atoms become errors) and
        answers every query; the errors win if there are any. */
    method Run(code: string, g: Grammar) returns (res: ProcessResult)
      modifies this
      ensures loaded
      ensures facts == Load(Lines(code), g).facts
      ensures queries == Load(Lines(code), g).queries
      ensures rules == Load(Lines(code), g).rules
      ensures res == if Load(Lines(code), g).errors != [] then ErrorsResult(Load(Lines(code), g).errors)
                     else QueriesResult(Answers(queries))
    {
      var program := LoadLines(code, g);
      loaded := true;
      facts := program.facts;
      queries := program.queries;
      rules := program.rules;
      var results := Answers(queries);
      res := if |program.errors| > 0 then ErrorsResult(program.errors) else QueriesResult(results);
    }

    /** Parses one query from a trimmed text and answers it from the facts; a
        text that is not a query gives one error at line 0. Before any Run
        the fact list is null, and `Enumerable.Any` over it throws for a
        simple query. */
    method EvaluateQuery(code: string, g: Grammar) returns (res: Outcome<ProcessResult>)
      ensures g.query(Trim(code)).Failed? ==>
        res == Success(ErrorsResult([ParseError(SyntaxError, 0, g.query(Trim(code)).column)]))
      ensures g.query(Trim(code)).Parsed? && IsSimple(g.query(Trim(code)).value) && !loaded ==>
        res == Failure(ArgumentNull)
      ensures g.query(Trim(code)).Parsed? && (loaded || !IsSimple(g.query(Trim(code)).value)) ==>
        res == Success(QueriesResult([ResolveQuery(g.query(Trim(code)).value)]))
    {
      var query := g.query(Trim(code));
      if query.Parsed? {
        if IsSimple(query.value) && !loaded {
          // Enumerable.Any with a null source
          return Failure(ArgumentNull);
        }
        res := Success(QueriesResult([ResolveQuery(query.value)]));
      } else {
        res := Success(ErrorsResult([ParseError(SyntaxError, 0, query.column)]));
      }
    }
  }

  /** Without rules, the resolver answers a new atom-free query exactly as the
      fact-only interpreter does. */
  lemma ResolverAgreesWithoutRules(p: Processor, pool: Pool, c: Cache, q: Query)
    requires Ready(Kb(p.facts, []), pool, c) && Askable(pool, q) && q !in c
    requires !HasAtoms(q.args)
    ensures Resolve(Kb(p.facts, []), pool, c, q).Resolved?
    ensures Resolve(Kb(p.facts, []), pool, c, q).result == p.ResolveQuery(q)
  {
    if !FactHolds(p.facts, q) {
      UnsupportedQueryIsFalse(Kb(p.facts, []), pool, c, q);
    }
  }

  /** Whatever the rules, a new atom-free query the facts answer is true for
      the resolver as well: the resolver looks at the facts before any rule. */
  lemma ResolverKeepsFactAnswers(p: Processor, rules: seq<Rule>, pool: Pool, c: Cache, q: Query)
    requires Ready(Kb(p.facts, rules), pool, c) && Askable(pool, q) && q !in c
    requires p.ResolveQuery(q).result
    ensures Resolve(Kb(p.facts, rules), pool, c, q).Resolved?
    ensures Resolve(Kb(p.facts, rules), pool, c, q).result == p.ResolveQuery(q)
  {
  }
}
