/** The clause model of the Logikek language: arguments, facts, rules,
    conditions, queries and query results. All of them are values. */
module Clauses {
  import opened ConditionOperators

  datatype Option<T> = None | Some(value: T)

  /** The .NET exceptions the interpreter can raise: `Dictionary.Add` with a
      key already present, an instance member call on a dictionary that is
      still null, and `Enumerable.Any` given a list that is still null. */
  datatype Exception = DuplicateKey | NullReference | ArgumentNull

  /** A value, or the exception that ended the computation. */
  datatype Outcome<T> = Success(value: T) | Failure(error: Exception) {
    predicate IsFailure() {
      Failure?
    }

    function PropagateFailure<U>(): Outcome<U>
      requires Failure?
    {
      Failure(error)
    }

    function Extract(): T
      requires Success?
    {
      value
    }
  }

  /** A clause argument: a constant, or an atom (a variable) when isAtom holds. */
  datatype Arg = Arg(name: string, isAtom: bool)

  /** A query: a relation name applied to positional arguments. */
  datatype Query = Query(name: string, args: seq<Arg>)

  /** A fact: a relation name applied to (normally constant) arguments. */
  datatype Fact = Fact(name: string, args: seq<Arg>)

  /** One condition of a rule body: a clause that may be negated. */
  datatype Condition = Condition(name: string, args: seq<Arg>, isNegated: bool)

  /** A condition together with the operator that joins it to the one before it
      (absent for the first condition of a body). */
  datatype RuleCondition = RuleCondition(condition: Condition, op: Option<ConditionOperator>)

  /** A rule: a head (name and formal arguments) and a body of conditions. */
  datatype Rule = Rule(name: string, args: seq<Arg>, conditions: seq<RuleCondition>)

  /** One solution: the bindings of atom names to constant names, in the order
      they were added. */
  type Solution = seq<(string, string)>

  /** The answer to a query. `solutions` is None in boolean mode. */
  datatype QueryResult = QueryResult(result: bool, theQuery: Query, solutions: Option<seq<Solution>>)

  /** True iff some argument is an atom. */
  predicate HasAtoms(args: seq<Arg>) {
    exists a :: a in args && a.isAtom
  }

  /** A query without atoms is "simple": it is answered true or false. */
  predicate IsSimple(q: Query) {
    !HasAtoms(q.args)
  }

  /** No two atom arguments share a name. The source builds dictionaries keyed
      by atom names with Add, which throws on a repeated key. */
  predicate DistinctAtoms(args: seq<Arg>) {
    forall i, j :: 0 <= i < j < |args| && args[i].isAtom && args[j].isAtom ==> args[i].name != args[j].name
  }

  /** Some fact has the query's name and exactly its argument list. */
  function FactHolds(facts: seq<Fact>, q: Query): (r: bool)
    ensures r <==> exists i :: 0 <= i < |facts| && facts[i].name == q.name && facts[i].args == q.args
  {
    if facts == [] then false
    else (facts[0].name == q.name && facts[0].args == q.args) || FactHolds(facts[1..], q)
  }

  /** The boolean-mode answers. */
  function TrueResult(q: Query): QueryResult {
    QueryResult(true, q, None)
  }

  function FalseResult(q: Query): QueryResult {
    QueryResult(false, q, None)
  }
}
