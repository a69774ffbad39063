/** Folding the result of one rule-body condition into the result of the
    conditions before it. */
module Combinator {
  import opened ConditionOperators
  import opened Clauses

  /** One binding in string form. */
  function Entry(key: string, value: string): string {
    key + "=" + value + ";"
  }

  /** A solution in string form: each binding as `key=value;`, in insertion order.
      The source folds from the left; concatenation is associative, so the
      string is the same. */
  function Stringify(d: Solution): (r: string)
    ensures |r| >= 2 * |d|
    ensures r == [] <==> d == []
  {
    if d == [] then "" else Entry(d[0].0, d[0].1) + Stringify(d[1..])
  }

  /** The string forms of a list of solutions, in order. */
  function Stringified(sols: seq<Solution>): (r: seq<string>)
    ensures |r| == |sols|
    ensures forall i :: 0 <= i < |sols| ==> r[i] == Stringify(sols[i])
  {
    if sols == [] then [] else [Stringify(sols[0])] + Stringified(sols[1..])
  }

  /** `a` keeps some of the elements of `b`, in their order. */
  ghost predicate IsSubsequence<T>(a: seq<T>, b: seq<T>)
    decreases |b|
  {
    if a == [] then true
    else if b == [] then false
    else if a[0] == b[0] then IsSubsequence(a[1..], b[1..])
    else IsSubsequence(a, b[1..])
  }

  /** The solutions of `sols`, in order, whose string form is one of `keys`. */
  function KeepMatching(sols: seq<Solution>, keys: seq<string>): (r: seq<Solution>)
    ensures IsSubsequence(r, sols)
    ensures forall s :: s in r <==> s in sols && Stringify(s) in keys
    ensures forall s :: multiset(r)[s] == if Stringify(s) in keys then multiset(sols)[s] else 0
  {
    if sols == [] then []
    else
      assert sols == [sols[0]] + sols[1..];
      if Stringify(sols[0]) in keys then [sols[0]] + KeepMatching(sols[1..], keys)
      else KeepMatching(sols[1..], keys)
  }

  /** Combines the accumulated result `v1` (None before the first condition)
      with the next condition's result `v2` under the next condition's operator. */
  function ApplyLogicalOperator(v1: Option<QueryResult>, op: Option<ConditionOperator>, v2: QueryResult): (r: QueryResult)
    // the fold is seeded with the first condition's result
    ensures v1.None? ==> r == v2
    // AND without bindings on either side: boolean conjunction
    ensures v1.Some? && op == Some(And) && v1.value.solutions.None? && v2.solutions.None?
            ==> r == QueryResult(v1.value.result && v2.result, v2.theQuery, None)
    // AND with bindings on some side: a solution list, true iff non-empty
    ensures v1.Some? && op == Some(And) && (v1.value.solutions.Some? || v2.solutions.Some?)
            ==> r.theQuery == v2.theQuery && r.solutions.Some? && (r.result <==> |r.solutions.value| > 0)
    ensures v1.Some? && op == Some(And) && v1.value.solutions.Some? && v2.solutions.None?
            ==> r.solutions == v1.value.solutions
    ensures v1.Some? && op == Some(And) && v1.value.solutions.None? && v2.solutions.Some?
            ==> r.solutions == v2.solutions
    ensures v1.Some? && op == Some(And) && v1.value.solutions.Some? && v2.solutions.Some?
            ==> IsSubsequence(r.solutions.value, v1.value.solutions.value)
                && forall s :: s in r.solutions.value <==>
                     s in v1.value.solutions.value && Stringify(s) in Stringified(v2.solutions.value)
    // ... each kept solution as often as on the left
    ensures v1.Some? && op == Some(And) && v1.value.solutions.Some? && v2.solutions.Some?
            ==> forall s :: multiset(r.solutions.value)[s] ==
                  if Stringify(s) in Stringified(v2.solutions.value) then multiset(v1.value.solutions.value)[s] else 0
    // anything but AND: the first true operand, else a false result without bindings
    ensures v1.Some? && op != Some(And) ==> (r.result <==> v1.value.result || v2.result)
    ensures v1.Some? && op != Some(And) && v1.value.result ==> r == v1.value
    ensures v1.Some? && op != Some(And) && !v1.value.result && v2.result ==> r == v2
    ensures v1.Some? && op != Some(And) && !r.result ==> r == FalseResult(v2.theQuery)
  {
    if v1.None? then v2
    else if op == Some(And) then
      var a := v1.value;
      if a.solutions.Some? then
        if v2.solutions.Some? then
          var kept := KeepMatching(a.solutions.value, Stringified(v2.solutions.value));
          QueryResult(|kept| > 0, v2.theQuery, Some(kept))
        else
          QueryResult(|a.solutions.value| > 0, v2.theQuery, a.solutions)
      else if v2.solutions.Some? then
        QueryResult(|v2.solutions.value| > 0, v2.theQuery, v2.solutions)
      else
        QueryResult(a.result && v2.result, v2.theQuery, None)
    else if v1.value.result then v1.value
    else if v2.result then v2
    else FalseResult(v2.theQuery)
  }

  /** Keys without '=' and values without ';': the shape of the names the
      grammar produces. */
  ghost predicate SeparatorFree(d: Solution) {
    forall p :: p in d ==> '=' !in p.0 && ';' !in p.1
  }

  /** Where the separator and the head sit in `x + [c] + xs`. */
  lemma JoinedAt(x: string, c: char, xs: string)
    ensures (x + [c] + xs)[|x|] == c
    ensures forall i :: 0 <= i < |x| ==> (x + [c] + xs)[i] == x[i]
  {
  }

  /** Two strings cut at their first occurrence of a separator that neither
      head contains. */
  lemma SplitAtSeparator(x: string, y: string, xs: string, ys: string, c: char)
    requires c !in x && c !in y
    requires x + [c] + xs == y + [c] + ys
    ensures x == y && xs == ys
  {
    var l := x + [c] + xs;
    var m := y + [c] + ys;
    JoinedAt(x, c, xs);
    JoinedAt(y, c, ys);
    if |x| < |y| {
      assert false;
    } else if |y| < |x| {
      assert false;
    }
    assert x == l[..|x|] && y == m[..|y|];
    assert xs == l[|x| + 1..] && ys == m[|y| + 1..];
  }

  /** For separator-free solutions the string form determines the solution, so
      the string comparison in an AND compares the solutions themselves. */
  lemma {:induction false} StringifyInjective(d1: Solution, d2: Solution)
    requires SeparatorFree(d1) && SeparatorFree(d2)
    requires Stringify(d1) == Stringify(d2)
    ensures d1 == d2
    decreases |d1|
  {
    if d1 != [] {
      assert d2 != [];
      var (k1, v1) := d1[0];
      var (k2, v2) := d2[0];
      assert d1[0] in d1 && d2[0] in d2;
      var r1 := Stringify(d1[1..]);
      var r2 := Stringify(d2[1..]);
      assert k1 + "=" + (v1 + ";" + r1) == Stringify(d1);
      assert k2 + "=" + (v2 + ";" + r2) == Stringify(d2);
      SplitAtSeparator(k1, k2, v1 + ";" + r1, v2 + ";" + r2, '=');
      SplitAtSeparator(v1, v2, r1, r2, ';');
      assert SeparatorFree(d1[1..]) by {
        forall p | p in d1[1..] ensures '=' !in p.0 && ';' !in p.1 { assert p in d1; }
      }
      assert SeparatorFree(d2[1..]) by {
        forall p | p in d2[1..] ensures '=' !in p.0 && ';' !in p.1 { assert p in d2; }
      }
      StringifyInjective(d1[1..], d2[1..]);
      assert d1 == [d1[0]] + d1[1..] && d2 == [d2[0]] + d2[1..];
    }
  }

  /** With separator-free bindings, an AND of two solution lists keeps exactly
      the solutions of the left list that also occur in the right one. */
  lemma AndKeepsCommonSolutions(v1: QueryResult, v2: QueryResult, s: Solution)
    requires v1.solutions.Some? && v2.solutions.Some?
    requires forall d :: d in v1.solutions.value ==> SeparatorFree(d)
    requires forall d :: d in v2.solutions.value ==> SeparatorFree(d)
    ensures s in ApplyLogicalOperator(Some(v1), Some(And), v2).solutions.value <==>
            s in v1.solutions.value && s in v2.solutions.value
  {
    var keys := Stringified(v2.solutions.value);
    if s in v1.solutions.value && Stringify(s) in keys {
      var i :| 0 <= i < |keys| && keys[i] == Stringify(s);
      StringifyInjective(s, v2.solutions.value[i]);
    }
    if s in v2.solutions.value {
      var i :| 0 <= i < |v2.solutions.value| && v2.solutions.value[i] == s;
      assert keys[i] == Stringify(s);
    }
  }
}
