/** Binding rule atoms to query arguments, rewriting argument lists, the
    one-sided pattern match, and the bindings that make up a solution. */
module Substitution {
  import opened Clauses

  /** The dictionary built from a head: every atom of `atoms` is bound to the
      argument of `names` at the same position. */
  function Bindings(atoms: seq<Arg>, names: seq<Arg>): (m: map<string, Arg>)
    requires |atoms| <= |names|
    ensures forall n :: n in m ==> m[n] in names[..|atoms|]
    decreases |atoms|
  {
    if atoms == [] then map[]
    else
      var last := |atoms| - 1;
      var m := Bindings(atoms[..last], names);
      if atoms[last].isAtom then m[atoms[last].name := names[last]] else m
  }

  /** The dictionary's keys are exactly the names of the head's atoms. */
  lemma {:induction false} BindingsKeys(atoms: seq<Arg>, names: seq<Arg>)
    requires |atoms| <= |names|
    ensures forall n :: n in Bindings(atoms, names) <==>
      exists k :: 0 <= k < |atoms| && atoms[k].isAtom && atoms[k].name == n
    decreases |atoms|
  {
    if atoms != [] {
      var last := |atoms| - 1;
      BindingsKeys(atoms[..last], names);
      assert forall k :: 0 <= k < last ==> atoms[..last][k] == atoms[k];
    }
  }

  /** Extending the head by one argument extends the dictionary by at most one entry. */
  lemma BindingsStep(atoms: seq<Arg>, names: seq<Arg>, n: nat)
    requires n < |atoms| <= |names|
    ensures Bindings(atoms[..n + 1], names)
            == if atoms[n].isAtom then Bindings(atoms[..n], names)[atoms[n].name := names[n]]
               else Bindings(atoms[..n], names)
  {
    assert atoms[..n + 1][..n] == atoms[..n];
  }

  /** An atom name is already bound by the part of the head before it exactly
      when an earlier atom has the same name: then `Add` throws. */
  lemma BindingsFresh(atoms: seq<Arg>, names: seq<Arg>, n: nat)
    requires n < |atoms| <= |names| && atoms[n].isAtom
    ensures atoms[n].name in Bindings(atoms[..n], names) <==>
      exists k :: 0 <= k < n && atoms[k].isAtom && atoms[k].name == atoms[n].name
  {
    BindingsKeys(atoms[..n], names);
    assert forall k :: 0 <= k < n ==> atoms[..n][k] == atoms[k];
  }

  /** Atom names stay distinct when a list is extended by one argument iff
      that argument is a constant or an atom whose name is new. */
  lemma DistinctExtend(args: seq<Arg>, n: nat)
    requires n < |args| && DistinctAtoms(args[..n])
    ensures DistinctAtoms(args[..n + 1]) <==>
      !(args[n].isAtom && exists k :: 0 <= k < n && args[k].isAtom && args[k].name == args[n].name)
  {
    var p := args[..n + 1];
    assert forall k :: 0 <= k <= n ==> p[k] == args[k];
    if args[n].isAtom && exists k :: 0 <= k < n && args[k].isAtom && args[k].name == args[n].name {
      var k :| 0 <= k < n && args[k].isAtom && args[k].name == args[n].name;
      assert p[k].name == p[n].name;
    } else {
      forall i, j | 0 <= i < j < |p| && p[i].isAtom && p[j].isAtom ensures p[i].name != p[j].name {
        if j < n {
          assert args[..n][i] == p[i] && args[..n][j] == p[j];
        }
      }
    }
  }

  /** A list whose prefix repeats an atom name repeats it too. */
  lemma DistinctPrefix(args: seq<Arg>, n: nat)
    requires n <= |args|
    ensures DistinctAtoms(args) ==> DistinctAtoms(args[..n])
  {
    assert forall k :: 0 <= k < n ==> args[..n][k] == args[k];
  }

  /** With distinct atom names, the atom at position k is bound to names[k]. */
  lemma {:induction false} BindingsAt(atoms: seq<Arg>, names: seq<Arg>, k: nat)
    requires |atoms| <= |names| && DistinctAtoms(atoms)
    requires k < |atoms| && atoms[k].isAtom
    ensures atoms[k].name in Bindings(atoms, names)
    ensures Bindings(atoms, names)[atoms[k].name] == names[k]
  {
    var last := |atoms| - 1;
    if k < last {
      var prefix := atoms[..last];
      assert prefix[k] == atoms[k];
      BindingsAt(prefix, names, k);
    }
  }

  /** One argument after substitution. */
  function Replace(m: map<string, Arg>, a: Arg): Arg {
    if a.isAtom && a.name in m then m[a.name] else a
  }

  /** The list `target` with every atom that is an atom of `atoms` replaced by the
      argument of `names` at that atom's position. */
  function Substitute(atoms: seq<Arg>, names: seq<Arg>, target: seq<Arg>): (r: seq<Arg>)
    requires |atoms| <= |names|
    ensures |r| == |target|
  {
    var m := Bindings(atoms, names);
    seq(|target|, i requires 0 <= i < |target| => Replace(m, target[i]))
  }

  /** The dictionary of a head, built by `Add` in argument order; `Add`
      throws on an atom name that repeats. */
  method MapAtoms(atoms: seq<Arg>, names: seq<Arg>) returns (result: Outcome<map<string, Arg>>)
    requires |atoms| <= |names|
    ensures result.Failure? <==> !DistinctAtoms(atoms)
    ensures result.Failure? ==> result.error == DuplicateKey
    ensures result.Success? ==> result.value == Bindings(atoms, names)
  {
    var argumentMappings: map<string, Arg> := map[];
    var counter := 0;
    while counter < |atoms|
      invariant 0 <= counter <= |atoms|
      invariant DistinctAtoms(atoms[..counter])
      invariant argumentMappings == Bindings(atoms[..counter], names)
    {
      var ruleArg := atoms[counter];
      BindingsStep(atoms, names, counter);
      DistinctExtend(atoms, counter);
      if ruleArg.isAtom {
        BindingsFresh(atoms, names, counter);
        if ruleArg.name in argumentMappings {
          // Dictionary.Add with a key already present
          DistinctPrefix(atoms, counter + 1);
          return Failure(DuplicateKey);
        }
        argumentMappings := argumentMappings[ruleArg.name := names[counter]];
      }
      counter := counter + 1;
    }
    assert atoms[..|atoms|] == atoms;
    return Success(argumentMappings);
  }

  /** The imperative rewrite: build the dictionary, then replace entries of a
      copy of `target` in place (remove, then insert at the same index). */
  method ReplaceAtomsWithNames(atoms: seq<Arg>, names: seq<Arg>, target: seq<Arg>) returns (result: Outcome<seq<Arg>>)
    requires |atoms| <= |names|
    ensures result.Failure? <==> !DistinctAtoms(atoms)
    ensures result.Failure? ==> result.error == DuplicateKey
    ensures result.Success? ==> result.value == Substitute(atoms, names, target)
  {
    var argumentMappings :- MapAtoms(atoms, names);
    var copy := target;
    var i := 0;
    while i < |copy|
      invariant 0 <= i <= |copy| == |target|
      invariant forall j :: 0 <= j < i ==> copy[j] == Replace(argumentMappings, target[j])
      invariant forall j :: i <= j < |target| ==> copy[j] == target[j]
    {
      if copy[i].isAtom && copy[i].name in argumentMappings {
        var arg := argumentMappings[copy[i].name];
        // RemoveAt(i) followed by Insert(i, arg)
        copy := copy[..i] + [arg] + copy[i + 1..];
      }
      i := i + 1;
    }
    assert forall j :: 0 <= j < |target| ==> copy[j] == Substitute(atoms, names, target)[j];
    return Success(copy);
  }

  /** The shape of a substitution: constants and atoms that are not atoms of
      `atoms` pass through, and an atom named like atoms[k] becomes names[k]. */
  lemma SubstituteShape(atoms: seq<Arg>, names: seq<Arg>, target: seq<Arg>, i: nat)
    requires |atoms| <= |names| && DistinctAtoms(atoms) && i < |target|
    ensures !target[i].isAtom ==> Substitute(atoms, names, target)[i] == target[i]
    ensures target[i].isAtom && (forall k :: 0 <= k < |atoms| && atoms[k].isAtom ==> atoms[k].name != target[i].name)
            ==> Substitute(atoms, names, target)[i] == target[i]
    ensures forall k :: (0 <= k < |atoms| && atoms[k].isAtom && target[i].isAtom && atoms[k].name == target[i].name
                         ==> Substitute(atoms, names, target)[i] == names[k])
  {
    BindingsKeys(atoms, names);
    forall k | 0 <= k < |atoms| && atoms[k].isAtom && target[i].isAtom && atoms[k].name == target[i].name
      ensures Substitute(atoms, names, target)[i] == names[k]
    {
      BindingsAt(atoms, names, k);
    }
  }

  /** Every argument of a substitution comes from `target` or from `names`. */
  lemma SubstituteFrom(atoms: seq<Arg>, names: seq<Arg>, target: seq<Arg>)
    requires |atoms| <= |names|
    ensures forall x :: x in Substitute(atoms, names, target) ==> x in target || x in names
  {
    var r := Substitute(atoms, names, target);
    forall x | x in r ensures x in target || x in names {
      var i :| 0 <= i < |r| && r[i] == x;
      var m := Bindings(atoms, names);
      if target[i].isAtom && target[i].name in m {
        assert m[target[i].name] in names[..|atoms|];
      }
    }
  }

  /** Substituting constants into a list with distinct atoms keeps them distinct. */
  lemma SubstituteKeepsDistinct(atoms: seq<Arg>, names: seq<Arg>, target: seq<Arg>)
    requires |atoms| <= |names| && !HasAtoms(names) && DistinctAtoms(target)
    ensures DistinctAtoms(Substitute(atoms, names, target))
  {
    var r := Substitute(atoms, names, target);
    var m := Bindings(atoms, names);
    forall i | 0 <= i < |r| && r[i].isAtom ensures r[i] == target[i] {
    }
  }

  /** A head substituted into itself: every atom position takes the
      argument of `names` at that position, constants stay. */
  lemma SubstituteHead(atoms: seq<Arg>, names: seq<Arg>, k: nat)
    requires |atoms| == |names| && DistinctAtoms(atoms) && k < |atoms|
    ensures Substitute(atoms, names, atoms)[k] == if atoms[k].isAtom then names[k] else atoms[k]
  {
    SubstituteShape(atoms, names, atoms, k);
  }

  /** A head substituted into itself with distinct-atom arguments keeps
      distinct atoms. */
  lemma SubstituteHeadDistinct(atoms: seq<Arg>, names: seq<Arg>)
    requires |atoms| == |names| && DistinctAtoms(atoms) && DistinctAtoms(names)
    ensures DistinctAtoms(Substitute(atoms, names, atoms))
  {
    var r := Substitute(atoms, names, atoms);
    forall k | 0 <= k < |atoms| ensures r[k].isAtom ==> r[k] == names[k] {
      SubstituteHead(atoms, names, k);
    }
  }

  /** The one-sided pattern match: every constant of `original` has the same
      name in `another` at its position; atoms of `original` match anything. */
  function CompareArgumentsIgnoringAtoms(original: seq<Arg>, another: seq<Arg>): (r: bool)
    requires |original| <= |another|
    ensures r <==> forall i :: 0 <= i < |original| ==> original[i].isAtom || original[i].name == another[i].name
  {
    if original == [] then true
    else
      (original[0].isAtom || original[0].name == another[0].name)
      && CompareArgumentsIgnoringAtoms(original[1..], another[1..])
  }

  /** The match is reflexive. */
  lemma CompareReflexive(a: seq<Arg>)
    ensures CompareArgumentsIgnoringAtoms(a, a)
  {
  }

  /** A pattern made only of atoms matches every list at least as long. */
  lemma CompareAllAtoms(a: seq<Arg>, b: seq<Arg>)
    requires |a| <= |b| && forall i :: 0 <= i < |a| ==> a[i].isAtom
    ensures CompareArgumentsIgnoringAtoms(a, b)
  {
  }

  /** One solution: for every atom position of the query, the atom's name bound
      to the name of the value at that position, in position order. */
  function SolutionOf(queryArgs: seq<Arg>, values: seq<Arg>): (s: Solution)
    requires |queryArgs| <= |values|
    ensures forall p :: p in s <==>
      exists i :: 0 <= i < |queryArgs| && queryArgs[i].isAtom && p == (queryArgs[i].name, values[i].name)
    decreases |queryArgs|
  {
    if queryArgs == [] then []
    else
      var last := |queryArgs| - 1;
      assert forall i :: 0 <= i < last ==> queryArgs[..last][i] == queryArgs[i];
      SolutionOf(queryArgs[..last], values)
        + (if queryArgs[last].isAtom then [(queryArgs[last].name, values[last].name)] else [])
  }

  /** While a solution is built, the atom at position n finds its name
      already used as a key exactly when an earlier atom has that name. */
  lemma SolutionKeyUsed(queryArgs: seq<Arg>, values: seq<Arg>, n: nat)
    requires n < |queryArgs| <= |values|
    ensures (exists p :: p in SolutionOf(queryArgs[..n], values) && p.0 == queryArgs[n].name) <==>
      exists k :: 0 <= k < n && queryArgs[k].isAtom && queryArgs[k].name == queryArgs[n].name
  {
    var prefix := queryArgs[..n];
    var s := SolutionOf(prefix, values);
    assert forall k :: 0 <= k < n ==> prefix[k] == queryArgs[k];
    if exists k :: 0 <= k < n && queryArgs[k].isAtom && queryArgs[k].name == queryArgs[n].name {
      var k :| 0 <= k < n && queryArgs[k].isAtom && queryArgs[k].name == queryArgs[n].name;
      assert (prefix[k].name, values[k].name) in s;
    }
  }

  /** With distinct atom names no key repeats, so the Dictionary.Add calls
      that build a solution never fail. */
  lemma {:induction false} SolutionKeysDistinct(queryArgs: seq<Arg>, values: seq<Arg>)
    requires |queryArgs| <= |values| && DistinctAtoms(queryArgs)
    ensures forall i, j :: 0 <= i < j < |SolutionOf(queryArgs, values)| ==>
      SolutionOf(queryArgs, values)[i].0 != SolutionOf(queryArgs, values)[j].0
    decreases |queryArgs|
  {
    if queryArgs != [] {
      var last := |queryArgs| - 1;
      var prefix := queryArgs[..last];
      assert DistinctAtoms(prefix) by {
        forall i, j | 0 <= i < j < |prefix| && prefix[i].isAtom && prefix[j].isAtom
          ensures prefix[i].name != prefix[j].name
        {
          assert prefix[i] == queryArgs[i] && prefix[j] == queryArgs[j];
        }
      }
      SolutionKeysDistinct(prefix, values);
      var p := SolutionOf(prefix, values);
      if queryArgs[last].isAtom {
        forall i | 0 <= i < |p| ensures p[i].0 != queryArgs[last].name {
          assert p[i] in p;
          var k :| 0 <= k < |prefix| && prefix[k].isAtom && p[i] == (prefix[k].name, values[k].name);
          assert prefix[k] == queryArgs[k];
        }
        var s := SolutionOf(queryArgs, values);
        assert s == p + [(queryArgs[last].name, values[last].name)];
        forall i, j | 0 <= i < j < |s| ensures s[i].0 != s[j].0 {
          assert s[i] == p[i];
          if j < |p| { assert s[j] == p[j]; } else { assert s[j].0 == queryArgs[last].name; }
        }
      } else {
        assert SolutionOf(queryArgs, values) == p;
      }
    }
  }
}
