/** Turning source text into a program: split into lines, trim each line,
    classify each non-blank line with the grammar, collect errors with their
    1-based physical line number. The grammar itself is a parameter. */
module Loading {
  import opened Clauses

  // ----- Lines -----

  /** Char.IsWhiteSpace: the characters String.Trim removes. */
  predicate IsWhiteSpace(c: char) {
    || ('\t' <= c <= '\r') || c == ' ' || c == '\U{85}' || c == '\U{A0}' || c == '\U{1680}'
    || ('\U{2000}' <= c <= '\U{200A}') || c == '\U{2028}' || c == '\U{2029}'
    || c == '\U{202F}' || c == '\U{205F}' || c == '\U{3000}'
  }

  /** The text splits into lines at every '\n'; the pieces keep all other characters. */
  function SplitLines(s: string): (lines: seq<string>)
    ensures |lines| >= 1
    ensures forall l :: l in lines ==> '\n' !in l
  {
    if s == [] then [""]
    else
      var rest := SplitLines(s[1..]);
      if s[0] == '\n' then [""] + rest else [[s[0]] + rest[0]] + rest[1..]
  }

  /** The inverse of SplitLines: the lines joined with '\n'. */
  function JoinLines(lines: seq<string>): (s: string)
    requires |lines| >= 1
  {
    if |lines| == 1 then lines[0] else lines[0] + "\n" + JoinLines(lines[1..])
  }

  lemma {:induction false} JoinSplit(s: string)
    ensures JoinLines(SplitLines(s)) == s
  {
    if s != [] {
      JoinSplit(s[1..]);
      var rest := SplitLines(s[1..]);
      if s[0] == '\n' {
        assert ([""] + rest)[1..] == rest;
        assert s == [s[0]] + s[1..];
      } else {
        var lines := [[s[0]] + rest[0]] + rest[1..];
        if |rest| == 1 {
          assert s == [s[0]] + s[1..];
        } else {
          assert lines[1..] == rest[1..];
          assert s == [s[0]] + s[1..];
        }
      }
    }
  }

  /** Splitting a text whose first line is `x`. */
  lemma {:induction false} SplitAfter(x: string, s: string)
    requires '\n' !in x
    ensures SplitLines(x + s) == [x + SplitLines(s)[0]] + SplitLines(s)[1..]
  {
    var S := SplitLines(s);
    if x == [] {
      assert x + s == s && x + S[0] == S[0];
      assert S == [S[0]] + S[1..];
    } else {
      SplitAfter(x[1..], s);
      assert (x + s)[1..] == x[1..] + s;
      assert x[0] in x;
      assert x[0] == (x + s)[0] && x[0] != '\n';
      var rest := SplitLines(x[1..] + s);
      assert rest[0] == x[1..] + S[0] && rest[1..] == S[1..];
      assert x == [x[0]] + x[1..];
      assert [x[0]] + rest[0] == x + S[0];
    }
  }

  lemma {:induction false} SplitJoin(lines: seq<string>)
    requires |lines| >= 1 && forall l :: l in lines ==> '\n' !in l
    ensures SplitLines(JoinLines(lines)) == lines
  {
    if |lines| == 1 {
      SplitAfter(lines[0], "");
      assert lines[0] + "" == lines[0];
    } else {
      var tail := JoinLines(lines[1..]);
      assert lines[0] in lines;
      SplitJoin(lines[1..]);
      SplitAfter(lines[0], "\n" + tail);
      assert ("\n" + tail)[1..] == tail;
      var X := SplitLines("\n" + tail);
      assert X == [""] + lines[1..];
      assert X[0] == "" && X[1..] == lines[1..];
      assert lines[0] + X[0] == lines[0];
      assert lines == [lines[0]] + lines[1..];
      assert lines[0] + "\n" + tail == lines[0] + ("\n" + tail);
    }
  }

  /** String.TrimStart: drops leading white space. */
  function TrimStart(s: string): string {
    if s != [] && IsWhiteSpace(s[0]) then TrimStart(s[1..]) else s
  }

  /** TrimStart keeps a suffix, cuts only white space, and stops at the
      first other character. */
  lemma {:induction false} TrimStartSpec(s: string)
    ensures |TrimStart(s)| <= |s| && TrimStart(s) == s[|s| - |TrimStart(s)|..]
    ensures forall i :: 0 <= i < |s| - |TrimStart(s)| ==> IsWhiteSpace(s[i])
    ensures TrimStart(s) == [] || !IsWhiteSpace(TrimStart(s)[0])
    decreases |s|
  {
    if s != [] && IsWhiteSpace(s[0]) {
      TrimStartSpec(s[1..]);
      assert forall i :: 1 <= i < |s| ==> s[i] == s[1..][i - 1];
    }
  }

  /** String.TrimEnd: drops trailing white space. */
  function TrimEnd(s: string): string {
    if s != [] && IsWhiteSpace(s[|s| - 1]) then TrimEnd(s[..|s| - 1]) else s
  }

  /** TrimEnd keeps a prefix, cuts only white space, and stops at the last
      other character. */
  lemma {:induction false} TrimEndSpec(s: string)
    ensures |TrimEnd(s)| <= |s| && TrimEnd(s) == s[..|TrimEnd(s)|]
    ensures forall i :: |TrimEnd(s)| <= i < |s| ==> IsWhiteSpace(s[i])
    ensures TrimEnd(s) == [] || !IsWhiteSpace(TrimEnd(s)[|TrimEnd(s)| - 1])
    decreases |s|
  {
    if s != [] && IsWhiteSpace(s[|s| - 1]) {
      var front := s[..|s| - 1];
      TrimEndSpec(front);
      assert forall i :: 0 <= i < |front| ==> front[i] == s[i];
    }
  }

  /** `r` is `s` with k white-space characters cut in front and the rest cut behind. */
  ghost predicate TrimmedAt(s: string, r: string, k: nat) {
    && k + |r| <= |s| && r == s[k..k + |r|]
    && (forall i :: 0 <= i < k ==> IsWhiteSpace(s[i]))
    && (forall i :: k + |r| <= i < |s| ==> IsWhiteSpace(s[i]))
  }

  /** String.Trim: the middle of the text between leading and trailing white space. */
  function Trim(s: string): string {
    TrimEnd(TrimStart(s))
  }

  /** Trim keeps the text that follows the white space TrimStart cuts, up
      to trailing white space. */
  lemma TrimmedAfterStart(s: string)
    ensures |TrimStart(s)| <= |s| && TrimmedAt(s, Trim(s), |s| - |TrimStart(s)|)
  {
    var front := TrimStart(s);
    var r := TrimEnd(front);
    TrimStartSpec(s);
    TrimEndSpec(front);
    var k := |s| - |front|;
    assert front == s[k..] && r == front[..|r|];
    assert forall i :: k + |r| <= i < |s| ==> s[i] == front[i - k];
  }

  /** Trim cuts white space at both ends and nothing else, and what it
      keeps neither starts nor ends with white space. */
  lemma TrimSpec(s: string)
    ensures exists k :: TrimmedAt(s, Trim(s), k)
    ensures Trim(s) == [] || (!IsWhiteSpace(Trim(s)[0]) && !IsWhiteSpace(Trim(s)[|Trim(s)| - 1]))
  {
    TrimmedAfterStart(s);
    TrimStartSpec(s);
    TrimEndSpec(TrimStart(s));
  }

  lemma TrimIdempotent(s: string)
    ensures Trim(Trim(s)) == Trim(s)
  {
    TrimSpec(s);
    var r := Trim(s);
    TrimStartSpec(r);
    assert TrimStart(r) == r;
    TrimEndSpec(r);
  }

  /** A line is blank after trimming iff it holds only white space. */
  lemma TrimBlank(s: string)
    ensures Trim(s) == [] <==> forall i :: 0 <= i < |s| ==> IsWhiteSpace(s[i])
  {
    TrimSpec(s);
    var k: nat :| TrimmedAt(s, Trim(s), k);
  }

  /** The text's lines, each trimmed. */
  function Lines(code: string): (lines: seq<string>)
    ensures |lines| == |SplitLines(code)|
    ensures forall i :: 0 <= i < |lines| ==> lines[i] == Trim(SplitLines(code)[i])
  {
    var raw := SplitLines(code);
    seq(|raw|, i requires 0 <= i < |raw| => Trim(raw[i]))
  }

  // ----- The grammar and the classification of one line -----

  /** What a grammar production gives: a value and the column where it
      stopped, or a failure and the column where it failed. */
  datatype ParseOutcome<T> = Parsed(value: T, column: nat) | Failed(column: nat)

  /** The four productions the loader tries, in this order. */
  datatype Grammar = Grammar(
    fact: string -> ParseOutcome<Fact>,
    query: string -> ParseOutcome<Query>,
    rule: string -> ParseOutcome<Rule>,
    comment: string -> bool)

  datatype ErrorKind = FactHasAtoms | SyntaxError

  datatype ParseError = ParseError(kind: ErrorKind, line: nat, column: nat)

  /** What one trimmed line is. */
  datatype LineKind =
    | Blank
    | FactLine(fact: Fact)
    | AtomFact(column: nat)
    | QueryLine(query: Query)
    | RuleLine(rule: Rule)
    | CommentLine
    | Unparsable(column: nat)

  /** Blank lines are skipped; otherwise fact, query, rule and comment are
      tried in order. A fact with an atom argument is an error at the fact
      production's column; a line nothing accepts is an error at the rule
      production's column. */
  function Classify(line: string, g: Grammar): (k: LineKind)
    ensures line == [] <==> k == Blank
    ensures k.FactLine? ==> !HasAtoms(k.fact.args)
    // a parsed fact decides the line, whatever the other productions say
    ensures line != [] && g.fact(line).Parsed? ==>
      k == if HasAtoms(g.fact(line).value.args) then AtomFact(g.fact(line).column) else FactLine(g.fact(line).value)
    // then a parsed query
    ensures line != [] && g.fact(line).Failed? && g.query(line).Parsed? ==> k == QueryLine(g.query(line).value)
    // then a parsed rule
    ensures line != [] && g.fact(line).Failed? && g.query(line).Failed? && g.rule(line).Parsed? ==>
      k == RuleLine(g.rule(line).value)
    // then a comment; anything else fails at the rule production's column
    ensures line != [] && g.fact(line).Failed? && g.query(line).Failed? && g.rule(line).Failed? ==>
      k == if g.comment(line) then CommentLine else Unparsable(g.rule(line).column)
  {
    if line == [] then Blank
    else match g.fact(line)
      case Parsed(f, col) => if HasAtoms(f.args) then AtomFact(col) else FactLine(f)
      case Failed(_) =>
        match g.query(line)
        case Parsed(q, _) => QueryLine(q)
        case Failed(_) =>
          match g.rule(line)
          case Parsed(r, _) => RuleLine(r)
          case Failed(col) => if g.comment(line) then CommentLine else Unparsable(col)
  }

  /** The error a line reports, if any, given its 1-based number. */
  function LineError(line: string, number: nat, g: Grammar): (e: Option<ParseError>)
    ensures e.Some? ==> e.value.line == number
    ensures e.Some? <==> Classify(line, g).AtomFact? || Classify(line, g).Unparsable?
  {
    match Classify(line, g)
    case AtomFact(col) => Some(ParseError(FactHasAtoms, number, col))
    case Unparsable(col) => Some(ParseError(SyntaxError, number, col))
    case _ => None
  }

  // ----- Loading a whole text -----

  datatype Program = Program(facts: seq<Fact>, queries: seq<Query>, rules: seq<Rule>, errors: seq<ParseError>)

  /** Adds one classified line, with its 1-based number, to the program. */
  function AddLine(p: Program, line: string, number: nat, g: Grammar): (p2: Program)
    ensures LineError(line, number, g).Some? ==> p2 == p.(errors := p.errors + [LineError(line, number, g).value])
    ensures LineError(line, number, g).None? ==> p2.errors == p.errors
    ensures Classify(line, g).FactLine? ==> p2 == p.(facts := p.facts + [Classify(line, g).fact])
    ensures Classify(line, g).QueryLine? ==> p2 == p.(queries := p.queries + [Classify(line, g).query])
    ensures Classify(line, g).RuleLine? ==> p2 == p.(rules := p.rules + [Classify(line, g).rule])
    ensures Classify(line, g).Blank? || Classify(line, g).CommentLine? ==> p2 == p
  {
    match Classify(line, g)
    case FactLine(f) => p.(facts := p.facts + [f])
    case QueryLine(q) => p.(queries := p.queries + [q])
    case RuleLine(r) => p.(rules := p.rules + [r])
    case AtomFact(col) => p.(errors := p.errors + [ParseError(FactHasAtoms, number, col)])
    case Unparsable(col) => p.(errors := p.errors + [ParseError(SyntaxError, number, col)])
    case _ => p
  }

  /** The program of a sequence of trimmed lines; line k (from 0) is number k + 1. */
  function Load(lines: seq<string>, g: Grammar): Program
    decreases |lines|
  {
    if lines == [] then Program([], [], [], [])
    else
      var n := |lines| - 1;
      AddLine(Load(lines[..n], g), lines[n], n + 1, g)
  }

  /** Facts never hold atoms; errors carry line numbers of the text, in
      strictly increasing order. */
  lemma {:induction false} LoadShape(lines: seq<string>, g: Grammar)
    ensures forall f :: f in Load(lines, g).facts ==> !HasAtoms(f.args)
    ensures forall i :: 0 <= i < |Load(lines, g).errors| ==> 1 <= Load(lines, g).errors[i].line <= |lines|
    ensures forall i, j :: 0 <= i < j < |Load(lines, g).errors| ==>
      Load(lines, g).errors[i].line < Load(lines, g).errors[j].line
    decreases |lines|
  {
    if lines != [] {
      var n := |lines| - 1;
      LoadShape(lines[..n], g);
    }
  }

  /** The loaded facts are exactly those of the lines that classify as such. */
  lemma {:induction false} LoadFacts(lines: seq<string>, g: Grammar)
    ensures forall f :: f in Load(lines, g).facts <==> exists k :: 0 <= k < |lines| && Classify(lines[k], g) == FactLine(f)
    decreases |lines|
  {
    if lines != [] {
      var n := |lines| - 1;
      var prefix := lines[..n];
      LoadFacts(prefix, g);
      assert forall k :: 0 <= k < n ==> prefix[k] == lines[k];
    }
  }

  /** The loaded queries are exactly those of the lines that classify as such. */
  lemma {:induction false} LoadQueries(lines: seq<string>, g: Grammar)
    ensures forall q :: q in Load(lines, g).queries <==> exists k :: 0 <= k < |lines| && Classify(lines[k], g) == QueryLine(q)
    decreases |lines|
  {
    if lines != [] {
      var n := |lines| - 1;
      var prefix := lines[..n];
      LoadQueries(prefix, g);
      assert forall k :: 0 <= k < n ==> prefix[k] == lines[k];
    }
  }

  /** The loaded rules are exactly those of the lines that classify as such. */
  lemma {:induction false} LoadRules(lines: seq<string>, g: Grammar)
    ensures forall r :: r in Load(lines, g).rules <==> exists k :: 0 <= k < |lines| && Classify(lines[k], g) == RuleLine(r)
    decreases |lines|
  {
    if lines != [] {
      var n := |lines| - 1;
      var prefix := lines[..n];
      LoadRules(prefix, g);
      assert forall k :: 0 <= k < n ==> prefix[k] == lines[k];
    }
  }

  /** Every reported error is the error of the physical line it names. */
  lemma {:induction false} ErrorOfLine(lines: seq<string>, g: Grammar, e: ParseError)
    requires e in Load(lines, g).errors
    ensures 1 <= e.line <= |lines| && LineError(lines[e.line - 1], e.line, g) == Some(e)
    decreases |lines|
  {
    var n := |lines| - 1;
    var prefix := lines[..n];
    if e in Load(prefix, g).errors {
      ErrorOfLine(prefix, g, e);
      assert prefix[e.line - 1] == lines[e.line - 1];
    }
  }

  /** A fact line with an atom argument is reported at its line and
      column and never becomes a fact. */
  lemma {:induction false} AtomFactReported(lines: seq<string>, g: Grammar, k: nat)
    requires k < |lines| && Classify(lines[k], g).AtomFact?
    ensures ParseError(FactHasAtoms, k + 1, Classify(lines[k], g).column) in Load(lines, g).errors
    decreases |lines|
  {
    var n := |lines| - 1;
    if k < n {
      var prefix := lines[..n];
      assert prefix[k] == lines[k];
      AtomFactReported(prefix, g, k);
    }
  }

  lemma LoadStep(lines: seq<string>, n: nat, g: Grammar)
    requires n < |lines|
    ensures Load(lines[..n + 1], g) == AddLine(Load(lines[..n], g), lines[n], n + 1, g)
  {
    assert lines[..n + 1][..n] == lines[..n];
  }

  /** The loading loop: each line of the text is trimmed, counted, and
      added to the program; the lists grow in line order. */
  method LoadLines(code: string, g: Grammar) returns (p: Program)
    ensures p == Load(Lines(code), g)
  {
    var lines := Lines(code);
    p := Program([], [], [], []);
    var counter := 0;
    while counter < |lines|
      invariant 0 <= counter <= |lines|
      invariant p == Load(lines[..counter], g)
    {
      var line := lines[counter];
      LoadStep(lines, counter, g);
      counter := counter + 1;
      p := LoadLine(p, line, counter, g);
    }
    assert lines[..|lines|] == lines;
  }

  /** One trimmed line with its number: blank lines and comments are
      skipped; fact, query and rule productions are tried in order; a fact
      with atoms, or a line nothing accepts, adds an error. */
  method LoadLine(p: Program, line: string, counter: nat, g: Grammar) returns (p2: Program)
    ensures p2 == AddLine(p, line, counter, g)
  {
    p2 := p;
    if line == [] {
      return;
    }
    var factResult := g.fact(line);
    if factResult.Parsed? {
      if HasAtoms(factResult.value.args) {
        p2 := p2.(errors := p2.errors + [ParseError(FactHasAtoms, counter, factResult.column)]);
      } else {
        p2 := p2.(facts := p2.facts + [factResult.value]);
      }
      return;
    }
    var queryResult := g.query(line);
    if queryResult.Parsed? {
      p2 := p2.(queries := p2.queries + [queryResult.value]);
      return;
    }
    var ruleResult := g.rule(line);
    if ruleResult.Parsed? {
      p2 := p2.(rules := p2.rules + [ruleResult.value]);
      return;
    }
    if g.comment(line) {
      return;
    }
    p2 := p2.(errors := p2.errors + [ParseError(SyntaxError, counter, ruleResult.column)]);
  }

  /** What Run returns: the errors if there are any, else one result per query. */
  datatype ProcessResult = ErrorsResult(errors: seq<ParseError>) | QueriesResult(results: seq<QueryResult>)
}
