/** What a generated rule means: the part of jq that it uses, with `|` binding loosest. */
module FilterMeaning {
  import opened Prelude
  import opened Text
  import opened FilterRule

  datatype Query =
    | Name
    | NameEquals(variable: string)
    | Test(variable: string)
    | Or(left: Query, right: Query)
    | Pipe(first: Query, second: Query)
    | Not

  /** The value that flows through a query: a chart at first, then texts and truth values. */
  datatype Json = Chart(name: string) | Text(text: string) | Bool(value: bool)

  /** Whether a regular expression, which comes first, matches a text; None if it is malformed. */
  type Matcher = (string, string) -> Option<bool>

  // ------------------------------------------------------------- parsing

  type Tokens = seq<string>

  /** One query and the tokens after it. */
  datatype Parsed = Failed | Parsed(query: Query, rest: Tokens)

  function ParseTerm(ts: Tokens): (r: Parsed)
    ensures r.Parsed? ==> |r.rest| < |ts|
  {
    if ts != [] && ts[0] == "not" then Parsed(Not, ts[1..])
    else if |ts| >= 3 && ts[0] == ".name" && ts[1] == "==" && ts[2] != "" && ts[2][0] == '$' then
      Parsed(NameEquals(ts[2]), ts[3..])
    else if ts != [] && ts[0] == ".name" then Parsed(Name, ts[1..])
    else if ts != [] && "test($" <= ts[0] && ts[0][|ts[0]| - 1] == ')' then
      Parsed(Test(ts[0][|"test("|..|ts[0]| - 1]), ts[1..])
    else Failed
  }

  function ParseOr(ts: Tokens): (r: Parsed)
    ensures r.Parsed? ==> |r.rest| < |ts|
    decreases |ts|
  {
    var left := ParseTerm(ts);
    if left.Failed? || left.rest == [] || left.rest[0] != "or" then left
    else
      var right := ParseOr(left.rest[1..]);
      if right.Failed? then Failed else Parsed(Or(left.query, right.query), right.rest)
  }

  function ParsePipe(ts: Tokens): Option<Query>
    decreases |ts|
  {
    var first := ParseOr(ts);
    if first.Failed? then None
    else if first.rest == [] then Some(first.query)
    else if first.rest[0] != "|" then None
    else
      var second := ParsePipe(first.rest[1..]);
      if second.None? then None else Some(Pipe(first.query, second.value))
  }

  /** The tokens of a generated rule stand between single spaces. */
  function Parse(jq: string): Option<Query> {
    ParsePipe(Split(jq, ' '))
  }

  /** How a query is written. */
  function Written(q: Query): Tokens {
    match q
    case Name => [".name"]
    case NameEquals(x) => [".name", "==", x]
    case Test(x) => ["test(" + x + ")"]
    case Or(l, r) => Written(l) + ["or"] + Written(r)
    case Pipe(first, second) => Written(first) + ["|"] + Written(second)
    case Not => ["not"]
  }

  lemma TermIsWritten(ts: Tokens)
    ensures var r := ParseTerm(ts); r.Parsed? ==> ts == Written(r.query) + r.rest
  {
    var r := ParseTerm(ts);
    if r.Parsed? && r.query.NameEquals? {
      assert ts == [ts[0], ts[1], ts[2]] + ts[3..];
    } else if r.Parsed? {
      assert ts == [ts[0]] + ts[1..];
      if r.query.Test? {
        var t := ts[0];
        assert t[..5] == "test(" && t == t[..5] + t[5..|t| - 1] + [t[|t| - 1]];
      }
    }
  }

  lemma {:induction false} OrIsWritten(ts: Tokens)
    ensures var r := ParseOr(ts); r.Parsed? ==> ts == Written(r.query) + r.rest
    decreases |ts|
  {
    var left := ParseTerm(ts);
    TermIsWritten(ts);
    if left.Parsed? && left.rest != [] && left.rest[0] == "or" {
      OrIsWritten(left.rest[1..]);
      var right := ParseOr(left.rest[1..]);
      assert left.rest == ["or"] + left.rest[1..];
      if right.Parsed? {
        Regroup(Written(left.query), ["or"], Written(right.query), right.rest);
      }
    }
  }

  lemma {:induction false} PipeIsWritten(ts: Tokens)
    ensures var q := ParsePipe(ts); q.Some? ==> ts == Written(q.value)
    decreases |ts|
  {
    hide ParseOr;
    var first := ParseOr(ts);
    OrIsWritten(ts);
    if first.Parsed? && first.rest != [] && first.rest[0] == "|" {
      PipeIsWritten(first.rest[1..]);
      assert first.rest == ["|"] + first.rest[1..];
    }
  }

  /** Nothing parses but what is written as its query is. */
  lemma ParsedIsWritten(jq: string)
    requires Parse(jq).Some?
    ensures jq == Join(Written(Parse(jq).value), " ")
  {
    PipeIsWritten(Split(jq, ' '));
    JoinSplit(jq, ' ');
  }

  // ------------------------------------------------------------- running

  predicate Truthy(v: Json) {
    !v.Bool? || v.value
  }

  /** None is an error of jq. */
  function Run(q: Query, input: Json, vars: map<string, string>, matches: Matcher): Option<Json> {
    match q
    case Name => if input.Chart? then Some(Text(input.name)) else None
    case Test(x) =>
      if !input.Text? || x !in vars then None
      else
        var m := matches(vars[x], input.text);
        if m.None? then None else Some(Bool(m.value))
    case NameEquals(x) => if input.Chart? && x in vars then Some(Bool(input.name == vars[x])) else None
    case Or(l, r) =>
      var left := Run(l, input, vars, matches);
      if left.None? then None
      else if Truthy(left.value) then Some(Bool(true))
      else
        var right := Run(r, input, vars, matches);
        if right.None? then None else Some(Bool(Truthy(right.value)))
    case Pipe(first, second) =>
      var v := Run(first, input, vars, matches);
      if v.None? then None else Run(second, v.value, vars, matches)
    case Not => Some(Bool(!Truthy(input)))
  }

  // ------------------------------------------------------------- compiling and filtering

  function ToMap(variables: seq<Binding>): map<string, string> {
    if variables == [] then map[] else map[variables[0].name := variables[0].value] + ToMap(variables[1..])
  }

  /** The two lists that a compiled rule keeps, in the order in which the map gives its keys. */
  method CompileVariables(variables: map<string, string>, order: seq<string>)
    returns (varNames: seq<string>, varValues: seq<string>)
    requires forall i :: 0 <= i < |order| ==> order[i] in variables
    ensures varNames == order && |varValues| == |order|
    ensures forall i :: 0 <= i < |order| ==> varValues[i] == variables[order[i]]
  {
    varNames, varValues := [], [];
    for i := 0 to |order|
      invariant varNames == order[..i] && |varValues| == i
      invariant forall j :: 0 <= j < i ==> varValues[j] == variables[order[j]]
    {
      varNames := varNames + [order[i]];
      varValues := varValues + [variables[order[i]]];
    }
  }

  /** jq matches the names of the variables with the values by position. */
  function Bind(varNames: seq<string>, varValues: seq<string>): map<string, string>
    requires |varNames| == |varValues|
  {
    if varNames == [] then map[] else Bind(varNames[1..], varValues[1..])[varNames[0] := varValues[0]]
  }

  ghost predicate OrderOf(variables: map<string, string>, order: seq<string>) {
    forall x :: x in order <==> x in variables
  }

  /** In whatever order the map gives its keys, the variables get their own values. */
  lemma {:induction false} AnyOrderBindsAlike(variables: map<string, string>, varNames: seq<string>,
      varValues: seq<string>)
    requires |varNames| == |varValues|
    requires forall i :: 0 <= i < |varNames| ==> varNames[i] in variables && varValues[i] == variables[varNames[i]]
    ensures forall x :: x in Bind(varNames, varValues) <==> x in varNames
    ensures forall x :: x in Bind(varNames, varValues) ==>
      x in variables && Bind(varNames, varValues)[x] == variables[x]
  {
    if varNames != [] {
      AnyOrderBindsAlike(variables, varNames[1..], varValues[1..]);
      assert varNames == [varNames[0]] + varNames[1..];
    }
  }

  /** None is an error: a query that does not parse, or gives no truth value. */
  function Satisfy(rule: Rule, vars: map<string, string>, matches: Matcher, chart: string): Option<bool> {
    var q := Parse(rule.jq);
    if q.None? then None
    else
      var r := Run(q.value, Chart(chart), vars, matches);
      if r.None? || !r.value.Bool? then None else Some(r.value.value)
  }

  // ------------------------------------------------------------- meaning

  function TermTokens(i: nat): Tokens {
    [".name", "==", Var(i)]
  }

  function TermsTokens(i: nat, n: nat): Tokens
    decreases n - i
  {
    if i >= n then [] else if i + 1 == n then TermTokens(i) else TermTokens(i) + ["or"] + TermsTokens(i + 1, n)
  }

  lemma {:induction false} TermsAreTokens(i: nat, n: nat)
    requires i < n
    ensures TermsTokens(i, n) != [] && Join(Terms(i, n), " or ") == Join(TermsTokens(i, n), " ")
    decreases n - i
  {
    OneTerm(i);
    assert Terms(i, n)[0] == ".name == " + Var(i) && Terms(i, n)[1..] == Terms(i + 1, n);
    if i + 1 < n {
      TermsAreTokens(i + 1, n);
      JoinTerm(TermTokens(i), TermsTokens(i + 1, n));
    }
  }

  lemma JoinTerm(term: Tokens, rest: Tokens)
    requires term != [] && rest != []
    ensures Join(term + ["or"] + rest, " ") == Join(term, " ") + " or " + Join(rest, " ")
  {
    JoinConcat(["or"], rest, " ");
    JoinConcat(term, ["or"] + rest, " ");
    assert term + ["or"] + rest == term + (["or"] + rest);
    assert Join(["or"], " ") == "or";
    var t, r := Join(term, " "), Join(rest, " ");
    assert t + " " + ("or" + " " + r) == t + (" " + "or" + " ") + r;
    assert " " + "or" + " " == " or ";
  }

  lemma {:induction false} TokensHaveNoSpace(i: nat, n: nat, t: string)
    requires t in TermsTokens(i, n)
    ensures ' ' !in t
    decreases n - i
  {
    OneTerm(i);
    if t !in TermTokens(i) && t != "or" {
      TokensHaveNoSpace(i + 1, n, t);
    }
  }

  lemma OneTerm(i: nat)
    ensures Join(TermTokens(i), " ") == ".name == " + Var(i)
    ensures ' ' !in ".name" && ' ' !in "==" && ' ' !in Var(i)
  {
    DecimalIsDigits(i);
    JoinConcat([".name", "=="], [Var(i)], " ");
    JoinConcat([".name"], ["=="], " ");
    assert [".name", "=="] + [Var(i)] == TermTokens(i) && [".name"] + ["=="] == [".name", "=="];
  }

  function OrChain(i: nat, n: nat): Query
    requires i < n
    decreases n - i
  {
    if i + 1 == n then NameEquals(Var(i)) else Or(NameEquals(Var(i)), OrChain(i + 1, n))
  }

  lemma ParseTermOf(i: nat, after: Tokens)
    ensures ParseTerm(TermTokens(i) + after) == Parsed(NameEquals(Var(i)), after)
  {
    var ts := TermTokens(i) + after;
    assert ts[0] == ".name" && ts[1] == "==" && ts[2] == Var(i) && ts[3..] == after;
  }

  lemma ParseLast(i: nat, rest: Tokens)
    requires rest == [] || rest[0] == "|"
    ensures ParseOr(TermTokens(i) + rest) == Parsed(NameEquals(Var(i)), rest)
  {
    ParseTermOf(i, rest);
  }

  lemma ParseMore(i: nat, next: Tokens, q: Query, rest: Tokens)
    requires ParseOr(next) == Parsed(q, rest)
    ensures ParseOr(TermTokens(i) + (["or"] + next)) == Parsed(Or(NameEquals(Var(i)), q), rest)
  {
    var after := ["or"] + next;
    ParseTermOf(i, after);
    assert after[0] == "or" && after[1..] == next;
  }

  lemma {:induction false} ParseTerms(i: nat, n: nat, rest: Tokens)
    requires i < n && (rest == [] || rest[0] == "|")
    ensures ParseOr(TermsTokens(i, n) + rest) == Parsed(OrChain(i, n), rest)
    decreases n - i
  {
    if i + 1 == n {
      ParseLast(i, rest);
    } else {
      var next := TermsTokens(i + 1, n) + rest;
      ParseTerms(i + 1, n, rest);
      ParseMore(i, next, OrChain(i + 1, n), rest);
      Regroup(TermTokens(i), ["or"], TermsTokens(i + 1, n), rest);
    }
  }

  lemma Regroup(a: Tokens, b: Tokens, c: Tokens, d: Tokens)
    ensures a + b + c + d == a + (b + (c + d))
  {
  }

  lemma ParseDisjunction(n: nat)
    requires n > 0
    ensures Parse(Join(Terms(0, n), " or ")) == Some(OrChain(0, n))
  {
    var body := TermsTokens(0, n);
    TermsAreTokens(0, n);
    forall i | 0 <= i < |body| ensures ' ' !in body[i] {
      TokensHaveNoSpace(0, n, body[i]);
    }
    SplitJoin(body, ' ');
    ParseTerms(0, n, []);
    assert body + [] == body;
  }

  lemma NegatedTokens(body: Tokens)
    requires body != []
    ensures Join(body, " ") + NOT == Join(body + ["|", "not"], " ")
  {
    JoinConcat(body, ["|", "not"], " ");
    assert ["|", "not"][1..] == ["not"];
    assert Join(["not"], " ") == "not";
    assert Join(["|", "not"], " ") == "|" + " " + "not" == "| not";
    assert Join(body, " ") + " " + "| not" == Join(body, " ") + (" " + "| not");
  }

  lemma ParseNegation(n: nat)
    requires n > 0
    ensures Parse(Join(Terms(0, n), " or ") + NOT) == Some(Pipe(OrChain(0, n), Not))
  {
    var body, ts := TermsTokens(0, n), TermsTokens(0, n) + ["|", "not"];
    TermsAreTokens(0, n);
    NegatedTokens(body);
    forall i | 0 <= i < |ts| ensures ' ' !in ts[i] {
      if i < |body| {
        TokensHaveNoSpace(0, n, body[i]);
      }
    }
    SplitJoin(ts, ' ');
    ParseTerms(0, n, ["|", "not"]);
    assert ["|", "not"][1..] == ["not"];
    ParseNot();
  }

  lemma ParseNot()
    ensures ParsePipe(["not"]) == Some(Not)
  {
    assert ["not"][1..] == [];
    assert ParseTerm(["not"]) == Parsed(Not, []);
    assert ParseOr(["not"]) == Parsed(Not, []);
  }

  ghost predicate BoundFrom(vars: map<string, string>, i: nat, values: seq<string>) {
    forall k :: i <= k < i + |values| ==> Var(k) in vars && vars[Var(k)] == values[k - i]
  }

  lemma {:induction false} ChainMeaning(values: seq<string>, i: nat, n: nat, vars: map<string, string>,
      matches: Matcher, chart: string)
    requires i < n == i + |values| && BoundFrom(vars, i, values)
    ensures Run(OrChain(i, n), Chart(chart), vars, matches) == Some(Bool(chart in values))
    decreases n - i
  {
    assert Var(i) in vars && vars[Var(i)] == values[0];
    assert values == [values[0]] + values[1..];
    if i + 1 < n {
      ChainMeaning(values[1..], i + 1, n, vars, matches, chart);
    }
  }

  lemma {:induction false} BoundValues(values: seq<string>, i: nat)
    ensures BoundFrom(ToMap(Bindings(values, i)), i, values)
  {
    if values != [] {
      BoundValues(values[1..], i + 1);
      NotBoundLater(values[1..], i + 1, i);
      FirstBinding(values, i);
      BoundFirst(ToMap(Bindings(values[1..], i + 1)), i, values);
    }
  }

  lemma FirstBinding(values: seq<string>, i: nat)
    requires values != []
    ensures ToMap(Bindings(values, i)) == map[Var(i) := values[0]] + ToMap(Bindings(values[1..], i + 1))
  {
    assert Bindings(values, i)[1..] == Bindings(values[1..], i + 1);
  }

  lemma BoundFirst(later: map<string, string>, i: nat, values: seq<string>)
    requires values != [] && BoundFrom(later, i + 1, values[1..]) && Var(i) !in later
    ensures BoundFrom(map[Var(i) := values[0]] + later, i, values)
  {
    var m := map[Var(i) := values[0]] + later;
    forall k | i <= k < i + |values| ensures Var(k) in m && m[Var(k)] == values[k - i] {
      if k > i {
        assert Var(k) in later && later[Var(k)] == values[1..][k - (i + 1)];
      }
    }
  }

  lemma {:induction false} NotBoundLater(values: seq<string>, i: nat, j: nat)
    requires j < i
    ensures Var(j) !in ToMap(Bindings(values, i))
  {
    if values != [] {
      NotBoundLater(values[1..], i + 1, j);
      FirstBinding(values, i);
      VarsDiffer(i, j);
    }
  }

  lemma VarsDiffer(i: nat, j: nat)
    requires i != j
    ensures Var(i) != Var(j)
  {
    if Var(i) == Var(j) {
      assert Var(i)[4..] == Decimal(i) && Var(j)[4..] == Decimal(j);
      DecimalInjective(i, j);
    }
  }

  /** Binding the variables of a rule in some order of its map. */
  ghost predicate Binds(rule: Rule, varNames: seq<string>, varValues: seq<string>) {
    && |varNames| == |varValues| && OrderOf(ToMap(rule.variables), varNames)
    && forall i :: 0 <= i < |varNames| ==> varValues[i] == ToMap(rule.variables)[varNames[i]]
  }

  lemma BindingIsTheMap(rule: Rule, varNames: seq<string>, varValues: seq<string>)
    requires Binds(rule, varNames, varValues)
    ensures Bind(varNames, varValues) == ToMap(rule.variables)
  {
    AnyOrderBindsAlike(ToMap(rule.variables), varNames, varValues);
  }

  /** One of the names between the commas is `name`, but for spaces around it. */
  ghost predicate Lists(names: string, name: string) {
    exists i :: 0 <= i < |Split(names, ',')| && TrimsTo(Split(names, ',')[i], name)
  }

  lemma ListsNames(names: string, name: string)
    ensures name in NamesOf(names) <==> Lists(names, name)
  {
    var parts := Split(names, ',');
    forall i | 0 <= i < |parts| ensures NamesOf(names)[i] == name <==> TrimsTo(parts[i], name) {
      TrimIs(parts[i], name);
    }
  }

  lemma ListRuleKeeps(names: string, exclude: bool, matches: Matcher, chart: string)
    ensures var rule := ToFilterRule(names, false, exclude);
      Satisfy(rule, ToMap(rule.variables), matches, chart) == Some((chart in NamesOf(names)) != exclude)
  {
    hide Parse, OrChain, Join, Terms, NamesOf, Bindings, ToMap, BoundFrom;
    var rule, list := ToFilterRule(names, false, exclude), NamesOf(names);
    BoundValues(list, 0);
    ChainMeaning(list, 0, |list|, ToMap(Bindings(list, 0)), matches, chart);
    if exclude {
      ParseNegation(|list|);
      assert rule.jq == Join(Terms(0, |list|), " or ") + NOT;
      assert Run(Not, Bool(chart in list), ToMap(rule.variables), matches) == Some(Bool(chart !in list));
    } else {
      ParseDisjunction(|list|);
      assert rule.jq == Join(Terms(0, |list|), " or ");
    }
  }

  /** A rule made from a list of names keeps a chart just when the list has its name, or has
      it not when the rule excludes; in whatever order the variables are bound. */
  lemma GeneratedRuleKeeps(names: string, exclude: bool, varNames: seq<string>, varValues: seq<string>,
      matches: Matcher, chart: string)
    requires Binds(ToFilterRule(names, false, exclude), varNames, varValues)
    ensures Satisfy(ToFilterRule(names, false, exclude), Bind(varNames, varValues), matches, chart)
      == Some(Lists(names, chart) != exclude)
  {
    BindingIsTheMap(ToFilterRule(names, false, exclude), varNames, varValues);
    ListsNames(names, chart);
    ListRuleKeeps(names, exclude, matches, chart);
  }

  lemma RegexTokens(exclude: bool)
    ensures Split(".name | test($var)" + (if exclude then NOT else ""), ' ')
      == if exclude then [".name", "|", "test($var)", "|", "not"] else [".name", "|", "test($var)"]
  {
    var body := [".name", "|", "test($var)"];
    assert body[1..][1..] == ["test($var)"];
    assert Join(body, " ") == ".name" + " " + ("|" + " " + "test($var)") == ".name | test($var)";
    NegatedTokens(body);
    if exclude {
      SplitJoin(body + ["|", "not"], ' ');
    } else {
      SplitJoin(body, ' ');
      assert ".name | test($var)" + "" == ".name | test($var)";
    }
  }

  lemma ParseRegex(exclude: bool)
    ensures Parse(".name | test($var)" + (if exclude then NOT else ""))
      == Some(Pipe(Name, if exclude then Pipe(Test("$var"), Not) else Test("$var")))
  {
    var tail := ["test($var)"] + if exclude then ["|", "not"] else [];
    var ts := [".name", "|"] + tail;
    RegexTokens(exclude);
    ParseTest(exclude);
    assert Split(".name | test($var)" + (if exclude then NOT else ""), ' ') == ts;
    hide Split;
    assert ts[1..] == ["|"] + tail && ts[1..][1..] == tail && ts[1..][0] == "|";
    assert ParseTerm(ts) == Parsed(Name, ts[1..]);
  }

  lemma ParseTest(exclude: bool)
    ensures ParsePipe(["test($var)"] + if exclude then ["|", "not"] else [])
      == Some(if exclude then Pipe(Test("$var"), Not) else Test("$var"))
  {
    var negation := if exclude then ["|", "not"] else [];
    var tail := ["test($var)"] + negation;
    assert tail[1..] == negation;
    assert "test($var)"[|"test("|..|"test($var)"| - 1] == "$var";
    assert ParseTerm(tail) == Parsed(Test("$var"), negation);
    if exclude {
      assert negation[1..] == ["not"];
      ParseNot();
    }
  }

  /** A rule made from a regular expression keeps a chart just when its name matches, or does
      not when the rule excludes; a malformed expression is an error. */
  lemma RegexRuleKeeps(regex: string, exclude: bool, varNames: seq<string>, varValues: seq<string>,
      matches: Matcher, chart: string)
    requires Binds(ToFilterRule(regex, true, exclude), varNames, varValues)
    ensures var kept := Satisfy(ToFilterRule(regex, true, exclude), Bind(varNames, varValues), matches, chart);
      match matches(regex, chart)
      case None => kept == None
      case Some(m) => kept == Some(m != exclude)
  {
    var rule := ToFilterRule(regex, true, exclude);
    var vars := ToMap(rule.variables);
    BindingIsTheMap(rule, varNames, varValues);
    assert rule.variables[1..] == [];
    assert "$var" in vars && vars["$var"] == regex;
    ParseRegex(exclude);
    assert Run(Name, Chart(chart), vars, matches) == Some(Text(chart));
    var test := Run(Test("$var"), Text(chart), vars, matches);
    var last := if exclude then Pipe(Test("$var"), Not) else Test("$var");
    assert Run(last, Text(chart), vars, matches)
      == if exclude && test.Some? then Some(Bool(!test.value.value)) else test;
  }
}
