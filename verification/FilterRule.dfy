/** Filters of a package repository: from a list of names to a jq rule and back, and what the
    rule means to the syncer. */
module FilterRule {
  import opened Prelude
  import opened Text

  datatype Binding = Binding(name: string, value: string)

  /** The variables in the order of their insertion. */
  datatype Rule = Rule(jq: string, variables: seq<Binding>)

  datatype Params = Params(names: string, regex: bool, exclude: bool)

  // ------------------------------------------------------------- text

  predicate IsSpace(c: char) {
    var n := c as int;
    9 <= n <= 13 || n == 32 || n == 0xA0 || n == 0x1680 || 0x2000 <= n <= 0x200A || n == 0x2028 || n == 0x2029
    || n == 0x202F || n == 0x205F || n == 0x3000 || n == 0xFEFF
  }

  function Trim(s: string): (r: string)
    ensures |r| <= |s|
    ensures forall c :: c in r ==> c in s
  {
    if s == "" then ""
    else if IsSpace(s[0]) then Trim(s[1..])
    else if IsSpace(s[|s| - 1]) then Trim(s[..|s| - 1])
    else s
  }

  predicate AllSpace(s: string) {
    forall i :: 0 <= i < |s| ==> IsSpace(s[i])
  }

  /** Neither its first nor its last character is a space. */
  predicate Bare(s: string) {
    s != "" ==> !IsSpace(s[0]) && !IsSpace(s[|s| - 1])
  }

  lemma {:induction false} TrimTakesEnds(before: string, core: string, after: string)
    requires AllSpace(before) && Bare(core) && AllSpace(after)
    ensures Trim(before + core + after) == core
    decreases |before| + |after|
  {
    var s := before + core + after;
    if before != "" {
      assert s[1..] == before[1..] + core + after && s[0] == before[0];
      TrimTakesEnds(before[1..], core, after);
    } else if after != "" {
      TrimTakesEnds("", core, after[..|after| - 1]);
      assert s[..|s| - 1] == "" + core + after[..|after| - 1] && s[|s| - 1] == after[|after| - 1];
      if IsSpace(s[0]) {
        assert core == "" && AllSpace(after[1..]);
        assert s[1..] == "" + core + after[1..];
        TrimTakesEnds("", core, after[1..]);
      }
    } else {
      assert s == core;
    }
  }

  /** `core` is left when the spaces at both ends of `s` are taken off. */
  ghost predicate TrimsTo(s: string, core: string) {
    exists before, after :: AllSpace(before) && AllSpace(after) && Bare(core) && s == before + core + after
  }

  lemma SpaceBefore(s: string, core: string)
    requires s != "" && IsSpace(s[0]) && TrimsTo(s[1..], core)
    ensures TrimsTo(s, core)
  {
    var before, after :| AllSpace(before) && AllSpace(after) && Bare(core) && s[1..] == before + core + after;
    var b := [s[0]] + before;
    assert AllSpace(b) && s == b + core + after;
  }

  lemma SpaceAfter(s: string, core: string)
    requires s != "" && IsSpace(s[|s| - 1]) && TrimsTo(s[..|s| - 1], core)
    ensures TrimsTo(s, core)
  {
    var before, after :| AllSpace(before) && AllSpace(after) && Bare(core) && s[..|s| - 1] == before + core + after;
    var a := after + [s[|s| - 1]];
    assert AllSpace(a) && s == before + core + a;
  }

  /** Trimming takes off the spaces at both ends and nothing else. */
  lemma {:induction false} TrimIs(s: string, core: string)
    ensures Trim(s) == core <==> TrimsTo(s, core)
  {
    TrimsToTrim(s);
    if TrimsTo(s, core) {
      var before, after :| AllSpace(before) && AllSpace(after) && Bare(core) && s == before + core + after;
      TrimTakesEnds(before, core, after);
    }
  }

  lemma {:induction false} TrimsToTrim(s: string)
    ensures TrimsTo(s, Trim(s))
  {
    if s == "" || (!IsSpace(s[0]) && !IsSpace(s[|s| - 1])) {
      assert AllSpace("") && s == "" + s + "";
    } else if IsSpace(s[0]) {
      TrimsToTrim(s[1..]);
      SpaceBefore(s, Trim(s));
    } else {
      TrimsToTrim(s[..|s| - 1]);
      SpaceAfter(s, Trim(s));
    }
  }

  lemma {:induction false} TrimTwice(s: string)
    ensures Trim(Trim(s)) == Trim(s)
  {
    if s != "" {
      if IsSpace(s[0]) {
        TrimTwice(s[1..]);
      } else if IsSpace(s[|s| - 1]) {
        TrimTwice(s[..|s| - 1]);
      }
    }
  }

  lemma {:induction false} SplitAfterSpace(s: string)
    ensures Split(" " + s, ',') == [" " + Split(s, ',')[0]] + Split(s, ',')[1..]
    ensures Map(Trim, Split(" " + s, ',')) == Map(Trim, Split(s, ','))
  {
    var t := " " + s;
    assert t[1..] == s && t[0] == ' ';
    var parts := Split(s, ',');
    assert Split(t, ',') == [[' '] + parts[0]] + parts[1..];
    assert (" " + parts[0])[1..] == parts[0];
    var l, r := Map(Trim, Split(t, ',')), Map(Trim, parts);
    assert forall i :: 0 <= i < |l| ==> l[i] == r[i];
  }

  ghost predicate Clean(values: seq<string>) {
    forall i :: 0 <= i < |values| ==> Trim(values[i]) == values[i] && ',' !in values[i]
  }

  lemma {:induction false} NamesSurvive(values: seq<string>)
    requires values != [] && Clean(values)
    ensures Map(Trim, Split(Join(values, ", "), ',')) == values
  {
    if |values| == 1 {
      SplitOne(values[0], ',');
    } else {
      var rest := Join(values[1..], ", ");
      NamesSurvive(values[1..]);
      SplitAfterSpace(rest);
      assert values[0] + ", " + rest == values[0] + [','] + (" " + rest);
      SplitFirst(values[0], " " + rest, ',');
      MapConcat(Trim, [values[0]], Split(" " + rest, ','));
      assert values == [values[0]] + values[1..];
    }
  }

  // ------------------------------------------------------------- the rule

  function NamesOf(names: string): (r: seq<string>)
    ensures r != []
  {
    Map(Trim, Split(names, ','))
  }

  lemma NamesAreClean(names: string)
    ensures Clean(NamesOf(names))
  {
    forall i | 0 <= i < |NamesOf(names)| ensures Trim(NamesOf(names)[i]) == NamesOf(names)[i] {
      TrimTwice(Split(names, ',')[i]);
    }
  }

  function Var(i: nat): string {
    "$var" + Decimal(i)
  }

  function Bindings(values: seq<string>, i: nat): seq<Binding> {
    if values == [] then [] else [Binding(Var(i), values[0])] + Bindings(values[1..], i + 1)
  }

  /** One comparison for each of the variables from `i` on. */
  function Terms(i: nat, n: nat): (r: seq<string>)
    decreases n - i
  {
    if i >= n then [] else [".name == " + Var(i)] + Terms(i + 1, n)
  }

  const NOT := " | not"

  function ToFilterRule(names: string, regex: bool, exclude: bool): Rule {
    var suffix := if exclude then NOT else "";
    if regex then Rule(".name | test($var)" + suffix, [Binding("$var", names)])
    else
      var list := NamesOf(names);
      Rule(Join(Terms(0, |list|), " or ") + suffix, Bindings(list, 0))
  }

  function Values(variables: seq<Binding>): seq<string> {
    Map((b: Binding) => b.value, variables)
  }

  ghost function ToParams(rule: Rule): Params {
    Params(Join(Values(rule.variables), ", "), Contains(rule.jq, "| test"), Contains(rule.jq, "| not"))
  }

  lemma {:induction false} ValuesOfBindings(values: seq<string>, i: nat)
    ensures Values(Bindings(values, i)) == values
  {
    if values != [] {
      ValuesOfBindings(values[1..], i + 1);
      MapConcat((b: Binding) => b.value, [Binding(Var(i), values[0])], Bindings(values[1..], i + 1));
    }
  }

  lemma {:induction false} TermsHaveNoPipe(i: nat, n: nat)
    ensures '|' !in Join(Terms(i, n), " or ")
    decreases n - i
  {
    if i < n {
      DecimalIsDigits(i);
      TermsHaveNoPipe(i + 1, n);
      assert Terms(i, n)[1..] == Terms(i + 1, n);
    }
  }

  /** A text whose '|' are those of the suffix contains what the suffix contains. */
  lemma PipeIsInSuffix(body: string, suffix: string, sub: string)
    requires '|' !in body && sub != "" && sub[0] == '|'
    ensures Contains(body + suffix, sub) <==> Contains(suffix, sub)
  {
    var s := body + suffix;
    if Contains(s, sub) {
      var i :| ContainsAt(s, sub, i);
      assert s[i] == s[i..i + |sub|][0] == '|';
      assert forall j :: 0 <= j < |body| ==> s[j] == body[j] && body[j] in body;
      assert suffix[i - |body|..i - |body| + |sub|] == s[i..i + |sub|];
      assert ContainsAt(suffix, sub, i - |body|);
    }
    if Contains(suffix, sub) {
      var i :| ContainsAt(suffix, sub, i);
      assert s[|body| + i..|body| + i + |sub|] == suffix[i..i + |sub|];
      assert ContainsAt(s, sub, |body| + i);
    }
  }

  lemma SuffixFlags()
    ensures !Contains("", "| test") && !Contains("", "| not")
    ensures !Contains(NOT, "| test") && Contains(NOT, "| not")
    ensures Contains("| test($var)", "| test") && !Contains("| test($var)", "| not")
    ensures Contains("| test($var) | not", "| test") && Contains("| test($var) | not", "| not")
  {
    assert ContainsAt(NOT, "| not", 1);
    assert ContainsAt("| test($var)", "| test", 0);
    assert ContainsAt("| test($var) | not", "| test", 0);
    assert "| test($var) | not"[13..18] == "| not";
    assert ContainsAt("| test($var) | not", "| not", 13);
    MissingChar("| test($var)", "| not", 'o');
    MissingChar(NOT, "| test", 'e');
  }

  lemma MissingChar(s: string, sub: string, c: char)
    requires c in sub && c !in s
    ensures !Contains(s, sub)
  {
    var k :| 0 <= k < |sub| && sub[k] == c;
    forall i ensures !ContainsAt(s, sub, i) {
      if 0 <= i <= |s| - |sub| {
        assert s[i..i + |sub|][k] == s[i + k];
      }
    }
  }

  /** The form shows of a generated rule just what generates it again. */
  lemma RuleSurvivesForm(names: string, regex: bool, exclude: bool)
    ensures var rule := ToFilterRule(names, regex, exclude);
      var p := ToParams(rule);
      p.regex == regex && p.exclude == exclude && ToFilterRule(p.names, p.regex, p.exclude) == rule
  {
    var rule := ToFilterRule(names, regex, exclude);
    if regex {
      RegexFlags(exclude);
      assert Values(rule.variables) == [names];
    } else {
      var list := NamesOf(names);
      NamesAreClean(names);
      ValuesOfBindings(list, 0);
      NamesSurvive(list);
      ListFlags(|list|, exclude);
    }
  }

  lemma RegexFlags(exclude: bool)
    ensures var jq := ".name | test($var)" + if exclude then NOT else "";
      Contains(jq, "| test") && (Contains(jq, "| not") <==> exclude)
  {
    var tail := if exclude then "| test($var) | not" else "| test($var)";
    SuffixFlags();
    PipeIsInSuffix(".name ", tail, "| test");
    PipeIsInSuffix(".name ", tail, "| not");
    RegexText(exclude);
  }

  lemma RegexText(exclude: bool)
    ensures ".name | test($var)" + (if exclude then NOT else "")
      == ".name " + if exclude then "| test($var) | not" else "| test($var)"
  {
    if exclude {
      assert ".name | test($var)" + NOT == ".name | test($var) | not" == ".name " + "| test($var) | not";
    } else {
      assert ".name | test($var)" + "" == ".name | test($var)" == ".name " + "| test($var)";
    }
  }

  lemma ListFlags(n: nat, exclude: bool)
    ensures var jq := Join(Terms(0, n), " or ") + if exclude then NOT else "";
      !Contains(jq, "| test") && (Contains(jq, "| not") <==> exclude)
  {
    var suffix := if exclude then NOT else "";
    SuffixFlags();
    TermsHaveNoPipe(0, n);
    PipeIsInSuffix(Join(Terms(0, n), " or "), suffix, "| test");
    PipeIsInSuffix(Join(Terms(0, n), " or "), suffix, "| not");
  }
}
