/** Names and identifiers of stored charts: escaped when an index is read, unescaped
    before storing, so that an identifier always has exactly one slash. */
module ChartNames {
  import opened Prelude
  import opened Percent
  import opened Text

  /** Bytes that Go's url.PathEscape leaves alone in a path segment. */
  predicate KeptInPathSegment(c: char) {
    IsLetterOrDigit(c) || c in "-_.~$&+=:@"
  }

  function PathEscape(name: string): (r: string) {
    Escape(KeptInPathSegment, name)
  }

  /** The identifier of a pulled OCI chart, and of an index entry before unescaping. */
  function ChartId(repo: string, name: string): (r: string) {
    repo + "/" + PathEscape(name)
  }

  function UnescapeOrDefault(value: string): (r: string) {
    var v := ReplaceAll(value, "%2F", "%252F");
    var u := Unescape(v);
    if u.None? then v else u.value
  }

  function StoredChar(c: char): (r: string)
    ensures '/' !in r
  {
    if c == '/' then "%2F" else [c]
  }

  /** What a chart is called once stored: its name with every '/' written "%2F". */
  function StoredName(name: string): (r: string)
    ensures '/' !in r
  {
    if name == "" then "" else StoredChar(name[0]) + StoredName(name[1..])
  }

  lemma ReplaceEscapedByte(c: char, rest: string)
    requires c as int < 256
    ensures ReplaceAll(EscapeByte(KeptInPathSegment, c) + rest, "%2F", "%252F")
         == (if c == '/' then "%252F" else EscapeByte(KeptInPathSegment, c)) + ReplaceAll(rest, "%2F", "%252F")
  {
    var from, to := "%2F", "%252F";
    if KeptInPathSegment(c) {
      ReplaceMiss(c, rest, from, to);
    } else {
      var h, l := HexDigit(c as int / 16), HexDigit(c as int % 16);
      var e := ['%', h, l];
      assert HexValue('2') == Some(2) && HexValue('F') == Some(15);
      if c == '/' {
        assert e == from;
        ReplaceHit(rest, from, to);
      } else {
        assert c as int != 2 * 16 + 15;
        var t := e + rest;
        assert t[..3] == e && t[1..] == [h] + ([l] + rest);
        ReplaceMiss(h, [l] + rest, from, to);
        ReplaceMiss(l, rest, from, to);
        assert ReplaceAll(t, from, to) == ['%'] + ([h] + ([l] + ReplaceAll(rest, from, to)));
        assert ['%'] + ([h] + ([l] + ReplaceAll(rest, from, to))) == e + ReplaceAll(rest, from, to);
      }
    }
  }

  lemma UnescapeEscapedSlash(s: string)
    ensures Unescape("%252F" + s) == Before("%2F", Unescape(s))
  {
    var t := "%252F" + s;
    assert t[3..] == ['2'] + (['F'] + s);
    UnescapePlain('2', ['F'] + s);
    UnescapePlain('F', s);
    BeforeConcat(['2'], ['F'], Unescape(s));
    BeforeConcat(['%'], "2F", Unescape(s));
    assert ['2'] + ['F'] == "2F" && ['%'] + "2F" == "%2F";
    assert Unescape(t) == Before(['%'], Unescape(t[3..]));
  }

  lemma {:induction false} UnescapeOfReplaced(name: string)
    requires IsBytes(name)
    ensures Unescape(ReplaceAll(PathEscape(name), "%2F", "%252F")) == Some(StoredName(name))
  {
    if name != "" {
      var c := name[0];
      var rest := PathEscape(name[1..]);
      UnescapeOfReplaced(name[1..]);
      ReplaceEscapedByte(c, rest);
      if c == '/' {
        UnescapeEscapedSlash(ReplaceAll(rest, "%2F", "%252F"));
      } else {
        UnescapeByte(KeptInPathSegment, c, ReplaceAll(rest, "%2F", "%252F"));
      }
    }
  }

  /** Escaping at index time and unescaping before storing turns every '/' of the chart
      name into "%2F" and changes nothing else. */
  lemma UnescapedNameKeepsSlashesEscaped(name: string)
    requires IsBytes(name)
    ensures UnescapeOrDefault(PathEscape(name)) == StoredName(name)
  {
    UnescapeOfReplaced(name);
  }

  lemma {:induction false} ReplaceAfterPlain(p: string, s: string)
    requires '%' !in p
    ensures ReplaceAll(p + s, "%2F", "%252F") == p + ReplaceAll(s, "%2F", "%252F")
  {
    if p == "" {
      assert p + s == s;
    } else {
      var r := ReplaceAll(s, "%2F", "%252F");
      ReplaceAfterPlain(p[1..], s);
      ReplaceMiss(p[0], p[1..] + s, "%2F", "%252F");
      assert p + s == [p[0]] + (p[1..] + s) && p + r == [p[0]] + (p[1..] + r);
    }
  }

  lemma {:induction false} UnescapeAfterPlain(p: string, s: string)
    requires '%' !in p && Unescape(s).Some?
    ensures Unescape(p + s) == Some(p + Unescape(s).value)
  {
    if p == "" {
      assert p + s == s && p + Unescape(s).value == Unescape(s).value;
    } else {
      var u := Unescape(s).value;
      UnescapeAfterPlain(p[1..], s);
      UnescapePlain(p[0], p[1..] + s);
      assert p + s == [p[0]] + (p[1..] + s) && p + u == [p[0]] + (p[1..] + u);
    }
  }

  /** The stored identifier is the repository name, a slash and the stored chart name,
      and that slash is the only one. */
  lemma UnescapedIdHasOneSlash(repo: string, name: string)
    requires IsBytes(name) && '%' !in repo && '/' !in repo
    ensures UnescapeOrDefault(ChartId(repo, name)) == repo + "/" + StoredName(name)
    ensures Split(UnescapeOrDefault(ChartId(repo, name)), '/') == [repo, StoredName(name)]
  {
    var p := repo + "/";
    UnescapeOfReplaced(name);
    ReplaceAfterPlain(p, PathEscape(name));
    UnescapeAfterPlain(p, ReplaceAll(PathEscape(name), "%2F", "%252F"));
    SplitFirst(repo, StoredName(name), '/');
    SplitOne(StoredName(name), '/');
    assert repo + ['/'] + StoredName(name) == repo + "/" + StoredName(name);
  }

  /** Distinct OCI application names get distinct identifiers. */
  lemma ChartIdInjective(repo: string, a: string, b: string)
    requires IsBytes(a) && IsBytes(b) && a != b
    ensures ChartId(repo, a) != ChartId(repo, b)
  {
    EscapeInjective(KeptInPathSegment, a, b);
    var x, y := ChartId(repo, a), ChartId(repo, b);
    assert x[|repo| + 1..] == PathEscape(a) && y[|repo| + 1..] == PathEscape(b);
  }

  lemma StoredFirst(c: char, rest: string)
    ensures StoredName([c] + rest) == StoredChar(c) + StoredName(rest)
  {
    assert ([c] + rest)[1..] == rest;
  }

  lemma Associate(a: string, b: string, c: string)
    ensures a + (b + c) == (a + b) + c
  {
  }

  lemma {:induction false} StoredNameConcat(a: string, b: string)
    ensures StoredName(a + b) == StoredName(a) + StoredName(b)
  {
    if a == "" {
      assert a + b == b;
    } else {
      StoredNameConcat(a[1..], b);
      Associate([a[0]], a[1..], b);
      assert a == [a[0]] + a[1..];
      StoredFirst(a[0], a[1..] + b);
      Associate(StoredChar(a[0]), StoredName(a[1..]), StoredName(b));
    }
  }

  lemma {:induction false} StoredAsItIs(a: string)
    requires '/' !in a
    ensures StoredName(a) == a
  {
    if a != "" {
      StoredAsItIs(a[1..]);
      assert a == [a[0]] + a[1..];
    }
  }

  /** A slash of a name shows as "%2F" in the stored name. */
  lemma SlashShows(b: string)
    requires '/' in b
    ensures Contains(StoredName(b), "%2F")
  {
    var i :| 0 <= i < |b| && b[i] == '/';
    assert b == b[..i] + (['/'] + b[i + 1..]);
    StoredNameConcat(b[..i], ['/'] + b[i + 1..]);
    StoredFirst('/', b[i + 1..]);
    InTheMiddle(StoredName(b[..i]), "%2F", StoredName(b[i + 1..]));
  }

  lemma InTheMiddle(before: string, x: string, rest: string)
    ensures Contains(before + (x + rest), x)
  {
    assert (before + (x + rest))[|before|..|before| + |x|] == x;
    assert ContainsAt(before + (x + rest), x, |before|);
  }

  /** A name with one part replaced by another that is stored alike. */
  lemma SameStored(before: string, x: string, y: string, rest: string)
    requires StoredName(x) == StoredName(y) && x != y
    ensures StoredName(before + x + rest) == StoredName(before + y + rest) && before + x + rest != before + y + rest
  {
    StoredNameConcat(before + x, rest);
    StoredNameConcat(before + y, rest);
    StoredNameConcat(before, x);
    StoredNameConcat(before, y);
    if before + x + rest == before + y + rest {
      SameMiddle(before, x, y, rest);
    }
  }

  lemma SameMiddle(before: string, x: string, y: string, rest: string)
    requires before + x + rest == before + y + rest
    ensures x == y
  {
    assert |x| == |y|;
    assert (before + x + rest)[|before|..|before| + |x|] == x;
    assert (before + y + rest)[|before|..|before| + |y|] == y;
  }

  lemma EscapedSlashIsStoredAsItIs()
    ensures StoredName("%2F") == StoredName("/") == "%2F"
  {
    StoredAsItIs("%2F");
    assert "/"[1..] == "";
  }

  /** Index names are not so lucky: a name shares its stored name, and so its identifier, with
      another just when it has a slash or the text "%2F". */
  lemma StoredNameClashIff(a: string)
    ensures (exists b :: b != a && StoredName(b) == StoredName(a)) <==> '/' in a || Contains(a, "%2F")
  {
    if '/' in a || Contains(a, "%2F") {
      var b := Twin(a);
    } else {
      StoredAsItIs(a);
      forall b | b != a ensures StoredName(b) != a {
        if '/' in b {
          SlashShows(b);
        } else {
          StoredAsItIs(b);
        }
      }
    }
  }

  /** The slash swapped for its escape, or the other way round. */
  lemma Twin(a: string) returns (b: string)
    requires '/' in a || Contains(a, "%2F")
    ensures b != a && StoredName(b) == StoredName(a)
  {
    EscapedSlashIsStoredAsItIs();
    if '/' in a {
      var i :| 0 <= i < |a| && a[i] == '/';
      b := Swapped(a, i, "/", "%2F");
    } else {
      var i :| ContainsAt(a, "%2F", i);
      b := Swapped(a, i, "%2F", "/");
    }
  }

  lemma Swapped(a: string, i: nat, x: string, y: string) returns (b: string)
    requires ContainsAt(a, x, i) && StoredName(x) == StoredName(y) && x != y
    ensures b != a && StoredName(b) == StoredName(a)
  {
    b := a[..i] + y + a[i + |x|..];
    SameStored(a[..i], x, y, a[i + |x|..]);
    assert a == a[..i] + x + a[i + |x|..];
  }
}
