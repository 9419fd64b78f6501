/** The catalogue's filters in the query string, with '__' standing for a comma. Text is
    given as its UTF-8 bytes. */
module CatalogQuery {
  import opened Prelude
  import opened Text
  import opened Percent

  /** The values chosen for one filter; an empty list is no filter. */
  datatype Filter = Filter(name: string, values: seq<string>)

  /** The bytes that `encodeURIComponent` leaves alone. */
  predicate KeptInQuery(c: char) {
    IsLetterOrDigit(c) || c in "-_.!~*'()"
  }

  // ------------------------------------------------------------- one value

  function HideCommas(v: string): string {
    ReplaceAll(v, ",", "__")
  }

  function ShowCommas(v: string): string {
    ReplaceAll(v, "__", ",")
  }

  function EncodeValue(v: string): string {
    Escape(KeptInQuery, HideCommas(v))
  }

  predicate UnderscoreClash(v: string) {
    |v| >= 2 && ((v[0] == '_' && (v[1] == '_' || v[1] == ',')) || UnderscoreClash(v[1..]))
  }

  lemma HideStep(c: char, v: string)
    ensures HideCommas([c] + v) == (if c == ',' then "__" else [c]) + HideCommas(v)
  {
    if c == ',' {
      ReplaceHit(v, ",", "__");
    } else {
      ReplaceMiss(c, v, ",", "__");
    }
  }

  lemma ShowStep(c: char, w: string)
    ensures c != '_' || w == "" || w[0] != '_' ==> ShowCommas([c] + w) == [c] + ShowCommas(w)
    ensures c == '_' && w != "" && w[0] == '_' ==> ShowCommas([c] + w) == "," + ShowCommas(w[1..])
  {
    var s := [c] + w;
    assert s[1..] == w;
    if c == '_' && w != "" && w[0] == '_' {
      assert s[..2] == "__" && s[2..] == w[1..];
    } else if |s| >= 2 {
      assert s[..2][0] == c && s[..2][1] == w[0];
    }
  }

  lemma {:induction false} SurvivesUnlessClash(v: string)
    ensures ShowCommas(HideCommas(v)) == v <==> !UnderscoreClash(v)
  {
    if v != "" {
      var rest := v[1..];
      assert v == [v[0]] + rest;
      HideStep(v[0], rest);
      SurvivesUnlessClash(rest);
      var hidden := HideCommas(rest);
      if v[0] == ',' {
        assert "__" + hidden == ['_'] + (['_'] + hidden);
        ShowStep('_', ['_'] + hidden);
        assert (['_'] + hidden)[1..] == hidden;
      } else {
        ShowStep(v[0], hidden);
        if rest != "" {
          assert rest == [rest[0]] + rest[1..];
          HideStep(rest[0], rest[1..]);
        }
      }
    }
  }

  lemma {:induction false} ClashIsContained(v: string)
    ensures UnderscoreClash(v) <==> Contains(v, "__") || Contains(v, "_,")
  {
    if |v| >= 2 {
      ClashIsContained(v[1..]);
      ContainedStep(v, "__");
      ContainedStep(v, "_,");
      assert v[..2] == [v[0], v[1]];
    }
  }

  lemma ContainedStep(v: string, sub: string)
    requires 0 < |sub| <= |v|
    ensures Contains(v, sub) <==> v[..|sub|] == sub || Contains(v[1..], sub)
  {
    if Contains(v, sub) {
      var i :| ContainsAt(v, sub, i);
      if i > 0 {
        assert v[1..][i - 1..i - 1 + |sub|] == v[i..i + |sub|];
        assert ContainsAt(v[1..], sub, i - 1);
      }
    }
    if v[..|sub|] == sub {
      assert ContainsAt(v, sub, 0);
    }
    if Contains(v[1..], sub) {
      var i :| ContainsAt(v[1..], sub, i);
      assert v[1..][i..i + |sub|] == v[i + 1..i + 1 + |sub|];
      assert ContainsAt(v, sub, i + 1);
    }
  }

  /** A value survives the query string just when it has neither "__" nor "_,". */
  lemma ValueSurvivesIff(v: string)
    ensures ShowCommas(HideCommas(v)) == v <==> !Contains(v, "__") && !Contains(v, "_,")
  {
    SurvivesUnlessClash(v);
    ClashIsContained(v);
  }

  // ------------------------------------------------------------- the query string

  function EncodeFilter(f: Filter): string {
    f.name + "=" + Join(Map(EncodeValue, f.values), ",")
  }

  function Active(filters: seq<Filter>): seq<Filter> {
    if filters == [] then []
    else (if filters[0].values == [] then [] else [filters[0]]) + Active(filters[1..])
  }

  function FiltersToQuery(filters: seq<Filter>): string {
    if Active(filters) == [] then "" else "?" + Join(Map(EncodeFilter, Active(filters)), "&")
  }

  lemma {:induction false} ActiveIffChosen(filters: seq<Filter>)
    ensures Active(filters) == [] <==> forall i :: 0 <= i < |filters| ==> filters[i].values == []
  {
    if filters != [] {
      ActiveIffChosen(filters[1..]);
      assert forall i :: 0 < i < |filters| ==> filters[i] == filters[1..][i - 1];
    }
  }

  /** Without a chosen value there is no query at all. */
  lemma NoQueryIff(filters: seq<Filter>)
    ensures FiltersToQuery(filters) == "" <==> forall i :: 0 <= i < |filters| ==> filters[i].values == []
  {
    ActiveIffChosen(filters);
  }

  function IndexOf(s: string, c: char): (i: int)
    ensures -1 <= i < |s|
    ensures i >= 0 ==> s[i] == c && c !in s[..i]
    ensures i < 0 ==> c !in s
  {
    if s == "" then -1
    else if s[0] == c then 0
    else
      var i := IndexOf(s[1..], c);
      if i < 0 then -1 else i + 1
  }

  /** A text that is no percent-encoding stays as it is. */
  function DecodeText(s: string): string {
    var t := ReplaceAll(s, "+", " ");
    if Unescape(t).Some? then Unescape(t).value else t
  }

  datatype Entry = Entry(name: string, value: string)

  function ParseEntry(part: string): Entry {
    var pos := IndexOf(part, '=');
    if pos < 0 then Entry(DecodeText(part), "") else Entry(DecodeText(part[..pos]), DecodeText(part[pos + 1..]))
  }

  function ParseQuery(search: string): seq<Entry> {
    var body := if search != "" && search[0] == '?' then search[1..] else search;
    if body == "" then [] else Map(ParseEntry, Split(body, '&'))
  }

  /** The question mark in front is optional, and an entry without a value has the empty one. */
  lemma BareQuery(name: string)
    requires name != "" && forall c :: c in name ==> IsLetterOrDigit(c)
    ensures ParseQuery("?" + name) == ParseQuery(name) == [Entry(DecodeText(name), "")]
  {
    assert name[0] in name && ("?" + name)[1..] == name;
    assert !IsLetterOrDigit('=') && !IsLetterOrDigit('&') && !IsLetterOrDigit('?');
    SplitOne(name, '&');
    assert IndexOf(name, '=') < 0;
    assert Map(ParseEntry, [name]) == [ParseEntry(name)];
  }

  function DecodeValues(value: string): seq<string> {
    Map(ShowCommas, Split(value, ','))
  }

  function NewFilters(entries: seq<Entry>): map<string, seq<string>> {
    if entries == [] then map[]
    else
      var last := entries[|entries| - 1];
      NewFilters(entries[..|entries| - 1])[last.name := DecodeValues(last.value)]
  }

  lemma NewFiltersNext(entries: seq<Entry>, i: nat)
    requires i < |entries|
    ensures NewFilters(entries[..i + 1]) == NewFilters(entries[..i])[entries[i].name := DecodeValues(entries[i].value)]
  {
    assert entries[..i + 1][..i] == entries[..i];
  }

  /** The decoding effect: the initial state, overridden filter by filter. */
  method DecodeFilters(search: string, initial: map<string, seq<string>>) returns (filters: map<string, seq<string>>)
    ensures filters == initial + NewFilters(ParseQuery(search))
  {
    var entries := ParseQuery(search);
    var newFilters := map[];
    assert entries[..0] == [];
    for i := 0 to |entries|
      invariant newFilters == NewFilters(entries[..i])
    {
      NewFiltersNext(entries, i);
      newFilters := newFilters[entries[i].name := DecodeValues(entries[i].value)];
    }
    assert entries[..|entries|] == entries;
    return initial + newFilters;
  }

  // ------------------------------------------------------------- transport

  ghost predicate PlainFilter(f: Filter) {
    && (forall i :: 0 <= i < |f.name| ==> IsLetterOrDigit(f.name[i]))
    && (forall i :: 0 <= i < |f.values| ==> IsBytes(f.values[i]))
  }

  lemma {:induction false} HiddenIsBytes(v: string)
    requires IsBytes(v)
    ensures IsBytes(HideCommas(v)) && ',' !in HideCommas(v)
  {
    if v != "" {
      HiddenIsBytes(v[1..]);
      assert v == [v[0]] + v[1..];
      HideStep(v[0], v[1..]);
    }
  }

  lemma {:induction false} NothingToReplace(s: string, c: char, to: string)
    requires c !in s
    ensures ReplaceAll(s, [c], to) == s
  {
    if s != "" {
      NothingToReplace(s[1..], c, to);
      assert s == [s[0]] + s[1..];
      ReplaceMiss(s[0], s[1..], [c], to);
    }
  }

  lemma {:induction false} UnescapeText(s: string)
    requires '%' !in s
    ensures Unescape(s) == Some(s)
  {
    if s != "" {
      UnescapeText(s[1..]);
      assert s == [s[0]] + s[1..];
    }
  }

  /** Separators of the query never come out of a value. */
  lemma NoSeparator(v: string, c: char)
    requires IsBytes(v) && c in "&=+"
    ensures c !in EncodeValue(v)
  {
    HiddenIsBytes(v);
    EscapedAlphabet(KeptInQuery, HideCommas(v), c);
  }

  lemma JoinStep(values: seq<string>, f: string -> string)
    requires |values| > 1
    ensures Join(Map(f, values), ",") == f(values[0]) + ([','] + Join(Map(f, values[1..]), ","))
  {
    assert Map(f, values)[1..] == Map(f, values[1..]);
  }

  lemma {:induction false} JoinedValues(values: seq<string>)
    requires values != [] && forall i :: 0 <= i < |values| ==> IsBytes(values[i])
    ensures var text := Join(Map(EncodeValue, values), ",");
      '&' !in text && '=' !in text && '+' !in text
      && Unescape(text) == Some(Join(Map(HideCommas, values), ","))
  {
    var v := values[0];
    HiddenIsBytes(v);
    NoSeparator(v, '&');
    NoSeparator(v, '=');
    NoSeparator(v, '+');
    if |values| == 1 {
      UnescapeEscape(KeptInQuery, HideCommas(v));
    } else {
      var rest := Join(Map(EncodeValue, values[1..]), ",");
      JoinedValues(values[1..]);
      JoinStep(values, EncodeValue);
      JoinStep(values, HideCommas);
      UnescapePlain(',', rest);
      UnescapePrefix(KeptInQuery, HideCommas(v), [','] + rest);
    }
  }

  lemma FirstIndex(a: string, b: string, c: char)
    requires c !in a
    ensures IndexOf(a + [c] + b, c) == |a|
  {
    var s := a + [c] + b;
    var i := IndexOf(s, c);
    assert s[|a|] == c;
    assert forall j :: 0 <= j < |a| ==> s[j] == a[j] && a[j] in a;
  }

  /** One filter comes out of its part of the query with the commas still hidden. */
  lemma FilterIsParsed(f: Filter)
    requires PlainFilter(f) && f.values != []
    ensures ParseEntry(EncodeFilter(f)) == Entry(f.name, Join(Map(HideCommas, f.values), ","))
    ensures '&' !in EncodeFilter(f)
  {
    var text := Join(Map(EncodeValue, f.values), ",");
    JoinedValues(f.values);
    assert EncodeFilter(f) == f.name + ['='] + text;
    FirstIndex(f.name, text, '=');
    assert EncodeFilter(f)[..|f.name|] == f.name && EncodeFilter(f)[|f.name| + 1..] == text;
    NothingToReplace(f.name, '+', " ");
    NothingToReplace(text, '+', " ");
    UnescapeText(f.name);
  }

  function Returned(f: Filter): seq<string> {
    Map(v => ShowCommas(HideCommas(v)), f.values)
  }

  lemma ValuesAreDecoded(f: Filter)
    requires PlainFilter(f) && f.values != []
    ensures DecodeValues(Join(Map(HideCommas, f.values), ",")) == Returned(f)
  {
    var hidden := Map(HideCommas, f.values);
    forall i | 0 <= i < |hidden| ensures ',' !in hidden[i] {
      HiddenIsBytes(f.values[i]);
    }
    SplitJoin(hidden, ',');
    assert Map(ShowCommas, hidden) == Returned(f);
  }

  ghost predicate PlainFilters(filters: seq<Filter>) {
    && (forall i :: 0 <= i < |filters| ==> PlainFilter(filters[i]))
    && (forall i, j :: 0 <= i < j < |filters| ==> filters[i].name != filters[j].name)
  }

  lemma {:induction false} ActiveIsSub(filters: seq<Filter>)
    requires PlainFilters(filters)
    ensures PlainFilters(Active(filters))
    ensures forall f :: f in Active(filters) <==> f in filters && f.values != []
  {
    if filters != [] {
      ActiveIsSub(filters[1..]);
      assert filters == [filters[0]] + filters[1..];
      var rest := Active(filters[1..]);
      if filters[0].values != [] {
        forall i | 0 <= i < |rest| ensures rest[i].name != filters[0].name {
          assert rest[i] in filters[1..];
        }
      }
    }
  }

  function EntryOf(f: Filter): Entry {
    Entry(f.name, Join(Map(HideCommas, f.values), ","))
  }

  lemma PartsAreParsed(active: seq<Filter>)
    requires PlainFilters(active) && active != [] && forall f :: f in active ==> f.values != []
    ensures var body := Join(Map(EncodeFilter, active), "&");
      body != "" && Map(ParseEntry, Split(body, '&')) == Map(EntryOf, active)
  {
    var parts := Map(EncodeFilter, active);
    forall i | 0 <= i < |parts| ensures '&' !in parts[i] && ParseEntry(parts[i]) == EntryOf(active[i]) {
      assert active[i] in active;
      FilterIsParsed(active[i]);
    }
    assert '=' in parts[0] && parts[0] != "";
    SplitJoin(parts, '&');
    assert Map(ParseEntry, parts) == Map(EntryOf, active);
  }

  /** The query parses into one entry for each active filter. */
  lemma QueryIsParsed(filters: seq<Filter>)
    requires PlainFilters(filters)
    ensures ParseQuery(FiltersToQuery(filters)) == Map(EntryOf, Active(filters))
  {
    var active := Active(filters);
    ActiveIsSub(filters);
    if active != [] {
      var body := Join(Map(EncodeFilter, active), "&");
      assert FiltersToQuery(filters) == "?" + body && ("?" + body)[1..] == body;
      PartsAreParsed(active);
    }
  }

  /** What the entries of some filters come to. */
  function FilterMap(active: seq<Filter>): map<string, seq<string>> {
    NewFilters(Map(EntryOf, active))
  }

  lemma FilterMapStep(init: seq<Filter>, last: Filter)
    requires PlainFilter(last) && last.values != []
    ensures FilterMap(init + [last]) == FilterMap(init)[last.name := Returned(last)]
  {
    MapConcat(EntryOf, init, [last]);
    var entries := Map(EntryOf, init + [last]);
    assert entries[..|entries| - 1] == Map(EntryOf, init);
    ValuesAreDecoded(last);
  }

  lemma WithoutLast(init: seq<Filter>, last: Filter)
    requires PlainFilters(init + [last])
    ensures PlainFilters(init) && PlainFilter(last)
    ensures forall g :: g in init ==> g.name != last.name
  {
    var all := init + [last];
    assert all[|init|] == last;
    forall g | g in init ensures g.name != last.name {
      var i :| 0 <= i < |init| && init[i] == g;
      assert all[i] == g;
    }
    forall i, j | 0 <= i < j < |init| ensures init[i].name != init[j].name {
      assert all[i] == init[i] && all[j] == init[j];
    }
    forall i | 0 <= i < |init| ensures PlainFilter(init[i]) {
      assert all[i] == init[i];
    }
  }

  predicate Maps(m: map<string, seq<string>>, f: Filter) {
    f.name in m && m[f.name] == Returned(f)
  }

  lemma MapsStill(m: map<string, seq<string>>, f: Filter, name: string, values: seq<string>)
    requires Maps(m, f) && f.name != name
    ensures Maps(m[name := values], f)
  {
  }

  lemma {:induction false} FilterMapHas(active: seq<Filter>, i: nat)
    requires PlainFilters(active) && forall g :: g in active ==> g.values != []
    requires i < |active|
    ensures Maps(FilterMap(active), active[i])
    decreases |active|
  {
    var init, last := active[..|active| - 1], active[|active| - 1];
    assert active == init + [last] && last in active;
    WithoutLast(init, last);
    FilterMapStep(init, last);
    if i < |init| {
      assert active[i] == init[i] && init[i] in init;
      FilterMapHas(init, i);
      MapsStill(FilterMap(init), init[i], last.name, Returned(last));
    }
  }

  lemma {:induction false} FilterMapHasNoOther(active: seq<Filter>, name: string)
    requires PlainFilters(active) && forall g :: g in active ==> g.values != [] && g.name != name
    ensures name !in FilterMap(active)
    decreases |active|
  {
    if active != [] {
      var init, last := active[..|active| - 1], active[|active| - 1];
      assert active == init + [last] && last in active;
      WithoutLast(init, last);
      FilterMapStep(init, last);
      FilterMapHasNoOther(init, name);
    }
  }

  /** Every chosen filter comes back with its values as they survive, and no other filter
      appears. */
  lemma QueryReturnsFilters(filters: seq<Filter>, f: Filter)
    requires PlainFilters(filters) && f in filters
    ensures var r := NewFilters(ParseQuery(FiltersToQuery(filters)));
      if f.values == [] then f.name !in r else f.name in r && r[f.name] == Returned(f)
  {
    QueryIsParsed(filters);
    ActiveIsSub(filters);
    if f.values == [] {
      forall g | g in Active(filters) ensures g.name != f.name {
        var i :| 0 <= i < |filters| && filters[i] == f;
        var j :| 0 <= j < |filters| && filters[j] == g;
        assert i != j;
      }
      FilterMapHasNoOther(Active(filters), f.name);
    } else {
      var k :| 0 <= k < |Active(filters)| && Active(filters)[k] == f;
      FilterMapHas(Active(filters), k);
    }
  }

  /** A name that no filter has does not appear. */
  lemma NoOtherName(filters: seq<Filter>, name: string)
    requires PlainFilters(filters) && forall f :: f in filters ==> f.name != name
    ensures name !in NewFilters(ParseQuery(FiltersToQuery(filters)))
  {
    QueryIsParsed(filters);
    ActiveIsSub(filters);
    FilterMapHasNoOther(Active(filters), name);
  }

  ghost predicate Survives(f: Filter) {
    forall i :: 0 <= i < |f.values| ==> !Contains(f.values[i], "__") && !Contains(f.values[i], "_,")
  }

  lemma ReturnedIff(f: Filter)
    ensures Returned(f) == f.values <==> Survives(f)
  {
    forall i | 0 <= i < |f.values|
      ensures Returned(f)[i] == f.values[i] <==> !Contains(f.values[i], "__") && !Contains(f.values[i], "_,")
    {
      ValueSurvivesIff(f.values[i]);
    }
    if Survives(f) {
      assert Returned(f) == f.values;
    }
  }

  /** The state in which the catalogue holds some filters. */
  ghost predicate Holds(state: map<string, seq<string>>, filters: seq<Filter>) {
    && (forall f :: f in filters ==> f.name in state && state[f.name] == f.values)
    && (forall name :: name in state ==> exists f :: f in filters && f.name == name)
  }

  lemma HoldsIff(state: map<string, seq<string>>, filters: seq<Filter>)
    requires forall f :: f in filters ==> f.name in state && (state[f.name] == f.values <==> Survives(f))
    requires forall name :: name in state ==> exists f :: f in filters && f.name == name
    ensures Holds(state, filters) <==> forall f :: f in filters ==> Survives(f)
  {
  }

  lemma FilterReturns(filters: seq<Filter>, initial: map<string, seq<string>>, f: Filter)
    requires PlainFilters(filters) && f in filters && f.name in initial && initial[f.name] == []
    ensures var r := initial + NewFilters(ParseQuery(FiltersToQuery(filters)));
      f.name in r && (r[f.name] == f.values <==> Survives(f))
  {
    QueryReturnsFilters(filters, f);
    ReturnedIff(f);
  }

  /** Reading the query back over the state without chosen values restores the state exactly
      when no chosen value has "__" or "_,". */
  lemma FiltersSurviveIff(filters: seq<Filter>, initial: map<string, seq<string>>)
    requires PlainFilters(filters)
    requires initial.Keys == (set f | f in filters :: f.name) && forall name :: name in initial ==> initial[name] == []
    ensures Holds(initial + NewFilters(ParseQuery(FiltersToQuery(filters))), filters)
      <==> forall f :: f in filters ==> Survives(f)
  {
    var found := NewFilters(ParseQuery(FiltersToQuery(filters)));
    forall f | f in filters
      ensures f.name in initial + found && ((initial + found)[f.name] == f.values <==> Survives(f))
    {
      assert f.name in initial.Keys;
      FilterReturns(filters, initial, f);
    }
    forall name | name in initial + found ensures exists f :: f in filters && f.name == name {
      if name in initial {
        assert name in initial.Keys;
      } else if forall f :: f in filters ==> f.name != name {
        NoOtherName(filters, name);
      }
    }
    HoldsIff(initial + found, filters);
  }
}
