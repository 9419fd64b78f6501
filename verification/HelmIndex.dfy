/** Index repositories: the charts of an index as they are stored, and the stored charts
    to delete. */
module HelmIndex {
  import opened Prelude
  import opened Versions
  import opened Percent
  import opened ChartNames
  import opened Catalogue

  datatype Entry = Entry(name: string, about: string, version: Version, digest: string, deprecated: bool)

  /** The entries of one chart, newest first. */
  type ChartEntries = seq<Entry>

  predicate Eligible(e: ChartEntries) {
    e != [] && !e[0].deprecated
  }

  function EntryVersion(e: Entry): ChartVersion {
    ChartVersion(e.version, e.digest)
  }

  function NewChart(repo: string, e: ChartEntries, shallow: bool): Chart
    requires e != []
  {
    Chart(ChartId(repo, e[0].name), PathEscape(e[0].name), e[0].about,
          Map(EntryVersion, if shallow then [e[0]] else e))
  }

  function UnescapeChartData(c: Chart): Chart {
    c.(name := UnescapeOrDefault(c.name), id := UnescapeOrDefault(c.id))
  }

  predicate IdsAscend(charts: seq<Chart>) {
    forall i, j :: 0 <= i < j < |charts| ==> CompareText(charts[i].id, charts[j].id) <= 0
  }

  /** Puts the chart before the first one with a greater identifier. */
  method InsertById(charts: seq<Chart>, c: Chart) returns (r: seq<Chart>)
    requires IdsAscend(charts)
    ensures IdsAscend(r) && multiset(r) == multiset(charts) + multiset{c}
  {
    var i := 0;
    while i < |charts| && CompareText(charts[i].id, c.id) <= 0
      invariant 0 <= i <= |charts|
      invariant forall k :: 0 <= k < i ==> CompareText(charts[k].id, c.id) <= 0
    {
      i := i + 1;
    }
    r := charts[..i] + [c] + charts[i..];
    Inserted(charts, i, c);
    if i < |charts| {
      forall k | i <= k < |charts| ensures CompareText(c.id, charts[k].id) <= 0 {
        TextOrder(charts[k].id, charts[i].id, c.id);
        TextOrder(charts[k].id, c.id, charts[i].id);
      }
    }
  }

  lemma Inserted(charts: seq<Chart>, i: nat, c: Chart)
    requires i <= |charts|
    ensures multiset(charts[..i] + [c] + charts[i..]) == multiset(charts) + multiset{c}
  {
    assert charts == charts[..i] + charts[i..];
  }

  method SortById(charts: seq<Chart>) returns (r: seq<Chart>)
    ensures IdsAscend(r) && multiset(r) == multiset(charts)
  {
    r := [];
    for i := 0 to |charts|
      invariant IdsAscend(r) && multiset(r) == multiset(charts[..i])
    {
      assert charts[..i + 1] == charts[..i] + [charts[i]];
      r := InsertById(r, charts[i]);
    }
    assert charts[..|charts|] == charts;
  }

  /** A chart for each entry that is not empty and whose newest version is not deprecated. */
  function NewCharts(repo: string, entries: seq<ChartEntries>, shallow: bool): seq<Chart> {
    if entries == [] then []
    else
      var last := entries[|entries| - 1];
      NewCharts(repo, entries[..|entries| - 1], shallow)
      + if Eligible(last) then [NewChart(repo, last, shallow)] else []
  }

  lemma {:induction false} InNewCharts(repo: string, entries: seq<ChartEntries>, shallow: bool, c: Chart)
    ensures c in NewCharts(repo, entries, shallow)
      <==> exists e :: e in entries && Eligible(e) && c == NewChart(repo, e, shallow)
  {
    if entries != [] {
      var init, last := entries[..|entries| - 1], entries[|entries| - 1];
      InNewCharts(repo, init, shallow, c);
      assert entries == init + [last];
    }
  }

  /** The charts of the index in the order of their identifiers. */
  method ChartsFromIndex(entries: seq<ChartEntries>, repo: string, shallow: bool) returns (charts: seq<Chart>)
    ensures IdsAscend(charts) && multiset(charts) == multiset(NewCharts(repo, entries, shallow))
    ensures forall c :: c in charts <==> exists e :: e in entries && Eligible(e) && c == NewChart(repo, e, shallow)
  {
    charts := [];
    for i := 0 to |entries|
      invariant charts == NewCharts(repo, entries[..i], shallow)
    {
      assert entries[..i + 1][..i] == entries[..i];
      if entries[i] == [] || entries[i][0].deprecated {
        continue;
      }
      charts := charts + [NewChart(repo, entries[i], shallow)];
    }
    assert entries[..|entries|] == entries;
    charts := SortById(charts);
    forall c ensures c in charts <==> exists e :: e in entries && Eligible(e) && c == NewChart(repo, e, shallow) {
      InNewCharts(repo, entries, shallow, c);
      assert c in charts <==> c in multiset(charts);
    }
  }

  /** `HelmRepo.Charts`: the charts as they are stored and the stored names to delete.
      An index without any eligible chart deletes nothing. */
  method Charts(entries: seq<ChartEntries>, repo: string, shallow: bool, synced: map<string, Chart>)
    returns (charts: seq<Chart>, toDelete: set<string>)
    ensures IsIndexCharts(entries, repo, shallow, charts)
    ensures toDelete == IndexDeletions(charts, synced.Keys)
  {
    var found := ChartsFromIndex(entries, repo, shallow);
    charts, toDelete := [], {};
    if found == [] {
      UnescapedAreIndexCharts(entries, repo, shallow, found, charts);
      return;
    }
    var names := {};
    for i := 0 to |found|
      invariant |charts| == i && forall k :: 0 <= k < i ==> charts[k] == UnescapeChartData(found[k])
      invariant names == NamesOf(charts)
    {
      var c := UnescapeChartData(found[i]);
      NamesSnoc(charts, c);
      charts := charts + [c];
      names := names + {c.name};
    }
    UnescapedAreIndexCharts(entries, repo, shallow, found, charts);
    toDelete := NamesToDelete(synced.Keys, charts, names);
  }

  function NamesOf(charts: seq<Chart>): set<string> {
    set c | c in charts :: c.name
  }

  lemma NamesSnoc(charts: seq<Chart>, c: Chart)
    ensures NamesOf(charts + [c]) == NamesOf(charts) + {c.name}
  {
    forall n ensures n in NamesOf(charts + [c]) <==> n in NamesOf(charts) + {c.name} {
      if n in NamesOf(charts) {
        var d :| d in charts && d.name == n;
        assert d in charts + [c];
      }
      assert c in charts + [c];
    }
  }

  /** The stored names that no chart of the index has. */
  method NamesToDelete(synced: set<string>, charts: seq<Chart>, names: set<string>) returns (toDelete: set<string>)
    requires charts != [] && names == NamesOf(charts)
    ensures toDelete == IndexDeletions(charts, synced)
  {
    var todo := synced;
    toDelete := {};
    while todo != {}
      invariant todo <= synced
      invariant toDelete == set n | n in synced - todo && n !in names
      decreases todo
    {
      var n :| n in todo;
      if n !in names {
        toDelete := toDelete + {n};
      }
      todo := todo - {n};
    }
  }

  lemma UnescapedAreIndexCharts(entries: seq<ChartEntries>, repo: string, shallow: bool, found: seq<Chart>,
      charts: seq<Chart>)
    requires |charts| == |found| && forall k :: 0 <= k < |charts| ==> charts[k] == UnescapeChartData(found[k])
    requires forall c :: c in found <==> exists e :: e in entries && Eligible(e) && c == NewChart(repo, e, shallow)
    ensures IsIndexCharts(entries, repo, shallow, charts)
  {
    forall c ensures c in charts <==> exists e :: e in entries && Eligible(e) && c == IndexChart(repo, e, shallow) {
      if c in charts {
        var k :| 0 <= k < |charts| && charts[k] == c;
        assert found[k] in found;
      }
      if e :| e in entries && Eligible(e) && c == IndexChart(repo, e, shallow) {
        assert NewChart(repo, e, shallow) in found;
        var k :| 0 <= k < |found| && found[k] == NewChart(repo, e, shallow);
        assert charts[k] == c;
      }
    }
  }

  function IndexChart(repo: string, e: ChartEntries, shallow: bool): Chart
    requires e != []
  {
    UnescapeChartData(NewChart(repo, e, shallow))
  }

  ghost predicate IsIndexCharts(entries: seq<ChartEntries>, repo: string, shallow: bool, charts: seq<Chart>) {
    forall c :: c in charts <==> exists e :: e in entries && Eligible(e) && c == IndexChart(repo, e, shallow)
  }

  ghost function IndexDeletions(charts: seq<Chart>, synced: set<string>): set<string> {
    if charts == [] then {} else set n | n in synced && forall c :: c in charts ==> c.name != n
  }
}
