/** The catalogue that complete passes over a chart index leave. */
module HelmSync {
  import opened Prelude
  import opened Versions
  import opened Percent
  import opened ChartNames
  import opened Catalogue
  import opened OciPull
  import opened HelmIndex
  import opened SyncPass
  import opened PassTheorems
  import P = PullPipeline

  function Result(c: Chart): PullResult {
    PullResult(c, 0)
  }

  ghost function PassConfig(repo: RepoKey, charts: seq<Chart>, db: DB): Config {
    Config(P.Work((j: PullJob) => None, [], false, Map(Result, charts)), true, repo, (c: Chart) => true,
           IndexDeletions(charts, NamesIn(db, repo)), db)
  }

  /** A complete, unfiltered pass over an index, in any interleaving. */
  ghost predicate IndexPass(repo: RepoKey, entries: seq<ChartEntries>, shallow: bool, db: DB, after: DB) {
    exists charts, run :: IsIndexCharts(entries, repo.name, shallow, charts)
      && CompletesWith(PassConfig(repo, charts, db), run, after)
  }

  /** Names of repositories and charts that the identifiers can carry. */
  ghost predicate PlainNames(repo: RepoKey, entries: seq<ChartEntries>) {
    && '%' !in repo.name && '/' !in repo.name
    && forall e: ChartEntries :: e in entries && Eligible(e) ==> IsBytes(e[0].name)
  }

  function RowOf(repo: RepoKey, name: string): ChartKey {
    ChartKey(repo, repo.name + "/" + name)
  }

  /** The kept invariant: a row of the repository is identified by repository and name. */
  ghost predicate Keyed(db: DB, repo: RepoKey) {
    Consistent(db) && forall k :: k in db.charts && k.repo == repo ==> k == RowOf(repo, db.charts[k].name)
  }

  /** The names that the index offers. */
  ghost function OfferedNames(entries: seq<ChartEntries>): set<string> {
    set e: ChartEntries | e in entries && Eligible(e) :: StoredName(e[0].name)
  }

  lemma IndexChartIsKeyed(repo: RepoKey, entries: seq<ChartEntries>, e: ChartEntries, shallow: bool)
    requires PlainNames(repo, entries) && e in entries && Eligible(e)
    ensures var c := IndexChart(repo.name, e, shallow);
      && c.name == StoredName(e[0].name)
      && ChartKey(repo, c.id) == RowOf(repo, c.name)
      && c.versions != []
      && c.versions == Map(EntryVersion, if shallow then [e[0]] else e)
  {
    UnescapedNameKeepsSlashesEscaped(e[0].name);
    UnescapedIdHasOneSlash(repo.name, e[0].name);
  }

  lemma IndexChartsAreKeyed(repo: RepoKey, entries: seq<ChartEntries>, shallow: bool, charts: seq<Chart>)
    requires PlainNames(repo, entries) && IsIndexCharts(entries, repo.name, shallow, charts)
    ensures forall c :: c in charts ==>
      c.name in OfferedNames(entries) && ChartKey(repo, c.id) == RowOf(repo, c.name) && c.versions != []
    ensures forall n :: n in OfferedNames(entries) ==> exists c :: c in charts && c.name == n
  {
    forall c | c in charts
      ensures c.name in OfferedNames(entries) && ChartKey(repo, c.id) == RowOf(repo, c.name) && c.versions != []
    {
      var e :| e in entries && Eligible(e) && c == IndexChart(repo.name, e, shallow);
      IndexChartIsKeyed(repo, entries, e, shallow);
    }
    forall n | n in OfferedNames(entries) ensures exists c :: c in charts && c.name == n {
      var e: ChartEntries :| e in entries && Eligible(e) && StoredName(e[0].name) == n;
      IndexChartIsKeyed(repo, entries, e, shallow);
      assert IndexChart(repo.name, e, shallow) in charts;
    }
  }

  // ------------------------------------------------------------- one pass

  /** A pass over an index, with any filter. */
  ghost function FilteredConfig(repo: RepoKey, charts: seq<Chart>, db: DB, accepts: Chart -> bool): Config {
    PassConfig(repo, charts, db).(accepts := accepts)
  }

  lemma IndexResults(repo: RepoKey, charts: seq<Chart>, db: DB, accepts: Chart -> bool, r: PullResult)
    requires Possible(FilteredConfig(repo, charts, db, accepts), r)
    ensures r.chart in charts && r.chart.name !in IndexDeletions(charts, NamesIn(db, repo))
  {
    var i :| 0 <= i < |charts| && Map(Result, charts)[i] == r;
    assert charts[i] in charts;
  }

  /** `Charts` never schedules for deletion what the same pass writes. */
  lemma IndexKeepsNames(repo: RepoKey, charts: seq<Chart>, db: DB, accepts: Chart -> bool)
    ensures KeepsNames(FilteredConfig(repo, charts, db, accepts))
  {
    var c := FilteredConfig(repo, charts, db, accepts);
    forall r | Possible(c, r) && Accepts(c, r) ensures r.chart.name !in c.toDelete {
      IndexResults(repo, charts, db, accepts, r);
    }
  }

  lemma IndexConfigIsWellFormed(repo: RepoKey, entries: seq<ChartEntries>, shallow: bool, charts: seq<Chart>, db: DB,
      accepts: Chart -> bool)
    requires IsIndexCharts(entries, repo.name, shallow, charts) && Consistent(db)
    ensures WellFormed(FilteredConfig(repo, charts, db, accepts))
  {
    var c := FilteredConfig(repo, charts, db, accepts);
    forall r | Possible(c, r) && r.errors == 0 ensures r.chart.versions != [] {
      IndexResults(repo, charts, db, accepts, r);
      var e :| e in entries && Eligible(e) && r.chart == IndexChart(repo.name, e, shallow);
    }
  }

  /** In every run of a pass over an index, no goroutine panics and no files row is inserted
      without its chart, although missing charts are removed meanwhile. */
  lemma IndexPassIsSafe(repo: RepoKey, entries: seq<ChartEntries>, shallow: bool, charts: seq<Chart>, db: DB,
      accepts: Chart -> bool, run: seq<State>, i: nat)
    requires IsIndexCharts(entries, repo.name, shallow, charts) && Consistent(db)
    requires Run(FilteredConfig(repo, charts, db, accepts), run) && i < |run|
    ensures !Panicked(run[i]) && !run[i].orphaned && Consistent(run[i].db)
  {
    var c := FilteredConfig(repo, charts, db, accepts);
    IndexConfigIsWellFormed(repo, entries, shallow, charts, db, accepts);
    IndexKeepsNames(repo, charts, db, accepts);
    PanicMeansCrash(c, run, i);
    FilesAlwaysFindTheirChart(c, run, i);
  }

  /** Every schedule of a pass over an index completes. */
  lemma IndexPassCompletes(repo: RepoKey, entries: seq<ChartEntries>, shallow: bool, charts: seq<Chart>, db: DB,
      accepts: Chart -> bool, f: nat -> State)
    requires IsIndexCharts(entries, repo.name, shallow, charts) && Consistent(db)
    requires var c := FilteredConfig(repo, charts, db, accepts); f(0) == Start(c) && Schedule(c, f)
    ensures exists n: nat :: Complete(f(n))
  {
    IndexConfigIsWellFormed(repo, entries, shallow, charts, db, accepts);
    EveryScheduleCompletes(FilteredConfig(repo, charts, db, accepts), f);
  }

  lemma AcceptedIsChart(repo: RepoKey, charts: seq<Chart>, db: DB, seen: seq<PullResult>, ch: Chart)
    requires var w := PassConfig(repo, charts, db).work;
      forall r :: multiset(seen)[r] == P.Expected(w, w.jobs, r) + multiset(w.preloaded)[r]
    ensures ch in Accepted(PassConfig(repo, charts, db), seen) <==> ch in charts
  {
    var c := PassConfig(repo, charts, db);
    if ch in Accepted(c, seen) {
      var r :| r in seen && Accepts(c, r) && r.chart == ch;
      assert multiset(seen)[r] > 0;
      assert r in Map(Result, charts);
    }
    if ch in charts {
      var i :| 0 <= i < |charts| && charts[i] == ch;
      var r := Result(ch);
      assert Map(Result, charts)[i] == r;
      assert multiset(seen)[r] > 0;
      SeenIsAccepted(c, seen, r);
    }
  }

  lemma AcceptedAreCharts(repo: RepoKey, charts: seq<Chart>, db: DB, run: seq<State>)
    requires var c := PassConfig(repo, charts, db); WellFormed(c) && Run(c, run) && Complete(run[|run| - 1])
    ensures forall ch :: ch in Accepted(PassConfig(repo, charts, db), run[|run| - 1].pipe.seen) <==> ch in charts
  {
    CompletedPassSawEveryResult(PassConfig(repo, charts, db), run, |run| - 1);
    forall ch { AcceptedIsChart(repo, charts, db, run[|run| - 1].pipe.seen, ch); }
  }

  /** What a pass does to the rows: written charts replace the row of their identifier,
      the other rows of the repository stay unless their name is scheduled for deletion. */
  ghost predicate RowsAfter(repo: RepoKey, charts: seq<Chart>, accepted: seq<Chart>, db: DB, after: DB) {
    && (forall ch :: ch in accepted <==> ch in charts)
    && Consistent(after)
    && after.charts == RemoveMissing(StoreAll(db, repo, accepted), repo,
       IndexDeletions(charts, NamesIn(db, repo))).charts
  }

  lemma PassRows(repo: RepoKey, entries: seq<ChartEntries>, shallow: bool, db: DB, after: DB)
    returns (charts: seq<Chart>, accepted: seq<Chart>)
    requires PlainNames(repo, entries) && Consistent(db) && IndexPass(repo, entries, shallow, db, after)
    ensures IsIndexCharts(entries, repo.name, shallow, charts) && RowsAfter(repo, charts, accepted, db, after)
  {
    var cs: seq<Chart>, run: seq<State> :|
      IsIndexCharts(entries, repo.name, shallow, cs) && CompletesWith(PassConfig(repo, cs, db), run, after);
    charts := cs;
    IndexConfigIsWellFormed(repo, entries, shallow, charts, db, PassConfig(repo, charts, db).accepts);
    AcceptedAreCharts(repo, charts, db, run);
    CompletedPassRows(PassConfig(repo, charts, db), run, |run| - 1);
    accepted := Accepted(PassConfig(repo, charts, db), run[|run| - 1].pipe.seen);
  }

  /** A row of the repository after the pass is exactly a chart of the index. */
  lemma RowIsIndexChart(repo: RepoKey, entries: seq<ChartEntries>, shallow: bool, charts: seq<Chart>,
      accepted: seq<Chart>, db: DB, after: DB, k: ChartKey)
    requires PlainNames(repo, entries) && IsIndexCharts(entries, repo.name, shallow, charts) && charts != []
    requires Keyed(db, repo) && RowsAfter(repo, charts, accepted, db, after) && k.repo == repo
    ensures k in after.charts <==> exists c :: c in charts && c.id == k.id
    ensures k in after.charts ==> after.charts[k] in charts && k == RowOf(repo, after.charts[k].name)
  {
    IndexChartsAreKeyed(repo, entries, shallow, charts);
    StoredRow(db, repo, accepted, k.id);
    var last := LastWith(accepted, k.id);
    var stored := StoreAll(db, repo, accepted);
    if last.Some? {
      assert last.value in charts;
    } else if k in db.charts {
      var name := db.charts[k].name;
      assert forall c :: c in charts && c.name == name ==> ChartKey(repo, c.id) == RowOf(repo, name);
      assert name in NamesIn(db, repo);
      assert stored.charts[k].name == name;
    }
  }

  /** The repository's rows are exactly the charts, identified by their names. */
  ghost predicate IndexRows(repo: RepoKey, charts: seq<Chart>, after: DB) {
    && Keyed(after, repo)
    && (forall k :: k in after.charts && k.repo == repo ==> after.charts[k] in charts)
    && (forall c :: c in charts ==> RowOf(repo, c.name) in after.charts)
  }

  ghost predicate OthersSame(repo: RepoKey, db: DB, after: DB) {
    forall k: ChartKey :: k.repo != repo ==>
      (k in db.charts <==> k in after.charts) && (k in db.charts ==> db.charts[k] == after.charts[k])
  }

  lemma PassLeavesIndexRows(repo: RepoKey, entries: seq<ChartEntries>, shallow: bool, charts: seq<Chart>,
      accepted: seq<Chart>, db: DB, after: DB)
    requires PlainNames(repo, entries) && IsIndexCharts(entries, repo.name, shallow, charts) && charts != []
    requires Keyed(db, repo) && RowsAfter(repo, charts, accepted, db, after)
    ensures IndexRows(repo, charts, after)
  {
    IndexChartsAreKeyed(repo, entries, shallow, charts);
    forall k | k in after.charts && k.repo == repo
      ensures k == RowOf(repo, after.charts[k].name) && after.charts[k] in charts
    {
      RowIsIndexChart(repo, entries, shallow, charts, accepted, db, after, k);
    }
    forall c | c in charts ensures RowOf(repo, c.name) in after.charts {
      RowIsIndexChart(repo, entries, shallow, charts, accepted, db, after, ChartKey(repo, c.id));
    }
  }

  lemma PassCatalogue(repo: RepoKey, entries: seq<ChartEntries>, shallow: bool, db: DB, after: DB)
    returns (charts: seq<Chart>)
    requires PlainNames(repo, entries) && Keyed(db, repo) && OfferedNames(entries) != {}
    requires IndexPass(repo, entries, shallow, db, after)
    ensures IsIndexCharts(entries, repo.name, shallow, charts) && IndexRows(repo, charts, after)
      && OthersSame(repo, db, after)
  {
    var cs, accepted := PassRows(repo, entries, shallow, db, after);
    charts := cs;
    assert charts != [] by {
      IndexChartsAreKeyed(repo, entries, shallow, charts);
      var any :| any in OfferedNames(entries);
    }
    PassLeavesIndexRows(repo, entries, shallow, charts, accepted, db, after);
    OthersUntouched(repo, charts, accepted, db, after);
  }

  lemma NamesOfIndexRows(repo: RepoKey, entries: seq<ChartEntries>, shallow: bool, charts: seq<Chart>, after: DB)
    requires PlainNames(repo, entries) && IsIndexCharts(entries, repo.name, shallow, charts)
      && IndexRows(repo, charts, after)
    ensures NamesIn(after, repo) == OfferedNames(entries)
  {
    IndexChartsAreKeyed(repo, entries, shallow, charts);
    forall n | n in OfferedNames(entries) ensures n in NamesIn(after, repo) {
      var c :| c in charts && c.name == n;
      var k := RowOf(repo, n);
      assert k == RowOf(repo, after.charts[k].name);
      SameSuffix(repo.name + "/", n, after.charts[k].name);
    }
  }

  /** After a complete pass over an index with an eligible chart, the stored names of the
      repository are exactly the offered ones, rows are still identified by name, and
      every other repository is as before. */
  lemma StoredNamesAreOffered(repo: RepoKey, entries: seq<ChartEntries>, shallow: bool, db: DB, after: DB)
    requires PlainNames(repo, entries) && Keyed(db, repo) && OfferedNames(entries) != {}
    requires IndexPass(repo, entries, shallow, db, after)
    ensures NamesIn(after, repo) == OfferedNames(entries)
    ensures Keyed(after, repo) && OthersSame(repo, db, after)
  {
    var charts := PassCatalogue(repo, entries, shallow, db, after);
    NamesOfIndexRows(repo, entries, shallow, charts, after);
  }

  lemma SameSuffix(p: string, a: string, b: string)
    requires p + a == p + b
    ensures a == b
  {
    assert (p + a)[|p|..] == a && (p + b)[|p|..] == b;
  }

  lemma OthersUntouched(repo: RepoKey, charts: seq<Chart>, accepted: seq<Chart>, db: DB, after: DB)
    requires RowsAfter(repo, charts, accepted, db, after)
    ensures OthersSame(repo, db, after)
  {
    var stored := StoreAll(db, repo, accepted);
    var removed := RemoveMissing(stored, repo, IndexDeletions(charts, NamesIn(db, repo)));
    assert OnlyRepoChanged(db, stored, repo) && OnlyRepoChanged(stored, removed, repo);
  }

  lemma SomeIn(charts: seq<Chart>) returns (c: Chart)
    requires charts != []
    ensures c in charts
  {
    c := charts[0];
  }

  /** An index without eligible charts deletes nothing and stores nothing. */
  lemma EmptyIndexChangesNothing(repo: RepoKey, entries: seq<ChartEntries>, shallow: bool, db: DB, after: DB)
    requires PlainNames(repo, entries) && Consistent(db) && OfferedNames(entries) == {}
    requires IndexPass(repo, entries, shallow, db, after)
    ensures after.charts == db.charts
  {
    var charts, accepted := PassRows(repo, entries, shallow, db, after);
    IndexChartsAreKeyed(repo, entries, shallow, charts);
    assert forall c :: c in charts ==> c.name in OfferedNames(entries);
    if charts != [] {
      var c := SomeIn(charts);
    }
    if accepted != [] {
      assert accepted[0] in charts;
    }
    RemoveNothing(db, repo);
  }

  // ------------------------------------------------------------- shallow first

  /** No two eligible entries get the same stored name. */
  ghost predicate DistinctOffers(entries: seq<ChartEntries>) {
    forall d: ChartEntries, e: ChartEntries ::
      (d in entries && e in entries && Eligible(d) && Eligible(e) && StoredName(d[0].name) == StoredName(e[0].name))
      ==> d == e
  }

  /** Rows that are exactly the charts of the same index are the same rows. */
  lemma IndexRowsAreUnique(repo: RepoKey, entries: seq<ChartEntries>, shallow: bool, charts1: seq<Chart>, after1: DB,
      charts2: seq<Chart>, after2: DB)
    requires PlainNames(repo, entries) && DistinctOffers(entries)
    requires IsIndexCharts(entries, repo.name, shallow, charts1) && IndexRows(repo, charts1, after1)
    requires IsIndexCharts(entries, repo.name, shallow, charts2) && IndexRows(repo, charts2, after2)
    ensures forall k: ChartKey :: k.repo == repo && k in after1.charts ==>
      k in after2.charts && after1.charts[k] == after2.charts[k]
  {
    forall k: ChartKey | k.repo == repo && k in after1.charts
      ensures k in after2.charts && after1.charts[k] == after2.charts[k] {
      var c1 := after1.charts[k];
      assert c1 in charts1 && c1 in charts2;
      assert k == RowOf(repo, c1.name);
      var c2 := after2.charts[k];
      SameSuffix(repo.name + "/", c1.name, c2.name);
      SameOffer(repo, entries, shallow, charts2, c1, c2);
    }
  }

  lemma SameOffer(repo: RepoKey, entries: seq<ChartEntries>, shallow: bool, charts: seq<Chart>, c1: Chart, c2: Chart)
    requires PlainNames(repo, entries) && DistinctOffers(entries) && IsIndexCharts(entries, repo.name, shallow, charts)
    requires c1 in charts && c2 in charts && c1.name == c2.name
    ensures c1 == c2
  {
    var e1 :| e1 in entries && Eligible(e1) && c1 == IndexChart(repo.name, e1, shallow);
    var e2 :| e2 in entries && Eligible(e2) && c2 == IndexChart(repo.name, e2, shallow);
    IndexChartIsKeyed(repo, entries, e1, shallow);
    IndexChartIsKeyed(repo, entries, e2, shallow);
  }

  /** The row of an entry is there with its description and every version of it. */
  ghost predicate StoresEntry(repo: RepoKey, e: ChartEntries, after: DB)
    requires e != []
  {
    var k := RowOf(repo, StoredName(e[0].name));
    && k in after.charts
    && after.charts[k].name == StoredName(e[0].name) && after.charts[k].about == e[0].about
    && |after.charts[k].versions| == |e|
    && forall i :: 0 <= i < |e| ==>
         after.charts[k].versions[i].version == e[i].version && after.charts[k].versions[i].digest == e[i].digest
  }

  ghost predicate StoresAll(repo: RepoKey, entries: seq<ChartEntries>, after: DB) {
    forall e :: e in entries && Eligible(e) ==> StoresEntry(repo, e, after)
  }

  lemma FullRowsStoreAll(repo: RepoKey, entries: seq<ChartEntries>, charts: seq<Chart>, after: DB)
    requires PlainNames(repo, entries) && DistinctOffers(entries)
    requires IsIndexCharts(entries, repo.name, false, charts) && IndexRows(repo, charts, after)
    ensures StoresAll(repo, entries, after)
  {
    forall e | e in entries && Eligible(e) ensures StoresEntry(repo, e, after) {
      var c := IndexChart(repo.name, e, false);
      IndexChartIsKeyed(repo, entries, e, false);
      assert c in charts;
      var k := RowOf(repo, c.name);
      assert k in after.charts && after.charts[k] in charts;
      assert k == RowOf(repo, after.charts[k].name);
      SameSuffix(repo.name + "/", c.name, after.charts[k].name);
      SameOffer(repo, entries, false, charts, c, after.charts[k]);
    }
  }

  /** A complete full pass stores every version of every eligible entry. */
  lemma FullPassStoresAll(repo: RepoKey, entries: seq<ChartEntries>, db: DB, after: DB)
    requires PlainNames(repo, entries) && DistinctOffers(entries) && Keyed(db, repo) && OfferedNames(entries) != {}
    requires IndexPass(repo, entries, false, db, after)
    ensures StoresAll(repo, entries, after)
  {
    var charts := PassCatalogue(repo, entries, false, db, after);
    FullRowsStoreAll(repo, entries, charts, after);
  }

  lemma SameChartsStoreAll(repo: RepoKey, entries: seq<ChartEntries>, last: DB, after: DB)
    requires StoresAll(repo, entries, last) && after.charts == last.charts
    ensures StoresAll(repo, entries, after)
  {
    forall e | e in entries && Eligible(e) ensures StoresEntry(repo, e, after) {
      assert StoresEntry(repo, e, last);
    }
  }

  /** A shallow pass before the full one leaves the same chart rows as the full one alone. */
  lemma ShallowThenFullIsFull(repo: RepoKey, entries: seq<ChartEntries>, db: DB, mid: DB, after: DB, alone: DB)
    requires PlainNames(repo, entries) && OfferedNames(entries) != {} && DistinctOffers(entries) && Keyed(db, repo)
    requires IndexPass(repo, entries, true, db, mid) && IndexPass(repo, entries, false, mid, after)
    requires IndexPass(repo, entries, false, db, alone)
    ensures after.charts == alone.charts
  {
    StoredNamesAreOffered(repo, entries, true, db, mid);
    var charts1 := PassCatalogue(repo, entries, false, mid, after);
    var charts2 := PassCatalogue(repo, entries, false, db, alone);
    IndexRowsAreUnique(repo, entries, false, charts1, after, charts2, alone);
    IndexRowsAreUnique(repo, entries, false, charts2, alone, charts1, after);
    SameEverywhere(repo, db, mid, after, alone);
  }

  lemma SameEverywhere(repo: RepoKey, db: DB, mid: DB, after: DB, alone: DB)
    requires OthersSame(repo, db, mid) && OthersSame(repo, mid, after) && OthersSame(repo, db, alone)
    requires forall k: ChartKey :: k.repo == repo && k in after.charts ==>
      k in alone.charts && after.charts[k] == alone.charts[k]
    requires forall k: ChartKey :: k.repo == repo && k in alone.charts ==>
      k in after.charts && after.charts[k] == alone.charts[k]
    ensures after.charts == alone.charts
  {
    assert forall k: ChartKey :: k in after.charts <==> k in alone.charts;
  }
}
