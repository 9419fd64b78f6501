/** Whole runs of the synchroniser over a chart index: the checksum gate, the shallow pass of
    the first run, and what other repositories keep. */
module HelmRuns {
  import opened Prelude
  import opened ChartNames
  import opened Catalogue
  import opened OciPull
  import opened HelmIndex
  import opened HelmSync
  import opened SyncPass
  import opened PassTheorems
  import F = FileImporter

  // ------------------------------------------------------------- files of other repositories

  /** A files row that the upsert of this pass may hit: rows are unique by namespace and
      identifier, not by repository. */
  ghost predicate MayHit(c: Config, f: FilesKey) {
    f.namespace == c.repo.namespace && exists r :: Possible(c, r) && r.chart.id == f.id.chartId
  }

  ghost predicate OtherFiles(c: Config, db: DB) {
    && (forall f :: f in c.db.files && c.db.files[f].chart.repo != c.repo ==>
          f in db.files && db.files[f].chart == c.db.files[f].chart && (!MayHit(c, f) ==> db.files[f] == c.db.files[f]))
    && (forall f :: f in db.files && db.files[f].chart.repo != c.repo
         ==> f in c.db.files && c.db.files[f].chart.repo != c.repo)
  }

  lemma JobIsPossible(c: Config, s: State, j: F.FilesJob) returns (r: PullResult)
    requires Inv(c, s) && j in s.importer.fileBusy
    ensures Possible(c, r) && r.chart.id == j.chartId
  {
    var ch := ChartOfJob(c, s, j);
    r :| r in s.pipe.seen && Accepts(c, r) && r.chart == ch;
  }

  lemma StoreFilesKeepsOthers(c: Config, db: DB, j: F.FilesJob, fetched: bool, r: PullResult)
    requires OtherFiles(c, db) && Possible(c, r) && r.chart.id == j.chartId
    ensures var d := StoreFiles(c, db, j, fetched); d.Some? ==> OtherFiles(c, d.value)
  {
    var k := FilesKey(c.repo.namespace, FilesId(j.chartId, j.version.version));
    assert MayHit(c, k);
  }

  lemma RemovalKeepsOthers(c: Config, db: DB)
    requires OtherFiles(c, db) && Consistent(db)
    ensures OtherFiles(c, RemoveMissing(db, c.repo, c.toDelete))
  {
  }

  lemma SameFiles(c: Config, db: DB, d: DB)
    requires OtherFiles(c, db) && d.files == db.files
    ensures OtherFiles(c, d)
  {
  }

  lemma ImportKeepsOthers(c: Config, s: State, i: F.ImportStep, fetched: bool)
    requires Inv(c, s) && Enabled(c, s, Import(i, fetched)) && OtherFiles(c, s.db)
    ensures OtherFiles(c, Next(c, s, Import(i, fetched)).db)
  {
    if i.FinishFiles? {
      var r := JobIsPossible(c, s, i.job);
      StoreFilesKeepsOthers(c, s.db, i.job, fetched, r);
    }
  }

  lemma OthersTouchNoFiles(c: Config, s: State, l: Step)
    requires Enabled(c, s, l) && !l.Import?
    ensures if l == Remove then Next(c, s, l).db == RemoveMissing(s.db, c.repo, c.toDelete)
      else Next(c, s, l).db.files == s.db.files
  {
  }

  lemma StepKeepsOthers(c: Config, s: State, l: Step)
    requires Inv(c, s) && Enabled(c, s, l) && OtherFiles(c, s.db)
    ensures OtherFiles(c, Next(c, s, l).db)
  {
    if l.Import? {
      ImportKeepsOthers(c, s, l.i, l.fetched);
    } else {
      OthersTouchNoFiles(c, s, l);
      if l == Remove {
        RemovalKeepsOthers(c, s.db);
      } else {
        SameFiles(c, s.db, Next(c, s, l).db);
      }
    }
  }

  lemma MoveKeepsOthers(c: Config, s: State, t: State)
    requires Inv(c, s) && Moves(c, s, t) && OtherFiles(c, s.db)
    ensures OtherFiles(c, t.db)
  {
    var l :| Enabled(c, s, l) && t == Next(c, s, l);
    StepKeepsOthers(c, s, l);
  }

  lemma {:induction false} RunKeepsOthers(c: Config, run: seq<State>, i: nat)
    requires WellFormed(c) && Run(c, run) && i < |run|
    ensures OtherFiles(c, run[i].db)
  {
    if i > 0 {
      RunKeepsOthers(c, run, i - 1);
      RunInv(c, run, i - 1);
      assert Moves(c, run[i - 1], run[i - 1 + 1]);
      MoveKeepsOthers(c, run[i - 1], run[i]);
    }
  }

  /** Rows of other repositories: their repository and chart rows are as before, their files
      rows stay with their charts, and only a files row of the same namespace whose chart
      identifier starts with this repository's name and '/' may get another digest. */
  ghost predicate OthersKept(repo: RepoKey, db: DB, after: DB) {
    && OthersSame(repo, db, after)
    && (forall r :: r != repo ==>
          (r in db.repos <==> r in after.repos) && (r in db.repos ==> db.repos[r] == after.repos[r]))
    && (forall f :: f in db.files && db.files[f].chart.repo != repo ==>
          f in after.files && after.files[f].chart == db.files[f].chart
            && (!OwnId(repo, f) ==> after.files[f] == db.files[f]))
    && (forall f :: f in after.files && after.files[f].chart.repo != repo
         ==> f in db.files && db.files[f].chart.repo != repo)
  }

  predicate OwnId(repo: RepoKey, f: FilesKey) {
    f.namespace == repo.namespace && repo.name + "/" <= f.id.chartId
  }

  lemma PassKeepsOthers(repo: RepoKey, entries: seq<ChartEntries>, shallow: bool, db: DB, after: DB)
    requires PlainNames(repo, entries) && Consistent(db) && IndexPass(repo, entries, shallow, db, after)
    ensures OthersKept(repo, db, after)
  {
    var charts: seq<Chart>, run: seq<State> :|
      IsIndexCharts(entries, repo.name, shallow, charts) && CompletesWith(PassConfig(repo, charts, db), run, after);
    var c := PassConfig(repo, charts, db);
    IndexConfigIsWellFormed(repo, entries, shallow, charts, db, c.accepts);
    RunKeepsOthers(c, run, |run| - 1);
    CompletedPassRows(c, run, |run| - 1);
    OtherRowsSame(c, Accepted(c, run[|run| - 1].pipe.seen), after);
    OnlyOwnFilesHit(repo, entries, shallow, charts, db);
  }

  lemma OtherRowsSame(c: Config, accepted: seq<Chart>, after: DB)
    requires var stored := RemoveMissing(StoreAll(c.db, c.repo, accepted), c.repo, c.toDelete);
      after.charts == stored.charts && after.repos == stored.repos
    ensures OnlyRepoChanged(c.db, after, c.repo)
  {
    var stored := StoreAll(c.db, c.repo, accepted);
    var removed := RemoveMissing(stored, c.repo, c.toDelete);
    assert OnlyRepoChanged(c.db, stored, c.repo) && OnlyRepoChanged(stored, removed, c.repo);
  }

  lemma OnlyOwnFilesHit(repo: RepoKey, entries: seq<ChartEntries>, shallow: bool, charts: seq<Chart>, db: DB)
    requires PlainNames(repo, entries) && IsIndexCharts(entries, repo.name, shallow, charts)
    ensures forall f :: MayHit(PassConfig(repo, charts, db), f) ==> OwnId(repo, f)
  {
    var c := PassConfig(repo, charts, db);
    forall f | MayHit(c, f) ensures OwnId(repo, f) {
      var r :| Possible(c, r) && r.chart.id == f.id.chartId;
      IndexResults(repo, charts, db, c.accepts, r);
      IndexChartsAreKeyed(repo, entries, shallow, charts);
    }
  }

  lemma KeptTwice(repo: RepoKey, db: DB, mid: DB, after: DB)
    requires OthersKept(repo, db, mid) && OthersKept(repo, mid, after)
    ensures OthersKept(repo, db, after)
  {
  }

  // ------------------------------------------------------------- runs

  /** `Sync` over an index: nothing when the checksum is the stored one; otherwise a full pass,
      after a shallow one when the repository was never processed; then the checksum. */
  ghost predicate IndexRun(repo: RepoKey, entries: seq<ChartEntries>, checksum: string, db: DB, after: DB) {
    if LastChecksum(db, repo) == checksum then after == db
    else exists last :: RunPasses(repo, entries, db, last) && after == UpdateLastCheck(last, repo, checksum)
  }

  ghost predicate RunPasses(repo: RepoKey, entries: seq<ChartEntries>, db: DB, last: DB) {
    if LastChecksum(db, repo) == "" then
      exists mid :: IndexPass(repo, entries, true, db, mid) && IndexPass(repo, entries, false, mid, last)
    else IndexPass(repo, entries, false, db, last)
  }

  /** What one or two passes leave, the last of them full. */
  ghost predicate Synced(repo: RepoKey, entries: seq<ChartEntries>, db: DB, after: DB) {
    NamesIn(after, repo) == OfferedNames(entries) && Keyed(after, repo) && OthersKept(repo, db, after)
  }

  lemma PassSyncs(repo: RepoKey, entries: seq<ChartEntries>, shallow: bool, db: DB, after: DB)
    requires PlainNames(repo, entries) && Keyed(db, repo) && OfferedNames(entries) != {}
    requires IndexPass(repo, entries, shallow, db, after)
    ensures Synced(repo, entries, db, after)
  {
    StoredNamesAreOffered(repo, entries, shallow, db, after);
    PassKeepsOthers(repo, entries, shallow, db, after);
  }

  lemma PassesSync(repo: RepoKey, entries: seq<ChartEntries>, db: DB, last: DB)
    requires PlainNames(repo, entries) && Keyed(db, repo) && OfferedNames(entries) != {}
    requires RunPasses(repo, entries, db, last)
    ensures Synced(repo, entries, db, last)
  {
    if LastChecksum(db, repo) == "" {
      var mid :| IndexPass(repo, entries, true, db, mid) && IndexPass(repo, entries, false, mid, last);
      PassSyncs(repo, entries, true, db, mid);
      PassSyncs(repo, entries, false, mid, last);
      KeptTwice(repo, db, mid, last);
    } else {
      PassSyncs(repo, entries, false, db, last);
    }
  }

  lemma UpdateKeepsSynced(repo: RepoKey, entries: seq<ChartEntries>, db: DB, last: DB, checksum: string)
    requires Synced(repo, entries, db, last)
    ensures Synced(repo, entries, db, UpdateLastCheck(last, repo, checksum))
  {
    var after := UpdateLastCheck(last, repo, checksum);
    assert after.charts == last.charts && after.files == last.files;
    assert NamesIn(after, repo) == NamesIn(last, repo);
  }

  /** A run over an index with a new checksum and an eligible entry: the stored names are the
      offered ones, rows are identified by name, other repositories keep theirs, and a second
      run over the same index changes nothing. */
  lemma RunSyncsIndex(repo: RepoKey, entries: seq<ChartEntries>, checksum: string, db: DB, after: DB)
    requires PlainNames(repo, entries) && Keyed(db, repo) && OfferedNames(entries) != {}
    requires checksum != LastChecksum(db, repo) && IndexRun(repo, entries, checksum, db, after)
    ensures Synced(repo, entries, db, after) && LastChecksum(after, repo) == checksum
    ensures forall again :: IndexRun(repo, entries, checksum, after, again) <==> again == after
  {
    var last :| RunPasses(repo, entries, db, last) && after == UpdateLastCheck(last, repo, checksum);
    PassesSync(repo, entries, db, last);
    UpdateKeepsSynced(repo, entries, db, last, checksum);
  }

  /** Such a run, the repository's first or a later one, stores every version of every eligible
      entry of the index. */
  lemma RunStoresAll(repo: RepoKey, entries: seq<ChartEntries>, checksum: string, db: DB, after: DB)
    requires PlainNames(repo, entries) && DistinctOffers(entries) && Keyed(db, repo) && OfferedNames(entries) != {}
    requires checksum != LastChecksum(db, repo) && IndexRun(repo, entries, checksum, db, after)
    ensures StoresAll(repo, entries, after)
  {
    var last :| RunPasses(repo, entries, db, last) && after == UpdateLastCheck(last, repo, checksum);
    if LastChecksum(db, repo) == "" {
      var mid :| IndexPass(repo, entries, true, db, mid) && IndexPass(repo, entries, false, mid, last);
      StoredNamesAreOffered(repo, entries, true, db, mid);
      FullPassStoresAll(repo, entries, mid, last);
    } else {
      FullPassStoresAll(repo, entries, db, last);
    }
    SameChartsStoreAll(repo, entries, last, after);
  }

  /** The first run, with its shallow pass, leaves the chart rows of a full pass alone. */
  lemma FirstRunIsFullPass(repo: RepoKey, entries: seq<ChartEntries>, checksum: string, db: DB, after: DB, alone: DB)
    requires PlainNames(repo, entries) && DistinctOffers(entries) && Keyed(db, repo) && OfferedNames(entries) != {}
    requires LastChecksum(db, repo) == "" != checksum && IndexRun(repo, entries, checksum, db, after)
    requires IndexPass(repo, entries, false, db, alone)
    ensures after.charts == alone.charts
  {
    var last :| RunPasses(repo, entries, db, last) && after == UpdateLastCheck(last, repo, checksum);
    var mid :| IndexPass(repo, entries, true, db, mid) && IndexPass(repo, entries, false, mid, last);
    ShallowThenFullIsFull(repo, entries, db, mid, last, alone);
  }
}
