/** What the files table holds after a pass whose every fetch succeeds. */
module PassFiles {
  import opened Prelude
  import opened Versions
  import opened Catalogue
  import opened OciPull
  import opened HelmIndex
  import opened HelmSync
  import opened SyncPass
  import opened PassTheorems
  import F = FileImporter

  /** A files row belongs to the chart of its identifier, as every insertion leaves it. */
  ghost predicate FilesKeyed(db: DB) {
    forall f :: f in db.files ==> db.files[f].chart.id == f.id.chartId
  }

  function KeyOf(c: Config, j: F.FilesJob): FilesKey {
    FilesKey(c.repo.namespace, FilesId(j.chartId, j.version.version))
  }

  /** The job's files row is there, with the digest of a processed job for the same row. */
  ghost predicate HasFiles(c: Config, db: DB, done: multiset<F.FilesJob>, j: F.FilesJob) {
    && KeyOf(c, j) in db.files
    && exists i :: i in done && KeyOf(c, i) == KeyOf(c, j) && db.files[KeyOf(c, j)].digest == i.version.digest
  }

  ghost predicate AllFiles(c: Config, db: DB, done: multiset<F.FilesJob>) {
    FilesKeyed(db) && forall j :: j in done ==> HasFiles(c, db, done, j)
  }

  // ------------------------------------------------------------- steps

  lemma StoredRowOfJob(c: Config, db: DB, j: F.FilesJob)
    requires FilesKeyed(db) && StoreFiles(c, db, j, true).Some?
    ensures var d, k := StoreFiles(c, db, j, true).value, KeyOf(c, j);
      && FilesKeyed(d) && k in d.files && d.files[k].digest == j.version.digest
      && forall f :: f != k && f in db.files ==> f in d.files && d.files[f] == db.files[f]
  {
  }

  lemma StillHasFiles(c: Config, db: DB, d: DB, done: multiset<F.FilesJob>, more: multiset<F.FilesJob>, j: F.FilesJob)
    requires HasFiles(c, db, done, j) && done <= more
    requires KeyOf(c, j) in d.files && d.files[KeyOf(c, j)] == db.files[KeyOf(c, j)]
    ensures HasFiles(c, d, more, j)
  {
    var i :| i in done && KeyOf(c, i) == KeyOf(c, j) && db.files[KeyOf(c, j)].digest == i.version.digest;
    assert i in more;
  }

  lemma StoredFiles(c: Config, db: DB, done: multiset<F.FilesJob>, j: F.FilesJob)
    requires AllFiles(c, db, done) && StoreFiles(c, db, j, true).Some?
    ensures AllFiles(c, StoreFiles(c, db, j, true).value, done + multiset{j})
  {
    hide StoreFiles, HasFiles;
    var d, more := StoreFiles(c, db, j, true).value, done + multiset{j};
    StoredRowOfJob(c, db, j);
    forall i | i in more ensures HasFiles(c, d, more, i) {
      if KeyOf(c, i) == KeyOf(c, j) {
        HasOwnFiles(c, d, more, i, j);
      } else {
        HadFiles(c, db, done, i);
        StillHasFiles(c, db, d, done, more, i);
      }
    }
  }

  lemma HasOwnFiles(c: Config, d: DB, more: multiset<F.FilesJob>, i: F.FilesJob, j: F.FilesJob)
    requires j in more && KeyOf(c, i) == KeyOf(c, j)
    requires KeyOf(c, j) in d.files && d.files[KeyOf(c, j)].digest == j.version.digest
    ensures HasFiles(c, d, more, i)
  {
  }

  lemma HadFiles(c: Config, db: DB, done: multiset<F.FilesJob>, i: F.FilesJob)
    requires AllFiles(c, db, done) && i in done
    ensures HasFiles(c, db, done, i) && KeyOf(c, i) in db.files
  {
  }

  /** The removal spares the rows of processed jobs: their charts keep their names. */
  lemma RemovalKeepsFiles(c: Config, s: State)
    requires Inv(c, s) && KeepsNames(c) && s.main == Removing && AllFiles(c, s.db, s.importer.filesDone)
    ensures AllFiles(c, RemoveMissing(s.db, c.repo, c.toDelete), s.importer.filesDone)
  {
    var done := s.importer.filesDone;
    forall j | j in done ensures HasFiles(c, RemoveMissing(s.db, c.repo, c.toDelete), done, j) {
      assert HasFiles(c, s.db, done, j);
      DoneChartStays(c, s, j);
    }
  }

  lemma DoneChartStays(c: Config, s: State, j: F.FilesJob)
    requires Inv(c, s) && KeepsNames(c) && s.main == Removing && j in s.importer.filesDone
    ensures var k := ChartKey(c.repo, j.chartId);
      k in s.db.charts && s.db.charts[k].name !in c.toDelete
  {
    var accepted := Accepted(c, s.pipe.seen);
    var ch := ChartOfDone(c, s, j);
    StoredRow(c.db, c.repo, accepted, j.chartId);
    var row := LastWith(accepted, j.chartId).value;
    var r :| r in s.pipe.seen && Accepts(c, r) && r.chart == row;
    assert Possible(c, r);
  }

  lemma ChartOfDone(c: Config, s: State, j: F.FilesJob) returns (ch: Chart)
    requires Inv(c, s) && j in s.importer.filesDone
    ensures ch in Accepted(c, s.pipe.seen) && ch.id == j.chartId
  {
    var m := s.importer;
    assert multiset(m.filesTaken)[j] > 0;
    assert j in m.filesTaken;
    assert j in F.Plan(m.received);
    PlannedFor(m.received, j);
    ch :| ch in m.received && ch.id == j.chartId;
  }

  /** A step in which no fetch of files fails. */
  ghost predicate Fetches(c: Config, s: State, t: State) {
    exists l :: Enabled(c, s, l) && t == Next(c, s, l) && (l.Import? ==> l.fetched)
  }

  lemma ImportKeepsFiles(c: Config, s: State, i: F.ImportStep)
    requires Inv(c, s) && KeepsNames(c) && Enabled(c, s, Import(i, true)) && AllFiles(c, s.db, s.importer.filesDone)
    ensures var t := Next(c, s, Import(i, true)); AllFiles(c, t.db, t.importer.filesDone)
  {
    if i.FinishFiles? {
      ParentIsStored(c, s, i.job);
      StoredFiles(c, s.db, s.importer.filesDone, i.job);
    }
  }

  lemma MainTouchesNoFiles(c: Config, s: State, l: Step)
    requires Enabled(c, s, l) && !l.Import? && l != Remove
    ensures var t := Next(c, s, l); t.db.files == s.db.files && t.importer.filesDone == s.importer.filesDone
  {
  }

  lemma SameFilesStay(c: Config, db: DB, d: DB, done: multiset<F.FilesJob>)
    requires AllFiles(c, db, done) && d.files == db.files
    ensures AllFiles(c, d, done)
  {
    forall j | j in done ensures HasFiles(c, d, done, j) {
      assert HasFiles(c, db, done, j);
    }
  }

  lemma StepKeepsFiles(c: Config, s: State, t: State)
    requires Inv(c, s) && KeepsNames(c) && Fetches(c, s, t) && AllFiles(c, s.db, s.importer.filesDone)
    ensures AllFiles(c, t.db, t.importer.filesDone)
  {
    var l :| Enabled(c, s, l) && t == Next(c, s, l) && (l.Import? ==> l.fetched);
    if l.Import? {
      ImportKeepsFiles(c, s, l.i);
    } else if l == Remove {
      RemovalKeepsFiles(c, s);
    } else {
      MainTouchesNoFiles(c, s, l);
      SameFilesStay(c, s.db, t.db, s.importer.filesDone);
    }
  }

  // ------------------------------------------------------------- runs

  ghost predicate FetchingRun(c: Config, run: seq<State>) {
    Run(c, run) && forall i :: 0 <= i < |run| - 1 ==> Fetches(c, run[i], run[i + 1])
  }

  lemma {:induction false} RunHasFiles(c: Config, run: seq<State>, i: nat)
    requires WellFormed(c) && KeepsNames(c) && FilesKeyed(c.db) && FetchingRun(c, run) && i < |run|
    ensures AllFiles(c, run[i].db, run[i].importer.filesDone)
  {
    if i > 0 {
      RunHasFiles(c, run, i - 1);
      RunInv(c, run, i - 1);
      assert Fetches(c, run[i - 1], run[i - 1 + 1]);
      StepKeepsFiles(c, run[i - 1], run[i]);
    }
  }

  lemma {:induction false} InJobsOf(id: string, versions: seq<ChartVersion>, v: ChartVersion)
    requires v in versions
    ensures F.FilesJob(id, v) in F.JobsOf(id, versions)
  {
    if v != versions[0] {
      InJobsOf(id, versions[1..], v);
    }
  }

  lemma {:induction false} InPlan(charts: seq<Chart>, ch: Chart, v: ChartVersion)
    requires F.HaveVersions(charts) && ch in charts && v in ch.versions
    ensures F.FilesJob(ch.id, v) in F.Latest(charts) || F.FilesJob(ch.id, v) in F.Historic(charts)
  {
    if ch != charts[0] {
      InPlan(charts[1..], ch, v);
    } else if v != ch.versions[0] {
      assert v in ch.versions[1..];
      InJobsOf(ch.id, ch.versions[1..], v);
    }
  }

  /** After a pass whose every fetch succeeds, each version of each accepted chart has its files
      row, with the digest of an accepted version of that identifier. */
  lemma CompletedPassStoresFiles(c: Config, run: seq<State>, ch: Chart, v: ChartVersion)
    requires WellFormed(c) && KeepsNames(c) && FilesKeyed(c.db)
    requires FetchingRun(c, run) && Complete(run[|run| - 1])
    requires ch in Accepted(c, run[|run| - 1].pipe.seen) && v in ch.versions
    ensures HasFiles(c, run[|run| - 1].db, run[|run| - 1].importer.filesDone, F.FilesJob(ch.id, v))
  {
    CompletedPassImportedEverything(c, run, |run| - 1);
    PlannedFiles(Accepted(c, run[|run| - 1].pipe.seen), ch, v);
    RunHasFiles(c, run, |run| - 1);
    HadFiles(c, run[|run| - 1].db, run[|run| - 1].importer.filesDone, F.FilesJob(ch.id, v));
  }

  lemma PlannedFiles(charts: seq<Chart>, ch: Chart, v: ChartVersion)
    requires F.HaveVersions(charts) && ch in charts && v in ch.versions
    ensures F.FilesJob(ch.id, v) in multiset(F.Plan(charts))
  {
    InPlan(charts, ch, v);
    assert F.FilesJob(ch.id, v) in F.Plan(charts);
  }

  /** So after a pass over an index, for every version of every chart of the index. */
  lemma IndexFilesAreStored(repo: RepoKey, entries: seq<ChartEntries>, shallow: bool, charts: seq<Chart>, db: DB,
      run: seq<State>, ch: Chart, v: ChartVersion)
    requires IsIndexCharts(entries, repo.name, shallow, charts) && Consistent(db) && FilesKeyed(db)
    requires var c := PassConfig(repo, charts, db); FetchingRun(c, run) && Complete(run[|run| - 1])
    requires ch in charts && v in ch.versions
    ensures FilesKey(repo.namespace, FilesId(ch.id, v.version)) in run[|run| - 1].db.files
  {
    var c := PassConfig(repo, charts, db);
    IndexConfigIsWellFormed(repo, entries, shallow, charts, db, c.accepts);
    IndexKeepsNames(repo, charts, db, c.accepts);
    AcceptedAreCharts(repo, charts, db, run);
    CompletedPassStoresFiles(c, run, ch, v);
  }
}
