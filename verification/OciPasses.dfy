/** What every pass of an OCI registry guarantees, steady or not: when it crashes, that it
    completes otherwise, and what it deletes. */
module OciPasses {
  import opened Prelude
  import opened Versions
  import opened Percent
  import opened ChartNames
  import opened Catalogue
  import opened OciPull
  import opened OciRegistry
  import opened OciConvergence
  import opened SyncPass
  import opened PassTheorems
  import P = PullPipeline

  /** What is found under an application is a chart of its name. */
  ghost predicate NamesMatch(remote: Remote) {
    forall app, v :: app in remote.apps && remote.pull(app, v).Some? ==> remote.pull(app, v).value.name == app
  }

  /** A pass with any filter. */
  ghost function FilteredConfig(remote: Remote, db: DB, queue: Queue, accepts: Chart -> bool): Config {
    PassConfig(remote, db, queue).(accepts := accepts)
  }

  // ------------------------------------------------------------- the producer

  ghost predicate ListsUpTo(remote: Remote, apps: seq<string>, i: nat)
    requires i <= |apps|
  {
    forall k :: 0 <= k < i ==> remote.tags(apps[k]).Some? && Parsed(remote.tags(apps[k]).value).Some?
  }

  ghost predicate CrashesAt(remote: Remote, apps: seq<string>, i: nat) {
    && i < |apps| && ListsUpTo(remote, apps, i)
    && remote.tags(apps[i]).Some? && Parsed(remote.tags(apps[i]).value).None?
  }

  /** The producer crashes just on a tag that is no version, unless listing the tags of an
      earlier application fails. */
  lemma {:induction false} ProducerCrashesIff(remote: Remote, apps: seq<string>, synced: map<string, Chart>,
      shallow: bool)
    ensures QueueJobs(remote, apps, synced, shallow).crashes <==> exists i: nat :: CrashesAt(remote, apps, i)
  {
    if apps != [] {
      ProducerCrashesIff(remote, apps[1..], synced, shallow);
      if i: nat :| CrashesAt(remote, apps, i) {
        EarlierCrash(remote, apps, i);
      }
      if QueueJobs(remote, apps, synced, shallow).crashes {
        if Parsed(remote.tags(apps[0]).value).None? {
          assert CrashesAt(remote, apps, 0);
        } else {
          var i: nat :| CrashesAt(remote, apps[1..], i);
          LaterCrash(remote, apps, i);
        }
      }
    }
  }

  lemma EarlierCrash(remote: Remote, apps: seq<string>, i: nat)
    requires CrashesAt(remote, apps, i)
    ensures i > 0 ==> Parsed(remote.tags(apps[0]).value).Some? && CrashesAt(remote, apps[1..], i - 1)
  {
    if i > 0 {
      forall k | 0 <= k < i - 1 ensures remote.tags(apps[1..][k]).Some?
        && Parsed(remote.tags(apps[1..][k]).value).Some? {
        assert apps[1..][k] == apps[k + 1];
      }
    }
  }

  lemma LaterCrash(remote: Remote, apps: seq<string>, i: nat)
    requires apps != [] && CrashesAt(remote, apps[1..], i)
    requires remote.tags(apps[0]).Some? && Parsed(remote.tags(apps[0]).value).Some?
    ensures CrashesAt(remote, apps, i + 1)
  {
    forall k | 0 <= k < i + 1 ensures remote.tags(apps[k]).Some? && Parsed(remote.tags(apps[k]).value).Some? {
      assert k > 0 ==> apps[k] == apps[1..][k - 1];
    }
  }

  lemma FirstJobs(remote: Remote, apps: seq<string>, synced: map<string, Chart>, shallow: bool)
    requires apps != [] && remote.tags(apps[0]).Some? && Ordered(remote.tags(apps[0]).value).Some?
    ensures var job := JobFor(synced, apps[0], Ordered(remote.tags(apps[0]).value).value, shallow);
      QueueJobs(remote, apps, synced, shallow).jobs
      == (if job.Some? then [job.value] else []) + QueueJobs(remote, apps[1..], synced, shallow).jobs
  {
  }

  lemma JobIsNew(synced: map<string, Chart>, app: string, tags: seq<Version>, shallow: bool)
    ensures var job := JobFor(synced, app, tags, shallow);
      job.Some? ==> job.value.app == app && job.value.versions != [] && job.value.chart == Lookup(synced, app)
  {
  }

  lemma {:induction false} QueuedJobIsNew(remote: Remote, apps: seq<string>, synced: map<string, Chart>, shallow: bool,
      j: PullJob)
    requires j in QueueJobs(remote, apps, synced, shallow).jobs
    ensures j.app in apps && j.versions != [] && j.chart == Lookup(synced, j.app)
  {
    FirstJobs(remote, apps, synced, shallow);
    JobIsNew(synced, apps[0], Ordered(remote.tags(apps[0]).value).value, shallow);
    if j in QueueJobs(remote, apps[1..], synced, shallow).jobs {
      QueuedJobIsNew(remote, apps[1..], synced, shallow, j);
    }
  }

  /** The chart of a job, if it has one, is a stored one with the application's name. */
  lemma JobOfQueue(remote: Remote, db: DB, shallow: bool, queue: Queue, j: PullJob)
    requires Queued(remote, db, shallow, queue) && j in queue.jobs
    ensures j.app in remote.apps && j.versions != [] && (j.chart.Some? ==> j.chart.value.name == j.app)
  {
    var synced :| IsChartsByName(db, remote.repo, synced) && QueueJobs(remote, remote.apps, synced, shallow) == queue;
    QueuedJobIsNew(remote, remote.apps, synced, shallow, j);
  }

  // ------------------------------------------------------------- results

  lemma ResultHasName(remote: Remote, db: DB, shallow: bool, queue: Queue, j: PullJob)
    requires Queued(remote, db, shallow, queue) && NamesMatch(remote) && j in queue.jobs
    requires RunJob(remote.pull, remote.repo.name, j).Some?
    ensures RunJob(remote.pull, remote.repo.name, j).value.chart.name == j.app && j.app in remote.apps
  {
    JobOfQueue(remote, db, shallow, queue, j);
    RunJobMeaning(remote.pull, remote.repo.name, j);
  }

  lemma ResultHasVersions(remote: Remote, db: DB, shallow: bool, queue: Queue, j: PullJob)
    requires Queued(remote, db, shallow, queue) && j in queue.jobs
    requires var r := RunJob(remote.pull, remote.repo.name, j); r.Some? && r.value.errors == 0
    ensures RunJob(remote.pull, remote.repo.name, j).value.chart.versions != []
  {
    JobOfQueue(remote, db, shallow, queue, j);
    RunJobMeaning(remote.pull, remote.repo.name, j);
    var s := Successes(remote.pull, j.app, j.versions);
    assert s[0] in multiset(s);
  }

  lemma PassIsWellFormed(remote: Remote, db: DB, shallow: bool, queue: Queue, accepts: Chart -> bool)
    requires Queued(remote, db, shallow, queue)
    ensures WellFormed(FilteredConfig(remote, db, queue, accepts))
  {
    var c := FilteredConfig(remote, db, queue, accepts);
    forall r | Possible(c, r) && r.errors == 0 ensures r.chart.versions != [] {
      var j :| j in queue.jobs && c.work.run(j) == Some(r);
      ResultHasVersions(remote, db, shallow, queue, j);
    }
  }

  /** `Charts` never schedules for deletion what the same pass writes. */
  lemma PassKeepsNames(remote: Remote, db: DB, shallow: bool, queue: Queue, accepts: Chart -> bool)
    requires Queued(remote, db, shallow, queue) && NamesMatch(remote)
    ensures KeepsNames(FilteredConfig(remote, db, queue, accepts))
    ensures forall r :: Possible(FilteredConfig(remote, db, queue, accepts), r) ==> r.chart.name in remote.apps
  {
    var c := FilteredConfig(remote, db, queue, accepts);
    forall r | Possible(c, r) ensures r.chart.name in remote.apps {
      var j :| j in queue.jobs && c.work.run(j) == Some(r);
      ResultHasName(remote, db, shallow, queue, j);
    }
  }

  // ------------------------------------------------------------- crashes and completion

  /** The chart was never stored, and no pull brings it now. */
  ghost predicate Lost(remote: Remote, j: PullJob) {
    j.chart.None? && forall v :: v in j.versions ==> remote.pull(j.app, v).None?
  }

  /** Every queued application is stored or has a version that can be pulled. */
  ghost predicate NoneLost(remote: Remote, queue: Queue) {
    forall j :: j in queue.jobs ==> !Lost(remote, j)
  }

  lemma NoCrashIff(remote: Remote, db: DB, queue: Queue, accepts: Chart -> bool)
    ensures P.NoCrash(FilteredConfig(remote, db, queue, accepts).work) <==> !queue.crashes && NoneLost(remote, queue)
  {
    forall j ensures RunJob(remote.pull, remote.repo.name, j).None? <==> Lost(remote, j) {
      RunJobMeaning(remote.pull, remote.repo.name, j);
    }
  }

  /** In every run of a pass, a panic means that the producer crashes on a tag, or a queued
      application that is not stored and whose every pull fails. */
  lemma PanicHasCause(remote: Remote, db: DB, shallow: bool, queue: Queue, accepts: Chart -> bool,
      run: seq<State>, i: nat)
    requires Queued(remote, db, shallow, queue) && Run(FilteredConfig(remote, db, queue, accepts), run) && i < |run|
    ensures Panicked(run[i]) ==>
      (exists k: nat :: CrashesAt(remote, remote.apps, k)) || exists j :: j in queue.jobs && Lost(remote, j)
    ensures Complete(run[i]) ==>
      !(exists k: nat :: CrashesAt(remote, remote.apps, k)) && NoneLost(remote, queue)
  {
    var c := FilteredConfig(remote, db, queue, accepts);
    PassIsWellFormed(remote, db, shallow, queue, accepts);
    QueueCrashesIff(remote, db, shallow, queue);
    NoCrashIff(remote, db, queue, accepts);
    PanicMeansCrash(c, run, i);
    if Complete(run[i]) {
      CompletionNeedsCharts(c, run, i);
    }
  }

  lemma QueueCrashesIff(remote: Remote, db: DB, shallow: bool, queue: Queue)
    requires Queued(remote, db, shallow, queue)
    ensures queue.crashes <==> exists k: nat :: CrashesAt(remote, remote.apps, k)
  {
    var synced :| IsChartsByName(db, remote.repo, synced) && QueueJobs(remote, remote.apps, synced, shallow) == queue;
    ProducerCrashesIff(remote, remote.apps, synced, shallow);
  }

  /** Every schedule of a pass completes just when the producer does not crash and no queued
      application is lost. */
  lemma PassCompletesIff(remote: Remote, db: DB, shallow: bool, queue: Queue, accepts: Chart -> bool,
      f: nat -> State)
    requires Queued(remote, db, shallow, queue)
    requires var c := FilteredConfig(remote, db, queue, accepts); f(0) == Start(c) && Schedule(c, f)
    ensures (exists n: nat :: Complete(f(n)))
      <==> !(exists k: nat :: CrashesAt(remote, remote.apps, k)) && NoneLost(remote, queue)
  {
    var c := FilteredConfig(remote, db, queue, accepts);
    PassIsWellFormed(remote, db, shallow, queue, accepts);
    QueueCrashesIff(remote, db, shallow, queue);
    NoCrashIff(remote, db, queue, accepts);
    if P.NoCrash(c.work) {
      EveryScheduleCompletes(c, f);
    }
    if n: nat :| Complete(f(n)) {
      StartInv(c);
      ScheduleInv(c, f, n);
      DrainedMeansAllSeen(c.work, f(n).pipe);
    }
  }

  /** No files row is ever inserted without its chart, although the charts of dropped
      applications are removed meanwhile. */
  lemma OciFilesFindTheirChart(remote: Remote, db: DB, shallow: bool, queue: Queue, accepts: Chart -> bool,
      run: seq<State>, i: nat)
    requires Queued(remote, db, shallow, queue) && NamesMatch(remote)
    requires Run(FilteredConfig(remote, db, queue, accepts), run) && i < |run|
    ensures !run[i].orphaned && Consistent(run[i].db)
  {
    PassIsWellFormed(remote, db, shallow, queue, accepts);
    PassKeepsNames(remote, db, shallow, queue, accepts);
    FilesAlwaysFindTheirChart(FilteredConfig(remote, db, queue, accepts), run, i);
  }

  // ------------------------------------------------------------- what is pulled is stored

  lemma {:induction false} QueuedJobIs(remote: Remote, apps: seq<string>, synced: map<string, Chart>, shallow: bool,
      j: PullJob)
    requires j in QueueJobs(remote, apps, synced, shallow).jobs
    ensures remote.tags(j.app).Some? && Ordered(remote.tags(j.app).value).Some?
    ensures JobFor(synced, j.app, Ordered(remote.tags(j.app).value).value, shallow) == Some(j)
  {
    FirstJobs(remote, apps, synced, shallow);
    if j in QueueJobs(remote, apps[1..], synced, shallow).jobs {
      QueuedJobIs(remote, apps[1..], synced, shallow, j);
    }
  }

  /** An application has one job at most. */
  lemma OneJobEach(remote: Remote, db: DB, shallow: bool, queue: Queue, i: PullJob, j: PullJob)
    requires Queued(remote, db, shallow, queue) && i in queue.jobs && j in queue.jobs && i.app == j.app
    ensures i == j
  {
    var synced :| IsChartsByName(db, remote.repo, synced) && QueueJobs(remote, remote.apps, synced, shallow) == queue;
    QueuedJobIs(remote, remote.apps, synced, shallow, i);
    QueuedJobIs(remote, remote.apps, synced, shallow, j);
  }

  /** The rows of the repository tell its applications apart. */
  ghost predicate RowsApart(remote: Remote, db: DB) {
    OwnRows(db, remote) && forall app :: app in remote.apps ==> IsBytes(app)
  }

  lemma ResultRow(remote: Remote, db: DB, shallow: bool, queue: Queue, j: PullJob)
    requires Queued(remote, db, shallow, queue) && NamesMatch(remote) && RowsApart(remote, db) && j in queue.jobs
    requires RunJob(remote.pull, remote.repo.name, j).Some?
    ensures ChartKey(remote.repo, RunJob(remote.pull, remote.repo.name, j).value.chart.id) == RowOf(remote, j.app)
    ensures j.app in remote.apps && RunJob(remote.pull, remote.repo.name, j).value.chart.name == j.app
  {
    var synced :| IsChartsByName(db, remote.repo, synced) && QueueJobs(remote, remote.apps, synced, shallow) == queue;
    QueuedJobIsNew(remote, remote.apps, synced, shallow, j);
    StoredIsLookup(db, remote, synced, j.app);
    ResultHasName(remote, db, shallow, queue, j);
    RunJobMeaning(remote.pull, remote.repo.name, j);
  }

  lemma OneResultEach(remote: Remote, db: DB, shallow: bool, queue: Queue, j: PullJob, r: PullResult)
    requires Queued(remote, db, shallow, queue) && NamesMatch(remote) && RowsApart(remote, db) && j in queue.jobs
    requires RunJob(remote.pull, remote.repo.name, j) == Some(r)
    ensures forall q :: Possible(PassConfig(remote, db, queue), q) && q.chart.id == r.chart.id ==> q == r
  {
    var c := PassConfig(remote, db, queue);
    ResultRow(remote, db, shallow, queue, j);
    forall q | Possible(c, q) && q.chart.id == r.chart.id ensures q == r {
      var i :| i in queue.jobs && c.work.run(i) == Some(q);
      ResultRow(remote, db, shallow, queue, i);
      if i.app != j.app {
        ChartIdInjective(remote.repo.name, i.app, j.app);
      }
      OneJobEach(remote, db, shallow, queue, i, j);
    }
  }

  lemma {:induction false} SuccessIsThere(pull: Registry, app: string, versions: seq<Version>, v: Version)
    requires v in versions && pull(app, v).Some?
    ensures ChartVersion(pull(app, v).value.version, pull(app, v).value.digest) in Successes(pull, app, versions)
  {
    if v != versions[0] {
      SuccessIsThere(pull, app, versions[1..], v);
    }
  }

  lemma PulledIsInResult(pull: Registry, repo: string, j: PullJob, v: Version)
    requires v in j.versions && pull(j.app, v).Some?
    ensures var r := RunJob(pull, repo, j);
      r.Some? && ChartVersion(pull(j.app, v).value.version, pull(j.app, v).value.digest) in r.value.chart.versions
  {
    RunJobMeaning(pull, repo, j);
    SuccessIsThere(pull, j.app, j.versions, v);
    var x := ChartVersion(pull(j.app, v).value.version, pull(j.app, v).value.digest);
    assert x in multiset(Successes(pull, j.app, j.versions));
    assert x in multiset(RunJob(pull, repo, j).value.chart.versions);
  }

  /** Whatever other pulls fail, a queued version that could be pulled is stored after the pass
      with its digest, in the row of its application. */
  lemma PulledVersionIsStored(remote: Remote, db: DB, shallow: bool, queue: Queue, run: seq<State>,
      j: PullJob, v: Version)
    requires Queued(remote, db, shallow, queue) && NamesMatch(remote) && RowsApart(remote, db)
    requires Run(PassConfig(remote, db, queue), run) && Complete(run[|run| - 1])
    requires j in queue.jobs && v in j.versions && remote.pull(j.app, v).Some?
    ensures var after, p, k := run[|run| - 1].db, remote.pull(j.app, v).value, RowOf(remote, j.app);
      k in after.charts && ChartVersion(p.version, p.digest) in after.charts[k].versions
  {
    var c := PassConfig(remote, db, queue);
    PulledIsInResult(remote.pull, remote.repo.name, j, v);
    var r := RunJob(remote.pull, remote.repo.name, j).value;
    PassIsWellFormed(remote, db, shallow, queue, c.accepts);
    PassKeepsNames(remote, db, shallow, queue, c.accepts);
    ResultRow(remote, db, shallow, queue, j);
    OneResultEach(remote, db, shallow, queue, j, r);
    assert c.work.run(j) == Some(r);
    ResultWithVersionsIsStored(c, run, r);
  }

  // ------------------------------------------------------------- deletion

  /** A completed pass removes the charts of dropped applications and no other: every stored
      name is an application's, and every row under an application's name is still there. */
  lemma DroppedApplicationsGo(remote: Remote, db: DB, shallow: bool, queue: Queue, accepts: Chart -> bool,
      run: seq<State>)
    requires Queued(remote, db, shallow, queue) && NamesMatch(remote)
    requires Run(FilteredConfig(remote, db, queue, accepts), run) && Complete(run[|run| - 1])
    ensures var after := run[|run| - 1].db;
      && NamesIn(after, remote.repo) <= (set a | a in remote.apps)
      && forall k :: k in db.charts && k.repo == remote.repo && db.charts[k].name in remote.apps ==> k in after.charts
  {
    var c := FilteredConfig(remote, db, queue, accepts);
    var seen := run[|run| - 1].pipe.seen;
    PassIsWellFormed(remote, db, shallow, queue, accepts);
    PassKeepsNames(remote, db, shallow, queue, accepts);
    CompletedPassRows(c, run, |run| - 1);
    assert forall r :: r in seen ==> Possible(c, r) by {
      RunInv(c, run, |run| - 1);
    }
    AcceptedNamesAreApplications(c, remote.apps, seen);
    OnlyDroppedGo(remote, db, Accepted(c, seen), run[|run| - 1].db);
  }

  /** Where the filter refuses every chart of an identifier, a pass leaves its row as it was,
      but for the removal of dropped applications. */
  lemma RefusedChartStays(remote: Remote, db: DB, shallow: bool, queue: Queue, accepts: Chart -> bool,
      run: seq<State>, id: string)
    requires Queued(remote, db, shallow, queue)
    requires Run(FilteredConfig(remote, db, queue, accepts), run) && Complete(run[|run| - 1])
    requires forall ch: Chart :: ch.id == id ==> !accepts(ch)
    ensures var after, k := run[|run| - 1].db, ChartKey(remote.repo, id);
      && (k in after.charts <==> k in db.charts && db.charts[k].name in remote.apps)
      && (k in after.charts ==> after.charts[k] == db.charts[k])
  {
    var c := FilteredConfig(remote, db, queue, accepts);
    PassIsWellFormed(remote, db, shallow, queue, accepts);
    RefusedResultsChangeNothing(c, run, id);
    var k := ChartKey(remote.repo, id);
    assert k in db.charts ==> db.charts[k].name in NamesIn(db, remote.repo);
  }

  lemma AcceptedNamesAreApplications(c: Config, apps: seq<string>, seen: seq<PullResult>)
    requires forall r :: Possible(c, r) ==> r.chart.name in apps
    requires forall r :: r in seen ==> Possible(c, r)
    ensures forall ch :: ch in Accepted(c, seen) ==> ch.name in apps
  {
  }

  lemma OnlyDroppedGo(remote: Remote, db: DB, written: seq<Chart>, after: DB)
    requires forall ch :: ch in written ==> ch.name in remote.apps
    requires after.charts == RemoveMissing(StoreAll(db, remote.repo, written), remote.repo, ToDelete(db, remote)).charts
    ensures NamesIn(after, remote.repo) <= (set a | a in remote.apps)
    ensures forall k :: k in db.charts && k.repo == remote.repo && db.charts[k].name in remote.apps ==>
      k in after.charts
  {
    forall k | k in after.charts && k.repo == remote.repo ensures after.charts[k].name in remote.apps {
      StoredRow(db, remote.repo, written, k.id);
    }
    forall k | k in db.charts && k.repo == remote.repo && db.charts[k].name in remote.apps ensures k in after.charts {
      StoredRow(db, remote.repo, written, k.id);
    }
  }

  /** The stored name comes from inside the chart, and what is dropped is decided by the names of
      the applications. A chart of another name is stored by one pass and deleted by the next. */
  lemma ForeignNameComesAndGoes(remote: Remote, db: DB, shallow: bool, queue: Queue, accepts: Chart -> bool,
      run: seq<State>, r: PullResult)
    requires Queued(remote, db, shallow, queue)
    requires Run(FilteredConfig(remote, db, queue, accepts), run) && Complete(run[|run| - 1])
    requires var c := FilteredConfig(remote, db, queue, accepts);
      Possible(c, r) && Accepts(c, r) && forall q :: Possible(c, q) && q.chart.id == r.chart.id ==>
        q.chart.name == r.chart.name
    requires r.chart.name !in remote.apps
    ensures r.chart.name in NamesIn(run[|run| - 1].db, remote.repo) <==> r.chart.name !in NamesIn(db, remote.repo)
  {
    var c := FilteredConfig(remote, db, queue, accepts);
    var seen := run[|run| - 1].pipe.seen;
    PassIsWellFormed(remote, db, shallow, queue, accepts);
    CompletedPassRows(c, run, |run| - 1);
    assert forall q :: q in seen ==> Possible(c, q) by {
      RunInv(c, run, |run| - 1);
    }
    PossibleIsSeen(c, run, r);
    SeenIsAccepted(c, seen, r);
    NameAfterDeletion(remote, db, Accepted(c, seen), run[|run| - 1].db, r.chart);
  }

  lemma NameAfterDeletion(remote: Remote, db: DB, written: seq<Chart>, after: DB, ch: Chart)
    requires ch in written && ch.name !in remote.apps && forall d :: d in written && d.id == ch.id ==> d.name == ch.name
    requires after.charts == RemoveMissing(StoreAll(db, remote.repo, written), remote.repo, ToDelete(db, remote)).charts
    ensures ch.name in NamesIn(after, remote.repo) <==> ch.name !in NamesIn(db, remote.repo)
  {
    var k := ChartKey(remote.repo, ch.id);
    StoredRow(db, remote.repo, written, ch.id);
    if ch.name !in NamesIn(db, remote.repo) {
      assert after.charts[k].name == ch.name;
    }
  }
}
