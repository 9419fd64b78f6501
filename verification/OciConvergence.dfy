/** What a pass of a steady OCI repository adds to what is stored for an application, whatever
    that is. */
module OciConvergence {
  import opened Prelude
  import opened Versions
  import opened Percent
  import opened ChartNames
  import opened Catalogue
  import opened OciPull
  import opened MissingVersions
  import opened OciRegistry
  import opened SyncPass
  import P = PullPipeline

  /** The application lists versions of distinct precedence, and pulling one yields a chart
      with the application's name and it. */
  ghost predicate SteadyApp(remote: Remote, app: string) {
    && IsBytes(app)
    && remote.tags(app).Some?
    && var vs := Parsed(remote.tags(app).value);
    && vs.Some? && DistinctPrecedence(Self, vs.value)
    && (forall v :: v in vs.value ==>
          remote.pull(app, v).Some? && remote.pull(app, v).value.name == app && remote.pull(app, v).value.version == v)
  }

  ghost predicate Steady(remote: Remote) {
    forall app :: app in remote.apps ==> SteadyApp(remote, app)
  }

  /** The application's versions, newest first. */
  ghost function Tags(remote: Remote, app: string): seq<Version>
    requires SteadyApp(remote, app)
  {
    Ordered(remote.tags(app).value).value
  }

  lemma TagsFacts(remote: Remote, app: string)
    requires SteadyApp(remote, app)
    ensures StrictlyDescending(Self, Tags(remote, app))
    ensures forall v :: v in Tags(remote, app) ==>
      remote.pull(app, v).Some? && remote.pull(app, v).value.name == app && remote.pull(app, v).value.version == v
  {
    var vs := Parsed(remote.tags(app).value).value;
    SortOfDistinct(Self, vs);
    forall v | v in Tags(remote, app) ensures v in vs {
      assert v in multiset(Tags(remote, app));
    }
  }

  function RowOf(remote: Remote, app: string): ChartKey {
    ChartKey(remote.repo, ChartId(remote.repo.name, app))
  }

  function StoredChart(db: DB, remote: Remote, app: string): Option<Chart> {
    if RowOf(remote, app) in db.charts then Some(db.charts[RowOf(remote, app)]) else None
  }

  function StoredVersions(db: DB, remote: Remote, app: string): seq<Version> {
    VersionsOf(StoredChart(db, remote, app))
  }

  /** The tags that are not stored, newest first. */
  ghost function Missing(db: DB, remote: Remote, app: string): seq<Version>
    requires SteadyApp(remote, app)
  {
    Unsynced(Tags(remote, app), StoredVersions(db, remote, app))
  }

  /** Every row of the repository, of a present application or a dropped one, is identified by
      its name. */
  ghost predicate OwnRows(db: DB, remote: Remote) {
    Consistent(db) && forall k :: k in db.charts && k.repo == remote.repo ==> OwnRow(db, remote, k)
  }

  ghost predicate OwnRow(db: DB, remote: Remote, k: ChartKey)
    requires k in db.charts
  {
    IsBytes(db.charts[k].name) && k == RowOf(remote, db.charts[k].name)
  }

  // ------------------------------------------------------------- one pass

  ghost function ToDelete(db: DB, remote: Remote): set<string> {
    set n | n in NamesIn(db, remote.repo) && n !in remote.apps
  }

  ghost function PassConfig(remote: Remote, db: DB, queue: Queue): Config {
    Config(P.Work((j: PullJob) => RunJob(remote.pull, remote.repo.name, j), queue.jobs, queue.crashes, []),
           false, remote.repo, (ch: Chart) => true, ToDelete(db, remote), db)
  }

  /** What the producer queues for a pass. Of several stored charts with one name, any may be
      the one that it finds. */
  ghost predicate Queued(remote: Remote, db: DB, shallow: bool, queue: Queue) {
    && Consistent(db)
    && exists synced ::
         IsChartsByName(db, remote.repo, synced) && QueueJobs(remote, remote.apps, synced, shallow) == queue
  }

  /** A complete, unfiltered pass, in any interleaving. */
  ghost predicate OciPass(remote: Remote, shallow: bool, db: DB, after: DB) {
    exists queue, run :: Queued(remote, db, shallow, queue) && CompletesWith(PassConfig(remote, db, queue), run, after)
  }

  lemma NameOfRow(db: DB, remote: Remote, app: string)
    requires OwnRows(db, remote) && IsBytes(app) && RowOf(remote, app) in db.charts
    ensures db.charts[RowOf(remote, app)].name == app
  {
    var k := RowOf(remote, app);
    assert OwnRow(db, remote, k);
    if db.charts[k].name != app {
      ChartIdInjective(remote.repo.name, db.charts[k].name, app);
    }
  }

  /** The chart that the producer finds under an application's name is the one in its row. */
  lemma StoredIsLookup(db: DB, remote: Remote, synced: map<string, Chart>, app: string)
    requires OwnRows(db, remote) && IsChartsByName(db, remote.repo, synced) && IsBytes(app)
    ensures Lookup(synced, app) == StoredChart(db, remote, app)
    ensures IsChartOf(remote, app, StoredChart(db, remote, app))
  {
    if RowOf(remote, app) in db.charts {
      NameOfRow(db, remote, app);
      assert app in NamesIn(db, remote.repo);
    }
    if app in synced {
      var k :| k in db.charts && k.repo == remote.repo && db.charts[k] == synced[app];
      assert OwnRow(db, remote, k);
    }
  }

  ghost predicate IsChartOf(remote: Remote, app: string, chart: Option<Chart>) {
    chart.Some? ==> chart.value.name == app && chart.value.id == ChartId(remote.repo.name, app)
  }

  // ------------------------------------------------------------- the result of a job

  lemma {:induction false} AllSucceed(pull: Registry, app: string, vs: seq<Version>)
    requires forall v :: v in vs ==> pull(app, v).Some? && pull(app, v).value.version == v
    ensures |Successes(pull, app, vs)| == |vs|
    ensures Map(VersionOf, Successes(pull, app, vs)) == vs
  {
    if vs != [] {
      AllSucceed(pull, app, vs[1..]);
      MapConcat(VersionOf, [PulledVersion(pull(app, vs[0]).value)], Successes(pull, app, vs[1..]));
    }
  }

  /** The chart that a pass makes of an application's: `added` joins what it had, newest first. */
  ghost predicate IsGrown(remote: Remote, app: string, chart: Option<Chart>, added: seq<Version>, r: PullResult) {
    && r.errors == 0 && IsChartOf(remote, app, Some(r.chart))
    && Descending(VersionOf, r.chart.versions)
    && multiset(Map(VersionOf, r.chart.versions)) == multiset(VersionsOf(chart)) + multiset(added)
  }

  lemma JobGrows(remote: Remote, app: string, added: seq<Version>, chart: Option<Chart>)
    requires SteadyApp(remote, app) && added != [] && (forall v :: v in added ==> v in Tags(remote, app))
    requires IsChartOf(remote, app, chart)
    ensures var r := RunJob(remote.pull, remote.repo.name, PullJob(app, added, chart));
      r.Some? && IsGrown(remote, app, chart, added, r.value)
  {
    TagsFacts(remote, app);
    assert added[0] in added;
    RunJobMeaning(remote.pull, remote.repo.name, PullJob(app, added, chart));
    VersionsOfResult(remote.pull, remote.repo.name, PullJob(app, added, chart));
  }

  lemma VersionsOfResult(pull: Registry, repo: string, job: PullJob)
    requires forall v :: v in job.versions ==> pull(job.app, v).Some? && pull(job.app, v).value.version == v
    ensures var r := RunJob(pull, repo, job);
      r.Some? ==>
        && r.value.errors == 0
        && multiset(Map(VersionOf, r.value.chart.versions)) == multiset(VersionsOf(job.chart)) + multiset(job.versions)
  {
    AllSucceed(pull, job.app, job.versions);
    RunJobMeaning(pull, repo, job);
    var r := RunJob(pull, repo, job);
    if r.Some? {
      var stored := if job.chart.Some? then job.chart.value.versions else [];
      VersionsTogether(r.value.chart.versions, stored, Successes(pull, job.app, job.versions));
    }
  }

  // ------------------------------------------------------------- the jobs of a pass

  /** The job of an application of which versions are missing. */
  ghost function JobOf(db: DB, remote: Remote, shallow: bool, app: string): PullJob
    requires SteadyApp(remote, app)
  {
    PullJob(app, Added(db, remote, shallow, app), StoredChart(db, remote, app))
  }

  ghost function Added(db: DB, remote: Remote, shallow: bool, app: string): (vs: seq<Version>)
    requires SteadyApp(remote, app)
    ensures vs == Missing(db, remote, app)[..Min(Limit(shallow), |Missing(db, remote, app)|)]
  {
    FirstFew(Limit(shallow), Missing(db, remote, app))
  }

  lemma {:induction false} QueuedJobs(remote: Remote, apps: seq<string>, synced: map<string, Chart>, shallow: bool)
    requires forall app :: app in apps ==> SteadyApp(remote, app)
    ensures var queue := QueueJobs(remote, apps, synced, shallow);
      && !queue.crashes
      && (forall j :: j in queue.jobs ==>
            j.app in apps && JobFor(synced, j.app, Tags(remote, j.app), shallow) == Some(j))
      && (forall app :: app in apps && JobFor(synced, app, Tags(remote, app), shallow).Some? ==>
            JobFor(synced, app, Tags(remote, app), shallow).value in queue.jobs)
  {
    if apps != [] {
      assert SteadyApp(remote, apps[0]);
      QueuedJobs(remote, apps[1..], synced, shallow);
      var rest := QueueJobs(remote, apps[1..], synced, shallow);
      var job := JobFor(synced, apps[0], Tags(remote, apps[0]), shallow);
      assert QueueJobs(remote, apps, synced, shallow)
        == Queue((if job.Some? then [job.value] else []) + rest.jobs, rest.crashes);
    }
  }

  /** A pass has one job for every application of which versions are missing, and no other. */
  lemma JobsOfPass(remote: Remote, db: DB, shallow: bool, queue: Queue)
    requires Steady(remote) && OwnRows(db, remote) && Queued(remote, db, shallow, queue)
    ensures !queue.crashes
    ensures forall j :: j in queue.jobs ==> IsJobOfPass(remote, db, shallow, j)
    ensures forall app :: app in remote.apps && Missing(db, remote, app) != [] ==>
      JobOf(db, remote, shallow, app) in queue.jobs
  {
    var synced :| IsChartsByName(db, remote.repo, synced) && QueueJobs(remote, remote.apps, synced, shallow) == queue;
    QueuedJobs(remote, remote.apps, synced, shallow);
    forall app | app in remote.apps
      ensures JobFor(synced, app, Tags(remote, app), shallow)
        == if Missing(db, remote, app) == [] then None else Some(JobOf(db, remote, shallow, app))
    {
      assert SteadyApp(remote, app);
      StoredIsLookup(db, remote, synced, app);
    }
    forall j | j in queue.jobs ensures IsJobOfPass(remote, db, shallow, j) {
      assert j.app in remote.apps && JobFor(synced, j.app, Tags(remote, j.app), shallow) == Some(j);
    }
  }

  ghost predicate IsJobOfPass(remote: Remote, db: DB, shallow: bool, j: PullJob) {
    && j.app in remote.apps && SteadyApp(remote, j.app)
    && Missing(db, remote, j.app) != [] && j == JobOf(db, remote, shallow, j.app)
  }

  lemma ResultOfJob(remote: Remote, db: DB, shallow: bool, j: PullJob)
    requires OwnRows(db, remote) && IsJobOfPass(remote, db, shallow, j)
    ensures var r := RunJob(remote.pull, remote.repo.name, j);
      r.Some? && IsGrown(remote, j.app, StoredChart(db, remote, j.app), Added(db, remote, shallow, j.app), r.value)
  {
    var app := j.app;
    UnsyncedAre(Tags(remote, app), StoredVersions(db, remote, app));
    RowIsOfApp(db, remote, app);
    JobGrows(remote, app, Added(db, remote, shallow, app), StoredChart(db, remote, app));
  }

  lemma RowIsOfApp(db: DB, remote: Remote, app: string)
    requires OwnRows(db, remote) && IsBytes(app)
    ensures IsChartOf(remote, app, StoredChart(db, remote, app))
  {
    if RowOf(remote, app) in db.charts {
      NameOfRow(db, remote, app);
    }
  }
}
