/** One pass of the synchroniser: the pull pipeline, the main loop, the file importer and
    the database, with every interleaving of their steps. */
module SyncPass {
  import opened Prelude
  import opened Versions
  import opened Catalogue
  import opened OciPull
  import P = PullPipeline
  import F = FileImporter

  /** What a pass starts from. `indexed` tells an index repository from an OCI one;
      `accepts` is the filter rule; `toDelete` are the names that `Charts` returned. */
  datatype Config = Config(work: P.Work, indexed: bool, repo: RepoKey, accepts: Chart -> bool, toDelete: set<string>,
      db: DB)

  datatype MainLoop = Ranging | Handing(chart: Chart) | Removing | AwaitingImports | Finished

  /** `orphaned` records a files row that was inserted without its chart. */
  datatype State = State(pipe: P.Pipeline, main: MainLoop, importer: F.Importer, db: DB, orphaned: bool)

  datatype Step =
    | Pull(p: P.Step)
    | Import(i: F.ImportStep, fetched: bool)
    | Receive | Handoff | LeaveLoop | Remove | Finish

  function Start(c: Config): State {
    State(if c.indexed then P.StartIndex(c.work) else P.StartOci(c.work), Ranging, F.Start(), c.db, false)
  }

  predicate Panicked(s: State) {
    s.pipe.panicked || s.importer.panicked
  }

  predicate Complete(s: State) {
    s.main == Finished
  }

  /** A result without versions is skipped when it has errors; the others are filtered. */
  predicate Accepts(c: Config, r: PullResult) {
    (r.errors == 0 || r.chart.versions != []) && c.accepts(r.chart)
  }

  predicate Enabled(c: Config, s: State, l: Step) {
    !Panicked(s) &&
    match l
    case Pull(p) => p != P.Deliver && P.Enabled(c.work, s.pipe, p)
    case Import(i, _) => !i.Accept? && !i.CloseInput? && !i.Signal? && F.Enabled(s.importer, i)
    case Receive => s.main == Ranging && P.Enabled(c.work, s.pipe, P.Deliver)
    case Handoff => s.main.Handing? && F.Enabled(s.importer, F.Accept(s.main.chart))
    case LeaveLoop => s.main == Ranging && s.pipe.out.Drained()
    case Remove => s.main == Removing
    case Finish => s.main == AwaitingImports && F.Enabled(s.importer, F.Signal)
  }

  /** A worker that finishes a files job inserts the files unless they exist already or
      could not be fetched; None is the error of a chart that is not stored. */
  function StoreFiles(c: Config, db: DB, job: F.FilesJob, fetched: bool): Option<DB> {
    var chart := ChartKey(c.repo, job.chartId);
    if !fetched || FilesExist(db, chart, job.version.version, job.version.digest) then Some(db)
    else InsertFiles(db, chart, job.version.version, job.version.digest)
  }

  function AfterImport(c: Config, db: DB, i: F.ImportStep, fetched: bool): Option<DB> {
    if i.FinishFiles? then StoreFiles(c, db, i.job, fetched) else Some(db)
  }

  function Next(c: Config, s: State, l: Step): State
    requires Enabled(c, s, l)
  {
    match l
    case Pull(p) => s.(pipe := P.Next(c.work, s.pipe, p))
    case Import(i, fetched) =>
      var stored := AfterImport(c, s.db, i, fetched);
      State(s.pipe, s.main, F.Next(s.importer, i),
            if stored.Some? then stored.value else s.db,
            s.orphaned || stored.None?)
    case Receive =>
      var r := s.pipe.out.buf[0];
      State(P.Next(c.work, s.pipe, P.Deliver),
            if Accepts(c, r) then Handing(r.chart) else Ranging,
            s.importer,
            if Accepts(c, r) then UpsertChart(s.db, c.repo, r.chart) else s.db,
            s.orphaned)
    case Handoff => s.(main := Ranging, importer := F.Next(s.importer, F.Accept(s.main.chart)))
    case LeaveLoop => s.(main := Removing, importer := F.Next(s.importer, F.CloseInput))
    case Remove => s.(main := AwaitingImports, db := RemoveMissing(s.db, c.repo, c.toDelete))
    case Finish => s.(main := Finished, importer := F.Next(s.importer, F.Signal))
  }

  ghost predicate Moves(c: Config, s: State, t: State) {
    exists l :: Enabled(c, s, l) && t == Next(c, s, l)
  }

  /** A run is a sequence of states from the start, each one step after the other. */
  ghost predicate Run(c: Config, run: seq<State>) {
    run != [] && run[0] == Start(c) && forall i :: 0 <= i < |run| - 1 ==> Moves(c, run[i], run[i + 1])
  }

  /** A completed run and the database that it leaves. */
  ghost predicate CompletesWith(c: Config, run: seq<State>, after: DB) {
    Run(c, run) && Complete(run[|run| - 1]) && run[|run| - 1].db == after
  }

  // ------------------------------------------------------------- what a pass is given

  ghost predicate Possible(c: Config, r: PullResult) {
    r in c.work.preloaded || exists j :: j in c.work.jobs && c.work.run(j) == Some(r)
  }

  /** An index repository has no jobs and no producer to crash, an OCI one nothing but jobs, and a result without
      errors has a version. */
  ghost predicate WellFormed(c: Config) {
    && (if c.indexed then c.work.jobs == [] && !c.work.crashes else c.work.preloaded == [])
    && (forall r :: Possible(c, r) && r.errors == 0 ==> r.chart.versions != [])
    && Consistent(c.db)
  }

  /** No chart that the pass may write is scheduled for deletion. */
  ghost predicate KeepsNames(c: Config) {
    forall r :: Possible(c, r) && Accepts(c, r) ==> r.chart.name !in c.toDelete
  }

  // ------------------------------------------------------------- the invariant

  function Accepted(c: Config, seen: seq<PullResult>): (r: seq<Chart>)
    ensures forall ch :: ch in r ==> exists x :: x in seen && Accepts(c, x) && x.chart == ch
  {
    if seen == [] then []
    else
      var last := seen[|seen| - 1];
      Accepted(c, seen[..|seen| - 1]) + (if Accepts(c, last) then [last.chart] else [])
  }

  function StoreAll(db: DB, repo: RepoKey, charts: seq<Chart>): (r: DB)
    ensures Consistent(db) ==> Consistent(r)
    ensures OnlyRepoChanged(db, r, repo)
  {
    if charts == [] then db
    else UpsertChart(StoreAll(db, repo, charts[..|charts| - 1]), repo, charts[|charts| - 1])
  }

  predicate PastLoop(m: MainLoop) {
    m == Removing || PastRemoval(m)
  }

  predicate PastRemoval(m: MainLoop) {
    m == AwaitingImports || m == Finished
  }

  /** The chart rows that the main loop has produced so far. */
  function Rows(c: Config, s: State): DB {
    var stored := StoreAll(c.db, c.repo, Accepted(c, s.pipe.seen));
    if PastRemoval(s.main) then RemoveMissing(stored, c.repo, c.toDelete) else stored
  }

  ghost predicate Linked(c: Config, s: State) {
    && Accepted(c, s.pipe.seen) == s.importer.sent + (if s.main.Handing? then [s.main.chart] else [])
    && (s.main.Handing? ==> s.main.chart.versions != [])
    && s.importer.inputClosed == PastLoop(s.main)
    && (PastLoop(s.main) ==> s.pipe.out.Drained())
    && (s.main == Finished <==> s.importer.fetcher == F.Returned)
    && (forall r :: r in s.pipe.seen ==> Possible(c, r))
  }

  ghost predicate Stored(c: Config, s: State) {
    && s.db.charts == Rows(c, s).charts
    && s.db.repos == Rows(c, s).repos
    && Consistent(s.db)
    && (KeepsNames(c) ==> !s.orphaned)
  }

  ghost predicate Inv(c: Config, s: State) {
    P.Inv(c.work, s.pipe) && F.Inv(s.importer) && Linked(c, s) && Stored(c, s)
  }

  lemma StartInv(c: Config)
    requires WellFormed(c)
    ensures Inv(c, Start(c))
  {
    if c.indexed { P.IndexStartInv(c.work); } else { P.OciStartInv(c.work); }
    F.StartInv();
  }

  lemma {:induction false} ExpectedIsPossible(w: P.Work, jobs: seq<PullJob>, r: PullResult)
    requires P.Expected(w, jobs, r) > 0
    ensures exists j :: j in jobs && w.run(j) == Some(r)
  {
    var last := jobs[|jobs| - 1];
    if w.run(last) == Some(r) {
      assert last in jobs;
    } else {
      ExpectedIsPossible(w, jobs[..|jobs| - 1], r);
    }
  }

  lemma DeliveredIsPossible(c: Config, s: State)
    requires Inv(c, s) && s.pipe.out.buf != []
    ensures Possible(c, s.pipe.out.buf[0])
  {
    var r := s.pipe.out.buf[0];
    assert r in multiset(s.pipe.out.buf);
    assert P.Copies(s.pipe, r) > 0;
    if r !in c.work.preloaded {
      ExpectedIsPossible(c.work, s.pipe.started, r);
      var j :| j in s.pipe.started && c.work.run(j) == Some(r);
      assert j in c.work.jobs;
    }
  }

  lemma AcceptedSnoc(c: Config, seen: seq<PullResult>, r: PullResult)
    ensures Accepted(c, seen + [r]) == Accepted(c, seen) + (if Accepts(c, r) then [r.chart] else [])
  {
    assert (seen + [r])[..|seen|] == seen;
  }

  lemma {:induction false} SeenIsAccepted(c: Config, seen: seq<PullResult>, r: PullResult)
    requires r in seen && Accepts(c, r)
    ensures r.chart in Accepted(c, seen)
  {
    if seen[|seen| - 1] != r {
      SeenIsAccepted(c, seen[..|seen| - 1], r);
    }
  }

  lemma StoreAllSnoc(db: DB, repo: RepoKey, charts: seq<Chart>, chart: Chart)
    ensures StoreAll(db, repo, charts + [chart]) == UpsertChart(StoreAll(db, repo, charts), repo, chart)
  {
    assert (charts + [chart])[..|charts|] == charts;
  }

  function LastWith(charts: seq<Chart>, id: string): (r: Option<Chart>)
    ensures r.Some? ==> r.value in charts && r.value.id == id
    ensures r.None? ==> forall ch :: ch in charts ==> ch.id != id
  {
    if charts == [] then None
    else if charts[|charts| - 1].id == id then Some(charts[|charts| - 1])
    else LastWith(charts[..|charts| - 1], id)
  }

  /** The row of an identifier holds the last chart written there, if any was. */
  lemma {:induction false} StoredRow(db: DB, repo: RepoKey, charts: seq<Chart>, id: string)
    ensures var k, rows := ChartKey(repo, id), StoreAll(db, repo, charts).charts;
      match LastWith(charts, id)
      case Some(ch) => k in rows && rows[k] == ch
      case None => (k in rows <==> k in db.charts) && (k in rows ==> rows[k] == db.charts[k])
  {
    if charts != [] {
      StoredRow(db, repo, charts[..|charts| - 1], id);
    }
  }

  lemma {:induction false} JobsOfOne(id: string, versions: seq<ChartVersion>, j: F.FilesJob)
    requires j in F.JobsOf(id, versions)
    ensures j.chartId == id
  {
    if j != F.FilesJob(id, versions[0]) {
      JobsOfOne(id, versions[1..], j);
    }
  }

  lemma {:induction false} PlannedFor(charts: seq<Chart>, j: F.FilesJob)
    requires F.HaveVersions(charts) && j in F.Plan(charts)
    ensures exists ch :: ch in charts && ch.id == j.chartId
  {
    if charts != [] {
      var c := charts[0];
      assert c in charts;
      if j in F.Latest(charts[1..]) || j in F.Historic(charts[1..]) {
        PlannedFor(charts[1..], j);
      } else if j != F.FilesJob(c.id, c.versions[0]) {
        JobsOfOne(c.id, c.versions[1..], j);
      }
    }
  }

  lemma ChartOfJob(c: Config, s: State, j: F.FilesJob) returns (ch: Chart)
    requires Inv(c, s) && j in s.importer.fileBusy
    ensures ch in Accepted(c, s.pipe.seen) && ch.id == j.chartId
  {
    var m := s.importer;
    assert multiset(m.filesTaken)[j] > 0;
    assert j in m.filesTaken;
    assert j in F.Plan(m.received);
    PlannedFor(m.received, j);
    ch :| ch in m.received && ch.id == j.chartId;
  }

  /** A worker that finishes a files job finds the row of its chart unless the main loop has
      already removed that row, which it does just when its name is scheduled for deletion. */
  lemma ParentIsStoredIff(c: Config, s: State, j: F.FilesJob)
    requires Inv(c, s) && j in s.importer.fileBusy
    ensures var row := LastWith(Accepted(c, s.pipe.seen), j.chartId);
      row.Some? && (ChartKey(c.repo, j.chartId) in s.db.charts
        <==> !(PastRemoval(s.main) && row.value.name in c.toDelete))
  {
    var ch := ChartOfJob(c, s, j);
    StoredRow(c.db, c.repo, Accepted(c, s.pipe.seen), j.chartId);
  }

  lemma ParentIsStored(c: Config, s: State, j: F.FilesJob)
    requires Inv(c, s) && KeepsNames(c) && j in s.importer.fileBusy
    ensures ChartKey(c.repo, j.chartId) in s.db.charts
  {
    ParentIsStoredIff(c, s, j);
    var row := LastWith(Accepted(c, s.pipe.seen), j.chartId).value;
    var r :| r in s.pipe.seen && Accepts(c, r) && r.chart == row;
    assert Possible(c, r);
  }

  lemma PullKeepsInv(c: Config, s: State, p: P.Step)
    requires WellFormed(c) && Inv(c, s) && Enabled(c, s, Pull(p))
    ensures Inv(c, Next(c, s, Pull(p)))
  {
    P.StepKeepsInv(c.work, s.pipe, p);
    PullKeepsRest(c, s, p);
  }

  lemma PullKeepsRest(c: Config, s: State, p: P.Step)
    requires Linked(c, s) && Stored(c, s) && Enabled(c, s, Pull(p)) && P.Orderly(c.work, s.pipe)
    ensures Linked(c, Next(c, s, Pull(p))) && Stored(c, Next(c, s, Pull(p)))
  {
    var q := P.Next(c.work, s.pipe, p);
    assert q.seen == s.pipe.seen;
    assert s.pipe.out.Drained() ==> q.out.Drained();
  }

  lemma ImportKeepsLinked(c: Config, s: State, i: F.ImportStep, fetched: bool)
    requires Linked(c, s) && Enabled(c, s, Import(i, fetched))
    ensures Linked(c, Next(c, s, Import(i, fetched)))
  {
    var m := F.Next(s.importer, i);
    assert m.sent == s.importer.sent && m.inputClosed == s.importer.inputClosed;
    assert m.fetcher == F.Returned <==> s.importer.fetcher == F.Returned;
  }

  lemma AfterImportKeeps(c: Config, db: DB, i: F.ImportStep, fetched: bool)
    requires Consistent(db)
    ensures var r := AfterImport(c, db, i, fetched);
      && (r.Some? ==> r.value.charts == db.charts && r.value.repos == db.repos && Consistent(r.value))
      && ((i.FinishFiles? ==> ChartKey(c.repo, i.job.chartId) in db.charts) ==> r.Some?)
  {
  }

  lemma ImportKeepsStored(c: Config, s: State, i: F.ImportStep, fetched: bool)
    requires Inv(c, s) && Enabled(c, s, Import(i, fetched))
    ensures Stored(c, Next(c, s, Import(i, fetched)))
  {
    var t := Next(c, s, Import(i, fetched));
    assert t.pipe == s.pipe && t.main == s.main;
    assert Rows(c, t) == Rows(c, s);
    AfterImportKeeps(c, s.db, i, fetched);
    if i.FinishFiles? && KeepsNames(c) {
      ParentIsStored(c, s, i.job);
    }
  }

  lemma ImportKeepsInv(c: Config, s: State, i: F.ImportStep, fetched: bool)
    requires WellFormed(c) && Inv(c, s) && Enabled(c, s, Import(i, fetched))
    ensures Inv(c, Next(c, s, Import(i, fetched)))
  {
    var t := Next(c, s, Import(i, fetched));
    assert t.pipe == s.pipe && t.importer == F.Next(s.importer, i);
    assert F.Inv(t.importer) by { F.StepKeepsInv(s.importer, i); }
    ImportKeepsLinked(c, s, i, fetched);
    ImportKeepsStored(c, s, i, fetched);
  }

  lemma ReceiveKeepsLinked(c: Config, s: State)
    requires WellFormed(c) && Linked(c, s) && Enabled(c, s, Receive)
    requires Possible(c, s.pipe.out.buf[0])
    ensures Linked(c, Next(c, s, Receive))
  {
    var r := s.pipe.out.buf[0];
    var t := Next(c, s, Receive);
    assert t.pipe.seen == s.pipe.seen + [r] && t.importer == s.importer;
    assert !PastLoop(t.main);
    assert s.importer.sent == Accepted(c, s.pipe.seen);
    ReceivedIsSent(c, s.pipe.seen, r);
    SeenArePossible(c, s.pipe.seen, r);
  }

  lemma ReceivedIsSent(c: Config, seen: seq<PullResult>, r: PullResult)
    requires WellFormed(c) && Possible(c, r)
    ensures Accepted(c, seen + [r]) == Accepted(c, seen) + (if Accepts(c, r) then [r.chart] else [])
    ensures Accepts(c, r) ==> r.chart.versions != []
  {
    AcceptedSnoc(c, seen, r);
  }

  lemma SeenArePossible(c: Config, seen: seq<PullResult>, r: PullResult)
    requires (forall x :: x in seen ==> Possible(c, x)) && Possible(c, r)
    ensures forall x :: x in seen + [r] ==> Possible(c, x)
  {
  }

  lemma StoreReceived(c: Config, seen: seq<PullResult>, r: PullResult)
    ensures StoreAll(c.db, c.repo, Accepted(c, seen + [r]))
         == (var before := StoreAll(c.db, c.repo, Accepted(c, seen));
             if Accepts(c, r) then UpsertChart(before, c.repo, r.chart) else before)
  {
    AcceptedSnoc(c, seen, r);
    if Accepts(c, r) {
      StoreAllSnoc(c.db, c.repo, Accepted(c, seen), r.chart);
    } else {
      assert Accepted(c, seen) + [] == Accepted(c, seen);
    }
  }

  lemma ReceivedRows(c: Config, db: DB, seen: seq<PullResult>, r: PullResult)
    requires db.charts == StoreAll(c.db, c.repo, Accepted(c, seen)).charts
    requires db.repos == StoreAll(c.db, c.repo, Accepted(c, seen)).repos
    requires Consistent(db)
    ensures var db' := if Accepts(c, r) then UpsertChart(db, c.repo, r.chart) else db;
      && db'.charts == StoreAll(c.db, c.repo, Accepted(c, seen + [r])).charts
      && db'.repos == StoreAll(c.db, c.repo, Accepted(c, seen + [r])).repos
      && Consistent(db')
  {
    StoreReceived(c, seen, r);
    if Accepts(c, r) {
      SameUpsert(db, StoreAll(c.db, c.repo, Accepted(c, seen)), c.repo, r.chart);
    }
  }

  lemma SameUpsert(db: DB, like: DB, repo: RepoKey, chart: Chart)
    requires db.charts == like.charts && db.repos == like.repos && Consistent(db)
    ensures var d, e := UpsertChart(db, repo, chart), UpsertChart(like, repo, chart);
      d.charts == e.charts && d.repos == e.repos && Consistent(d)
  {
  }

  lemma ReceiveKeepsStored(c: Config, s: State)
    requires Stored(c, s) && Enabled(c, s, Receive)
    ensures Stored(c, Next(c, s, Receive))
  {
    var r := s.pipe.out.buf[0];
    var t := Next(c, s, Receive);
    assert t.pipe.seen == s.pipe.seen + [r] && !PastRemoval(t.main);
    assert Rows(c, s) == StoreAll(c.db, c.repo, Accepted(c, s.pipe.seen));
    assert Rows(c, t) == StoreAll(c.db, c.repo, Accepted(c, s.pipe.seen + [r]));
    ReceivedRows(c, s.db, s.pipe.seen, r);
    assert t.db == if Accepts(c, r) then UpsertChart(s.db, c.repo, r.chart) else s.db;
  }

  lemma ReceiveKeepsInv(c: Config, s: State)
    requires WellFormed(c) && Inv(c, s) && Enabled(c, s, Receive)
    ensures Inv(c, Next(c, s, Receive))
  {
    P.StepKeepsInv(c.work, s.pipe, P.Deliver);
    DeliveredIsPossible(c, s);
    ReceiveKeepsLinked(c, s);
    ReceiveKeepsStored(c, s);
  }

  lemma MainKeepsLinked(c: Config, s: State, l: Step)
    requires Linked(c, s) && Enabled(c, s, l)
    requires l == Handoff || l == LeaveLoop || l == Remove || l == Finish
    ensures Linked(c, Next(c, s, l))
  {
  }

  lemma MainKeepsStored(c: Config, s: State, l: Step)
    requires Stored(c, s) && Enabled(c, s, l)
    requires l == Handoff || l == LeaveLoop || l == Remove || l == Finish
    ensures Stored(c, Next(c, s, l))
  {
    if l == Remove {
      var stored := Rows(c, s);
      assert RemoveMissing(s.db, c.repo, c.toDelete).charts == RemoveMissing(stored, c.repo, c.toDelete).charts;
    }
  }

  lemma MainKeepsInv(c: Config, s: State, l: Step)
    requires WellFormed(c) && Inv(c, s) && Enabled(c, s, l)
    requires l == Handoff || l == LeaveLoop || l == Remove || l == Finish
    ensures Inv(c, Next(c, s, l))
  {
    MainKeepsLinked(c, s, l);
    MainKeepsStored(c, s, l);
    if l == Handoff {
      F.StepKeepsInv(s.importer, F.Accept(s.main.chart));
    } else if l == LeaveLoop {
      F.StepKeepsInv(s.importer, F.CloseInput);
    } else if l == Finish {
      F.StepKeepsInv(s.importer, F.Signal);
    }
  }

  /** Every step of every goroutine keeps the invariant. */
  lemma StepKeepsInv(c: Config, s: State, l: Step)
    requires WellFormed(c) && Inv(c, s) && Enabled(c, s, l)
    ensures Inv(c, Next(c, s, l))
  {
    match l
    case Pull(p) => PullKeepsInv(c, s, p);
    case Import(i, fetched) => ImportKeepsInv(c, s, i, fetched);
    case Receive => ReceiveKeepsInv(c, s);
    case _ => MainKeepsInv(c, s, l);
  }

  lemma MoveKeepsInv(c: Config, s: State, t: State)
    requires WellFormed(c) && Inv(c, s) && Moves(c, s, t)
    ensures Inv(c, t)
  {
    var l :| Enabled(c, s, l) && t == Next(c, s, l);
    StepKeepsInv(c, s, l);
  }

  /** The invariant holds in every state of every run. */
  lemma {:induction false} RunInv(c: Config, run: seq<State>, i: nat)
    requires WellFormed(c) && Run(c, run) && i < |run|
    ensures Inv(c, run[i])
  {
    if i == 0 {
      StartInv(c);
    } else {
      RunInv(c, run, i - 1);
      assert Moves(c, run[i - 1], run[i - 1 + 1]);
      MoveKeepsInv(c, run[i - 1], run[i]);
    }
  }
}
