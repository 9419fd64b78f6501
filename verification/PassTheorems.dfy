/** What every run of a pass guarantees, whatever the interleaving. */
module PassTheorems {
  import opened Prelude
  import opened Catalogue
  import opened OciPull
  import opened SyncPass
  import P = PullPipeline
  import F = FileImporter

  // ------------------------------------------------------------- safety

  /** No goroutine ever sends on or closes a closed channel: the only panic is the
      missing chart of a job whose every pull fails. */
  lemma PanicMeansCrash(c: Config, run: seq<State>, i: nat)
    requires WellFormed(c) && Run(c, run) && i < |run|
    ensures Panicked(run[i]) ==> !P.NoCrash(c.work)
  {
    RunInv(c, run, i);
  }

  /** Removing the missing charts while workers insert files never takes a chart of this
      pass away from them. */
  lemma FilesAlwaysFindTheirChart(c: Config, run: seq<State>, i: nat)
    requires WellFormed(c) && KeepsNames(c) && Run(c, run) && i < |run|
    ensures !run[i].orphaned && Consistent(run[i].db)
  {
    RunInv(c, run, i);
  }

  /** The worker pool works in phases: no files job before every icon job, no older
      version before every latest version. */
  lemma PhasesAreRespected(c: Config, run: seq<State>, i: nat)
    requires WellFormed(c) && Run(c, run) && i < |run|
    ensures var m := run[i].importer;
      && F.HaveVersions(m.sent)
      && (m.filesTaken != [] ==> m.iconsTaken == m.sent == Accepted(c, run[i].pipe.seen))
      && (m.filesTaken != [] ==> m.filesTaken <= F.Latest(m.sent) + F.Historic(m.sent))
      && (|m.filesTaken| > |m.sent| ==> F.Latest(m.sent) <= m.filesTaken)
  {
    RunInv(c, run, i);
    var m := run[i].importer;
    F.LatestBeforeHistoric(m);
    if m.filesTaken != [] {
      F.IconsBeforeFiles(m);
      assert Accepted(c, run[i].pipe.seen) == m.sent + [];
    }
  }

  // ------------------------------------------------------------- the end of a pass

  lemma DrainedMeansAllSeen(w: P.Work, p: P.Pipeline)
    requires P.Inv(w, p) && p.out.Drained()
    ensures p.started == w.jobs && P.NoCrash(w)
    ensures p.jobs.closed && p.results.closed
    ensures forall r :: multiset(p.seen)[r] == P.Expected(w, w.jobs, r) + multiset(w.preloaded)[r]
  {
    assert p.started + [] + [] == p.started;
    forall r ensures multiset(p.seen)[r] == P.Expected(w, w.jobs, r) + multiset(w.preloaded)[r] {
      assert P.Copies(p, r) == multiset(p.seen)[r];
    }
  }

  /** A pass that completes has shown every job's result to the main loop exactly once
      and closed every channel. */
  lemma CompletedPassSawEveryResult(c: Config, run: seq<State>, i: nat)
    requires WellFormed(c) && Run(c, run) && i < |run| && Complete(run[i])
    ensures forall r ::
      multiset(run[i].pipe.seen)[r] == P.Expected(c.work, c.work.jobs, r) + multiset(c.work.preloaded)[r]
    ensures run[i].pipe.jobs.closed && run[i].pipe.results.closed && run[i].pipe.out.closed
    ensures run[i].importer.inputClosed && run[i].importer.icons.closed && run[i].importer.files.closed
  {
    RunInv(c, run, i);
    DrainedMeansAllSeen(c.work, run[i].pipe);
  }

  /** Every result that a job or the index can give has been shown to the main loop. */
  lemma PossibleIsSeen(c: Config, run: seq<State>, r: PullResult)
    requires WellFormed(c) && Run(c, run) && Complete(run[|run| - 1]) && Possible(c, r)
    ensures r in run[|run| - 1].pipe.seen
  {
    CompletedPassSawEveryResult(c, run, |run| - 1);
    if r !in c.work.preloaded {
      var j :| j in c.work.jobs && c.work.run(j) == Some(r);
      ExpectedOfJob(c.work, c.work.jobs, j, r);
    }
    assert multiset(run[|run| - 1].pipe.seen)[r] > 0;
  }

  lemma {:induction false} ExpectedOfJob(w: P.Work, jobs: seq<PullJob>, j: PullJob, r: PullResult)
    requires j in jobs && w.run(j) == Some(r)
    ensures P.Expected(w, jobs, r) > 0
  {
    if jobs[|jobs| - 1] != j {
      ExpectedOfJob(w, jobs[..|jobs| - 1], j, r);
    }
  }

  /** It has processed every icon and every files job of the accepted charts, each once. */
  lemma CompletedPassImportedEverything(c: Config, run: seq<State>, i: nat)
    requires WellFormed(c) && Run(c, run) && i < |run| && Complete(run[i])
    ensures var accepted := Accepted(c, run[i].pipe.seen);
      && F.HaveVersions(accepted)
      && run[i].importer.iconsDone == multiset(accepted)
      && run[i].importer.filesDone == multiset(F.Plan(accepted))
  {
    RunInv(c, run, i);
    AcceptedIsSent(c, run[i]);
    F.SignalledMeansDone(run[i].importer);
  }

  lemma AcceptedIsSent(c: Config, s: State)
    requires Linked(c, s) && !s.main.Handing?
    ensures Accepted(c, s.pipe.seen) == s.importer.sent
  {
    assert s.importer.sent + [] == s.importer.sent;
  }

  /** It leaves the rows that the accepted charts and then the deletions give. */
  lemma CompletedPassRows(c: Config, run: seq<State>, i: nat)
    requires WellFormed(c) && Run(c, run) && i < |run| && Complete(run[i])
    ensures var stored := RemoveMissing(StoreAll(c.db, c.repo, Accepted(c, run[i].pipe.seen)), c.repo, c.toDelete);
      run[i].db.charts == stored.charts && run[i].db.repos == stored.repos
    ensures Consistent(run[i].db)
  {
    RunInv(c, run, i);
  }

  /** A pass can only complete when no job crashes its worker. */
  lemma CompletionNeedsCharts(c: Config, run: seq<State>, i: nat)
    requires WellFormed(c) && Run(c, run) && i < |run| && Complete(run[i])
    ensures P.NoCrash(c.work)
  {
    RunInv(c, run, i);
    DrainedMeansAllSeen(c.work, run[i].pipe);
  }

  /** Of the charts written by a completed pass, exactly those survive whose name is not
      scheduled for deletion. */
  lemma WrittenChartSurvivesIff(c: Config, run: seq<State>, i: nat, id: string)
    requires WellFormed(c) && Run(c, run) && i < |run| && Complete(run[i])
    requires LastWith(Accepted(c, run[i].pipe.seen), id).Some?
    ensures var ch := LastWith(Accepted(c, run[i].pipe.seen), id).value;
      ChartKey(c.repo, id) in run[i].db.charts <==> ch.name !in c.toDelete
  {
    CompletedPassRows(c, run, i);
    StoredRow(c.db, c.repo, Accepted(c, run[i].pipe.seen), id);
  }

  /** A stored chart that this pass does not write, say because the filter now refuses it,
      stays as it is unless its name is scheduled for deletion. */
  lemma UnwrittenChartStaysUnlessDeleted(c: Config, run: seq<State>, i: nat, id: string)
    requires WellFormed(c) && Run(c, run) && i < |run| && Complete(run[i])
    requires LastWith(Accepted(c, run[i].pipe.seen), id).None? && ChartKey(c.repo, id) in c.db.charts
    ensures var k := ChartKey(c.repo, id);
      && (k in run[i].db.charts <==> c.db.charts[k].name !in c.toDelete)
      && (k in run[i].db.charts ==> run[i].db.charts[k] == c.db.charts[k])
  {
    CompletedPassRows(c, run, i);
    StoredRow(c.db, c.repo, Accepted(c, run[i].pipe.seen), id);
  }

  /** The row of an identifier after the charts are written and the names deleted. */
  lemma KeptRow(c: Config, charts: seq<Chart>, id: string)
    ensures var k := ChartKey(c.repo, id);
      var rows := RemoveMissing(StoreAll(c.db, c.repo, charts), c.repo, c.toDelete).charts;
      match LastWith(charts, id)
      case Some(ch) => (k in rows <==> ch.name !in c.toDelete) && (k in rows ==> rows[k] == ch)
      case None =>
        && (k in rows <==> k in c.db.charts && c.db.charts[k].name !in c.toDelete)
        && (k in rows ==> rows[k] == c.db.charts[k])
  {
    StoredRow(c.db, c.repo, charts, id);
  }

  /** A result with versions is stored whatever else went wrong with it, if the filter takes it
      and its name is not to be deleted. */
  lemma ResultWithVersionsIsStored(c: Config, run: seq<State>, r: PullResult)
    requires WellFormed(c) && Run(c, run) && Complete(run[|run| - 1])
    requires Possible(c, r) && r.chart.versions != [] && c.accepts(r.chart) && r.chart.name !in c.toDelete
    requires forall q :: Possible(c, q) && q.chart.id == r.chart.id ==> q.chart == r.chart
    ensures var after, k := run[|run| - 1].db, ChartKey(c.repo, r.chart.id);
      k in after.charts && after.charts[k] == r.chart
  {
    hide RemoveMissing, StoreAll, LastWith;
    var seen := run[|run| - 1].pipe.seen;
    PossibleIsSeen(c, run, r);
    SeenIsAccepted(c, seen, r);
    SeenIsPossible(c, run);
    CompletedPassRows(c, run, |run| - 1);
    KeptRow(c, Accepted(c, seen), r.chart.id);
  }

  lemma SeenIsPossible(c: Config, run: seq<State>)
    requires WellFormed(c) && Run(c, run)
    ensures forall r :: r in run[|run| - 1].pipe.seen ==> Possible(c, r)
  {
    RunInv(c, run, |run| - 1);
  }

  /** Where every result of an identifier is refused by the filter, or has errors and no version,
      the row stays as it was, up to the deletions. */
  lemma RefusedResultsChangeNothing(c: Config, run: seq<State>, id: string)
    requires WellFormed(c) && Run(c, run) && Complete(run[|run| - 1])
    requires forall r :: Possible(c, r) && r.chart.id == id ==>
      !c.accepts(r.chart) || (r.errors > 0 && r.chart.versions == [])
    ensures var after, k := run[|run| - 1].db, ChartKey(c.repo, id);
      && (k in after.charts <==> k in c.db.charts && c.db.charts[k].name !in c.toDelete)
      && (k in after.charts ==> after.charts[k] == c.db.charts[k])
  {
    hide RemoveMissing, StoreAll, LastWith;
    var seen := run[|run| - 1].pipe.seen;
    SeenIsPossible(c, run);
    CompletedPassRows(c, run, |run| - 1);
    KeptRow(c, Accepted(c, seen), id);
  }

  // ------------------------------------------------------------- progress

  lemma MainOrPullCanMove(c: Config, s: State) returns (l: Step)
    requires Inv(c, s) && !Panicked(s) && s.main == Ranging
    ensures Enabled(c, s, l)
  {
    if s.pipe.out.Drained() {
      l := LeaveLoop;
    } else {
      var p := P.CanMove(c.work, s.pipe);
      l := if p == P.Deliver then Receive else Pull(p);
    }
  }

  /** Until the pass completes or panics, some step is enabled: no deadlock. */
  lemma CanMove(c: Config, s: State) returns (l: Step)
    requires Inv(c, s) && !Panicked(s) && !Complete(s)
    ensures Enabled(c, s, l)
  {
    if s.main == Ranging {
      l := MainOrPullCanMove(c, s);
    } else if s.main == Removing {
      l := Remove;
    } else if s.main.Handing? && s.importer.fetcher == F.Receiving {
      l := Handoff;
    } else {
      var i := F.CanMove(s.importer);
      l := if i == F.Signal then Finish else Import(i, true);
    }
  }

  function MainRank(m: MainLoop): nat {
    match m
    case Handing(_) => 4
    case Ranging => 3
    case Removing => 2
    case AwaitingImports => 1
    case Finished => 0
  }

  predicate Decreases(s: State, t: State) {
    || P.Decreases(s.pipe, t.pipe)
    || (t.pipe == s.pipe &&
        (MainRank(t.main) < MainRank(s.main) || (t.main == s.main && F.Decreases(s.importer, t.importer))))
  }

  lemma StepDecreases(c: Config, s: State, l: Step)
    requires Enabled(c, s, l) && !Panicked(Next(c, s, l))
    ensures Decreases(s, Next(c, s, l))
  {
    match l
    case Pull(p) => P.StepDecreases(c.work, s.pipe, p);
    case Receive => P.StepDecreases(c.work, s.pipe, P.Deliver);
    case Import(i, _) => F.StepDecreases(s.importer, i);
    case _ =>
  }

  lemma MoveDecreases(c: Config, s: State, t: State)
    requires WellFormed(c) && P.NoCrash(c.work) && Inv(c, s) && Moves(c, s, t)
    ensures Inv(c, t) && Decreases(s, t)
  {
    var l :| Enabled(c, s, l) && t == Next(c, s, l);
    StepKeepsInv(c, s, l);
    StepDecreases(c, s, l);
  }

  /** A schedule takes a step whenever one is possible. */
  ghost predicate MovesOrIsStuck(c: Config, s: State, t: State) {
    Moves(c, s, t) || (t == s && forall l :: !Enabled(c, s, l))
  }

  ghost predicate Schedule(c: Config, f: nat -> State) {
    forall n: nat :: MovesOrIsStuck(c, f(n), f(n + 1))
  }

  lemma {:induction false} NoEndlessDescent(f: nat -> State)
    requires forall n: nat :: Decreases(f(n), f(n + 1))
    ensures false
    decreases |f(0).pipe.pending|, f(0).pipe.producing, |f(0).pipe.jobs.buf|, |f(0).pipe.busy|, P.Alive(f(0).pipe),
              f(0).pipe.closing, |f(0).pipe.results.buf|, P.HoldRank(f(0).pipe), |f(0).pipe.out.buf|,
              MainRank(f(0).main), F.FetcherRank(f(0).importer.fetcher), |f(0).importer.todo|,
              |f(0).importer.icons.buf|,
              |f(0).importer.iconBusy|, f(0).importer.iconIdle + |f(0).importer.iconBusy|,
              |f(0).importer.files.buf|, |f(0).importer.fileBusy|, f(0).importer.fileIdle
  {
    assert Decreases(f(0), f(0 + 1));
    var g := (n: nat) => f(n + 1);
    forall n: nat ensures Decreases(g(n), g(n + 1)) {
      assert Decreases(f(n + 1), f(n + 1 + 1));
    }
    NoEndlessDescent(g);
  }

  lemma {:induction false} ScheduleInv(c: Config, f: nat -> State, n: nat)
    requires WellFormed(c) && Inv(c, f(0)) && Schedule(c, f)
    ensures Inv(c, f(n))
  {
    if n > 0 {
      ScheduleInv(c, f, n - 1);
      assert MovesOrIsStuck(c, f(n - 1), f(n - 1 + 1));
      if Moves(c, f(n - 1), f(n)) {
        MoveKeepsInv(c, f(n - 1), f(n));
      }
    }
  }

  /** Every schedule completes the pass: no deadlock and no endless run. */
  lemma EveryScheduleCompletes(c: Config, f: nat -> State)
    requires WellFormed(c) && P.NoCrash(c.work) && f(0) == Start(c) && Schedule(c, f)
    ensures exists n: nat :: Complete(f(n))
  {
    StartInv(c);
    if forall n: nat :: !Complete(f(n)) {
      forall n: nat ensures Decreases(f(n), f(n + 1)) {
        ScheduleInv(c, f, n);
        var l := CanMove(c, f(n));
        assert MovesOrIsStuck(c, f(n), f(n + 1));
        MoveDecreases(c, f(n), f(n + 1));
      }
      NoEndlessDescent(f);
    }
  }
}
