/** The synchronisation of a steady OCI repository, pass after pass and run after run: what is
    missing comes in, newest first, and dropped applications go. */
module OciSync {
  import opened Prelude
  import opened Versions
  import opened ChartNames
  import opened Catalogue
  import opened OciPull
  import opened MissingVersions
  import opened OciRegistry
  import opened OciConvergence
  import opened OciPasses
  import opened SyncPass
  import opened PassTheorems

  // ------------------------------------------------------------- what a pass accepts

  ghost predicate SteadyPass(remote: Remote, db: DB, shallow: bool, queue: Queue) {
    Steady(remote) && OwnRows(db, remote) && Queued(remote, db, shallow, queue)
  }

  ghost predicate CompletedPass(remote: Remote, db: DB, shallow: bool, queue: Queue, run: seq<State>) {
    && SteadyPass(remote, db, shallow, queue)
    && Run(PassConfig(remote, db, queue), run) && Complete(run[|run| - 1])
  }

  /** The next chart of an application of which versions are missing. */
  ghost predicate IsNextChart(remote: Remote, db: DB, shallow: bool, app: string, ch: Chart) {
    && app in remote.apps && SteadyApp(remote, app) && Missing(db, remote, app) != []
    && IsGrown(remote, app, StoredChart(db, remote, app), Added(db, remote, shallow, app), PullResult(ch, 0))
  }

  lemma PassFacts(remote: Remote, db: DB, shallow: bool, queue: Queue)
    requires SteadyPass(remote, db, shallow, queue)
    ensures WellFormed(PassConfig(remote, db, queue))
  {
    PassIsWellFormed(remote, db, shallow, queue, PassConfig(remote, db, queue).accepts);
  }

  lemma PossibleIsNext(remote: Remote, db: DB, shallow: bool, queue: Queue, r: PullResult)
    requires SteadyPass(remote, db, shallow, queue) && Possible(PassConfig(remote, db, queue), r)
    ensures IsNextChart(remote, db, shallow, r.chart.name, r.chart)
  {
    var c := PassConfig(remote, db, queue);
    var j :| j in c.work.jobs && c.work.run(j) == Some(r);
    JobsOfPass(remote, db, shallow, queue);
    ResultOfJob(remote, db, shallow, j);
  }

  /** What a completed pass has accepted: for every application of which versions are missing,
      its next chart, and nothing else. */
  ghost predicate AcceptsMissing(remote: Remote, db: DB, shallow: bool, accepted: seq<Chart>)
    requires Steady(remote)
  {
    && (forall ch :: ch in accepted ==> IsNextChart(remote, db, shallow, ch.name, ch))
    && (forall app :: app in remote.apps ==> IsServed(remote, db, accepted, app))
  }

  ghost predicate IsServed(remote: Remote, db: DB, accepted: seq<Chart>, app: string) {
    SteadyApp(remote, app) && Missing(db, remote, app) != [] ==>
      LastWith(accepted, ChartId(remote.repo.name, app)).Some?
  }

  lemma AcceptedIsNext(remote: Remote, db: DB, shallow: bool, queue: Queue, run: seq<State>, ch: Chart)
    requires CompletedPass(remote, db, shallow, queue, run)
    requires ch in Accepted(PassConfig(remote, db, queue), run[|run| - 1].pipe.seen)
    ensures IsNextChart(remote, db, shallow, ch.name, ch)
  {
    var c := PassConfig(remote, db, queue);
    PassFacts(remote, db, shallow, queue);
    RunInv(c, run, |run| - 1);
    var r :| r in run[|run| - 1].pipe.seen && Accepts(c, r) && r.chart == ch;
    PossibleIsNext(remote, db, shallow, queue, r);
  }

  lemma MissingIsServed(remote: Remote, db: DB, shallow: bool, queue: Queue, run: seq<State>, app: string)
    requires CompletedPass(remote, db, shallow, queue, run) && app in remote.apps
    ensures IsServed(remote, db, Accepted(PassConfig(remote, db, queue), run[|run| - 1].pipe.seen), app)
  {
    assert SteadyApp(remote, app);
    if Missing(db, remote, app) != [] {
      var c, j := PassConfig(remote, db, queue), JobOf(db, remote, shallow, app);
      PassFacts(remote, db, shallow, queue);
      JobsOfPass(remote, db, shallow, queue);
      ResultOfJob(remote, db, shallow, j);
      var r := c.work.run(j).value;
      PossibleIsSeen(c, run, r);
      SeenIsAccepted(c, run[|run| - 1].pipe.seen, r);
    }
  }

  lemma PassAccepts(remote: Remote, db: DB, shallow: bool, queue: Queue, run: seq<State>)
    requires CompletedPass(remote, db, shallow, queue, run)
    ensures AcceptsMissing(remote, db, shallow, Accepted(PassConfig(remote, db, queue), run[|run| - 1].pipe.seen))
  {
    var accepted := Accepted(PassConfig(remote, db, queue), run[|run| - 1].pipe.seen);
    forall ch | ch in accepted ensures IsNextChart(remote, db, shallow, ch.name, ch) {
      AcceptedIsNext(remote, db, shallow, queue, run, ch);
    }
    forall app | app in remote.apps ensures IsServed(remote, db, accepted, app) {
      MissingIsServed(remote, db, shallow, queue, run, app);
    }
  }

  // ------------------------------------------------------------- what a pass leaves

  ghost predicate AppGrows(remote: Remote, db: DB, after: DB, app: string, k: nat)
    requires SteadyApp(remote, app)
  {
    Gained(StoredVersions(db, remote, app), Missing(db, remote, app),
           StoredVersions(after, remote, app), Missing(after, remote, app), k)
  }

  /** Every application has grown, and rows are still identified by their names. */
  ghost predicate Grows(remote: Remote, db: DB, after: DB, k: nat)
    requires Steady(remote)
  {
    OwnRows(after, remote) && forall app :: app in remote.apps ==> AppGrows(remote, db, after, app, k)
  }

  lemma WrittenApp(remote: Remote, db: DB, after: DB, shallow: bool, app: string, ch: Chart)
    requires IsNextChart(remote, db, shallow, app, ch) && StoredChart(after, remote, app) == Some(ch)
    ensures AppGrows(remote, db, after, app, Limit(shallow))
  {
    var missing := Missing(db, remote, app);
    TagsFacts(remote, app);
    DescendingVersions(ch.versions);
    MissingShrinks(Tags(remote, app), StoredVersions(db, remote, app), StoredVersions(after, remote, app),
      Min(Limit(shallow), |missing|));
  }

  /** The rows that a pass leaves of what it writes. */
  ghost predicate RowsLeft(remote: Remote, db: DB, accepted: seq<Chart>, after: DB) {
    after.charts == RemoveMissing(StoreAll(db, remote.repo, accepted), remote.repo, ToDelete(db, remote)).charts
  }

  lemma AppAfterPass(remote: Remote, db: DB, shallow: bool, accepted: seq<Chart>, after: DB, app: string)
    requires Steady(remote) && OwnRows(db, remote) && AcceptsMissing(remote, db, shallow, accepted)
    requires RowsLeft(remote, db, accepted, after) && app in remote.apps
    ensures AppGrows(remote, db, after, app, Limit(shallow))
  {
    var id := ChartId(remote.repo.name, app);
    assert SteadyApp(remote, app) && IsServed(remote, db, accepted, app);
    StoredRow(db, remote.repo, accepted, id);
    var last := LastWith(accepted, id);
    if last.Some? {
      assert IsNextChart(remote, db, shallow, last.value.name, last.value);
      if last.value.name != app {
        ChartIdInjective(remote.repo.name, last.value.name, app);
      }
      WrittenApp(remote, db, after, shallow, app, last.value);
    } else {
      RowIsOfApp(db, remote, app);
      assert StoredChart(after, remote, app) == StoredChart(db, remote, app);
      NothingGained(StoredVersions(db, remote, app), Limit(shallow));
    }
  }

  lemma RowsAfterPass(remote: Remote, db: DB, shallow: bool, accepted: seq<Chart>, after: DB)
    requires Steady(remote) && OwnRows(db, remote) && AcceptsMissing(remote, db, shallow, accepted)
    requires RowsLeft(remote, db, accepted, after)
    ensures forall k :: k in after.charts && k.repo == remote.repo ==>
      OwnRow(after, remote, k) && after.charts[k].name in remote.apps
  {
    forall k | k in after.charts && k.repo == remote.repo
      ensures OwnRow(after, remote, k) && after.charts[k].name in remote.apps
    {
      StoredRow(db, remote.repo, accepted, k.id);
      var last := LastWith(accepted, k.id);
      if last.Some? {
        assert IsNextChart(remote, db, shallow, last.value.name, last.value);
      } else {
        assert OwnRow(db, remote, k);
      }
    }
  }

  lemma PassWrites(remote: Remote, shallow: bool, db: DB, after: DB) returns (accepted: seq<Chart>)
    requires Steady(remote) && OwnRows(db, remote) && OciPass(remote, shallow, db, after)
    ensures AcceptsMissing(remote, db, shallow, accepted) && RowsLeft(remote, db, accepted, after)
    ensures Consistent(after) && after.repos == StoreAll(db, remote.repo, accepted).repos
  {
    var queue: Queue, run: seq<State> :|
      Queued(remote, db, shallow, queue) && CompletesWith(PassConfig(remote, db, queue), run, after);
    var c := PassConfig(remote, db, queue);
    PassFacts(remote, db, shallow, queue);
    PassAccepts(remote, db, shallow, queue, run);
    CompletedPassRows(c, run, |run| - 1);
    accepted := Accepted(c, run[|run| - 1].pipe.seen);
  }

  /** A complete pass brings every application the newest of its missing versions, one when it
      is shallow and at most five when not, whatever versions were stored before; charts of
      dropped applications go, and the checksum stays. */
  lemma PassAddsMissing(remote: Remote, shallow: bool, db: DB, after: DB)
    requires Steady(remote) && OwnRows(db, remote) && OciPass(remote, shallow, db, after)
    ensures Grows(remote, db, after, Limit(shallow))
    ensures NamesIn(after, remote.repo) <= (set a | a in remote.apps)
    ensures LastChecksum(after, remote.repo) == LastChecksum(db, remote.repo)
  {
    hide AcceptsMissing, RowsLeft, Grows, OciPass;
    var accepted := PassWrites(remote, shallow, db, after);
    AppsAfterPass(remote, db, shallow, accepted, after);
    RowsAfterPass(remote, db, shallow, accepted, after);
    StoreAllKeepsChecksum(db, remote.repo, accepted);
  }

  lemma AppsAfterPass(remote: Remote, db: DB, shallow: bool, accepted: seq<Chart>, after: DB)
    requires Steady(remote) && OwnRows(db, remote) && AcceptsMissing(remote, db, shallow, accepted)
    requires RowsLeft(remote, db, accepted, after) && Consistent(after)
    ensures Grows(remote, db, after, Limit(shallow))
  {
    hide AcceptsMissing, RowsLeft, AppGrows;
    RowsAfterPass(remote, db, shallow, accepted, after);
    forall app | app in remote.apps ensures SteadyApp(remote, app) && AppGrows(remote, db, after, app, Limit(shallow)) {
      AppAfterPass(remote, db, shallow, accepted, after, app);
    }
  }

  lemma {:induction false} StoreAllKeepsChecksum(db: DB, repo: RepoKey, charts: seq<Chart>)
    ensures LastChecksum(StoreAll(db, repo, charts), repo) == LastChecksum(db, repo)
  {
    if charts != [] {
      StoreAllKeepsChecksum(db, repo, charts[..|charts| - 1]);
    }
  }

  lemma AppGrowsOn(remote: Remote, db: DB, mid: DB, after: DB, app: string, k: nat, l: nat, to: nat)
    requires SteadyApp(remote, app) && to == k + l
    requires AppGrows(remote, db, mid, app, k) && AppGrows(remote, mid, after, app, l)
    ensures AppGrows(remote, db, after, app, to)
  {
    hide Gained, Missing, StoredVersions;
    GainedTwice(StoredVersions(db, remote, app), Missing(db, remote, app), StoredVersions(mid, remote, app),
      Missing(mid, remote, app), StoredVersions(after, remote, app), Missing(after, remote, app), k, l, to);
  }

  lemma GrowsOn(remote: Remote, db: DB, mid: DB, after: DB, k: nat, l: nat, to: nat)
    requires Steady(remote) && Grows(remote, db, mid, k) && Grows(remote, mid, after, l) && to == k + l
    ensures Grows(remote, db, after, to)
  {
    forall app | app in remote.apps ensures AppGrows(remote, db, after, app, to) {
      GrownApp(remote, db, mid, k, app);
      GrownApp(remote, mid, after, l, app);
      AppGrowsOn(remote, db, mid, after, app, k, l, to);
    }
  }

  // ------------------------------------------------------------- whole runs

  /** `Sync`: nothing when the checksum is the stored one; otherwise a full pass, after a
      shallow one when the repository was never processed. */
  ghost predicate SyncRun(remote: Remote, checksum: string, db: DB, after: DB) {
    if LastChecksum(db, remote.repo) == checksum then after == db
    else
      exists last ::
        && (if LastChecksum(db, remote.repo) == "" then
              exists first :: OciPass(remote, true, db, first) && OciPass(remote, false, first, last)
            else OciPass(remote, false, db, last))
        && after == UpdateLastCheck(last, remote.repo, checksum)
  }

  lemma UpdateKeepsGrowth(remote: Remote, db: DB, last: DB, checksum: string, k: nat)
    requires Steady(remote) && Grows(remote, db, last, k)
    ensures Grows(remote, db, UpdateLastCheck(last, remote.repo, checksum), k)
  {
    var after := UpdateLastCheck(last, remote.repo, checksum);
    forall n | n in after.charts && n.repo == remote.repo ensures OwnRow(after, remote, n) {
      assert OwnRow(last, remote, n);
    }
    forall app | app in remote.apps ensures AppGrows(remote, db, after, app, k) {
      assert SteadyApp(remote, app) && AppGrows(remote, db, last, app, k);
      assert StoredVersions(after, remote, app) == StoredVersions(last, remote, app);
    }
  }

  /** How many versions of an application a run brings at most. */
  function PerRun(checksum: string): nat {
    if checksum == "" then 6 else 5
  }

  lemma RunAddsMissing(remote: Remote, checksum: string, db: DB, after: DB)
    requires Steady(remote) && OwnRows(db, remote) && SyncRun(remote, checksum, db, after)
    requires checksum != LastChecksum(db, remote.repo)
    ensures Grows(remote, db, after, PerRun(LastChecksum(db, remote.repo)))
    ensures LastChecksum(after, remote.repo) == checksum
  {
    hide Grows, OciPass;
    if LastChecksum(db, remote.repo) == "" {
      var last, first :| OciPass(remote, true, db, first) && OciPass(remote, false, first, last)
                         && after == UpdateLastCheck(last, remote.repo, checksum);
      PassAddsMissing(remote, true, db, first);
      GrownRows(remote, db, first, Limit(true));
      PassAddsMissing(remote, false, first, last);
      GrowsOn(remote, db, first, last, 1, 5, 6);
      UpdateKeepsGrowth(remote, db, last, checksum, 6);
    } else {
      var last :| OciPass(remote, false, db, last) && after == UpdateLastCheck(last, remote.repo, checksum);
      PassAddsMissing(remote, false, db, last);
      UpdateKeepsGrowth(remote, db, last, checksum, 5);
    }
  }

  /** A run with the checksum that the last one stored changes nothing. */
  lemma RepeatedRunIsSkipped(remote: Remote, checksum: string, db: DB, after: DB, again: DB)
    requires Steady(remote) && OwnRows(db, remote) && checksum != LastChecksum(db, remote.repo)
    requires SyncRun(remote, checksum, db, after) && SyncRun(remote, checksum, after, again)
    ensures again == after
  {
    RunAddsMissing(remote, checksum, db, after);
  }

  lemma GrownApp(remote: Remote, db: DB, after: DB, k: nat, app: string)
    requires Steady(remote) && Grows(remote, db, after, k) && app in remote.apps
    ensures SteadyApp(remote, app) && AppGrows(remote, db, after, app, k)
  {
  }

  lemma GrownRows(remote: Remote, db: DB, after: DB, k: nat)
    requires Steady(remote) && Grows(remote, db, after, k)
    ensures OwnRows(after, remote)
  {
  }

  /** One run after the other, each with a checksum of its own. */
  ghost predicate SyncRuns(remote: Remote, sums: seq<string>, dbs: seq<DB>) {
    |dbs| == |sums| + 1 && forall i :: 0 <= i < |sums| ==> IsFreshRun(remote, sums, dbs, i)
  }

  ghost predicate IsFreshRun(remote: Remote, sums: seq<string>, dbs: seq<DB>, i: nat)
    requires i < |sums| && |dbs| == |sums| + 1
  {
    && sums[i] != "" && sums[i] != LastChecksum(dbs[i], remote.repo)
    && SyncRun(remote, sums[i], dbs[i], dbs[i + 1])
  }

  /** Five versions a run, and one more in a first run. */
  function Brought(checksum: string, n: nat): nat {
    if n == 0 then 0 else 5 * n + if checksum == "" then 1 else 0
  }

  lemma NothingGrows(remote: Remote, db: DB)
    requires Steady(remote) && OwnRows(db, remote)
    ensures Grows(remote, db, db, 0)
  {
    forall app | app in remote.apps ensures AppGrows(remote, db, db, app, 0) {
      assert SteadyApp(remote, app);
    }
  }

  lemma FreshRun(remote: Remote, sums: seq<string>, dbs: seq<DB>, before: nat, n: nat)
    requires SyncRuns(remote, sums, dbs) && n == before + 1 <= |sums|
    ensures sums[before] != "" && sums[before] != LastChecksum(dbs[before], remote.repo)
    ensures SyncRun(remote, sums[before], dbs[before], dbs[n])
  {
    assert IsFreshRun(remote, sums, dbs, before);
    assert dbs[n] == dbs[before + 1];
  }

  /** After n complete runs, whatever was stored before: each application has got the newest
      5n of its missing versions, one more if the first run was the repository's first, and
      the others are still missing. */
  lemma {:induction false} RunsAddMissing(remote: Remote, sums: seq<string>, dbs: seq<DB>, n: nat)
    requires Steady(remote) && SyncRuns(remote, sums, dbs) && OwnRows(dbs[0], remote) && n <= |sums|
    ensures Grows(remote, dbs[0], dbs[n], Brought(LastChecksum(dbs[0], remote.repo), n))
    ensures n > 0 ==> LastChecksum(dbs[n], remote.repo) != ""
  {
    hide SyncRun, Grows;
    if n == 0 {
      NothingGrows(remote, dbs[0]);
    } else {
      RunsAddMissing(remote, sums, dbs, n - 1);
      var k := Brought(LastChecksum(dbs[0], remote.repo), n - 1);
      GrownRows(remote, dbs[0], dbs[n - 1], k);
      FreshRun(remote, sums, dbs, n - 1, n);
      RunAddsMissing(remote, sums[n - 1], dbs[n - 1], dbs[n]);
      GrowsOn(remote, dbs[0], dbs[n - 1], dbs[n], k, PerRun(LastChecksum(dbs[n - 1], remote.repo)),
        Brought(LastChecksum(dbs[0], remote.repo), n));
    }
  }

  /** All versions of an application are stored just when the runs have been enough for those
      that were missing. */
  lemma AllStoredIff(remote: Remote, sums: seq<string>, dbs: seq<DB>, n: nat, app: string)
    requires Steady(remote) && SyncRuns(remote, sums, dbs) && OwnRows(dbs[0], remote) && n <= |sums|
    requires app in remote.apps
    ensures SteadyApp(remote, app)
    ensures (forall v :: v in Tags(remote, app) ==> v in StoredVersions(dbs[n], remote, app))
      <==> |Missing(dbs[0], remote, app)| <= Brought(LastChecksum(dbs[0], remote.repo), n)
  {
    RunsAddMissing(remote, sums, dbs, n);
    GrownApp(remote, dbs[0], dbs[n], Brought(LastChecksum(dbs[0], remote.repo), n), app);
    NoneMissingIff(remote, dbs[n], app);
  }

  lemma NoneMissingIff(remote: Remote, db: DB, app: string)
    requires SteadyApp(remote, app)
    ensures (forall v :: v in Tags(remote, app) ==> v in StoredVersions(db, remote, app))
      <==> Missing(db, remote, app) == []
  {
    UnsyncedAre(Tags(remote, app), StoredVersions(db, remote, app));
    if Missing(db, remote, app) != [] {
      assert Missing(db, remote, app)[0] in Missing(db, remote, app);
    }
  }

  // ------------------------------------------------------------- convergence

  /** A database that has never seen the repository. */
  ghost predicate NeverSynced(db: DB, repo: RepoKey) {
    Consistent(db) && LastChecksum(db, repo) == "" && forall k: ChartKey :: k in db.charts ==> k.repo != repo
  }

  lemma PrefixGrows(remote: Remote, db: DB, after: DB, app: string, m: nat, k: nat)
    requires SteadyApp(remote, app) && AppGrows(remote, db, after, app, k)
    requires StoredVersions(db, remote, app) == Tags(remote, app)[..Min(m, |Tags(remote, app)|)]
    ensures StoredVersions(after, remote, app) == Tags(remote, app)[..Min(m + k, |Tags(remote, app)|)]
    ensures StrictlyDescending(Self, StoredVersions(after, remote, app))
  {
    hide Gained, StrictlyDescending;
    TagsFacts(remote, app);
    PrefixGains(Tags(remote, app), StoredVersions(db, remote, app), StoredVersions(after, remote, app),
      Missing(after, remote, app), m, k);
    FrontDescends(Tags(remote, app), Min(m + k, |Tags(remote, app)|));
  }

  /** A pass raises every application by one version when shallow and by five when not. */
  lemma PassRaisesLevel(remote: Remote, shallow: bool, db: DB, after: DB, app: string, m: nat)
    requires Steady(remote) && OwnRows(db, remote) && OciPass(remote, shallow, db, after) && app in remote.apps
    ensures SteadyApp(remote, app)
    ensures var tags := Tags(remote, app);
      StoredVersions(db, remote, app) == tags[..Min(m, |tags|)] ==>
        StoredVersions(after, remote, app) == tags[..Min(m + Limit(shallow), |tags|)]
  {
    hide Grows, AppGrows, OciPass;
    PassAddsMissing(remote, shallow, db, after);
    GrownApp(remote, db, after, Limit(shallow), app);
    if StoredVersions(db, remote, app) == Tags(remote, app)[..Min(m, |Tags(remote, app)|)] {
      PrefixGrows(remote, db, after, app, m, Limit(shallow));
    }
  }

  /** After n complete runs on a repository that was never synchronised, the stored
      versions of each application are exactly its min(N, 1 + 5n) highest, newest first. */
  lemma ConvergesOnNewestVersions(remote: Remote, sums: seq<string>, dbs: seq<DB>, n: nat, app: string)
    requires Steady(remote) && SyncRuns(remote, sums, dbs) && NeverSynced(dbs[0], remote.repo)
    requires 1 <= n <= |sums| && app in remote.apps
    ensures SteadyApp(remote, app)
    ensures var tags := Tags(remote, app);
      && StoredVersions(dbs[n], remote, app) == tags[..Min(|tags|, 1 + 5 * n)]
      && StrictlyDescending(Self, StoredVersions(dbs[n], remote, app))
  {
    hide Grows, AppGrows, SyncRun;
    RunsAddMissing(remote, sums, dbs, n);
    GrownApp(remote, dbs[0], dbs[n], 1 + 5 * n, app);
    PrefixGrows(remote, dbs[0], dbs[n], app, 0, 1 + 5 * n);
  }
}
