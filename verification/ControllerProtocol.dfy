/** What every run of the controller keeps: a CronJob only for a repository under the
    finalizer, and no finalized repository gone without its clean-up. */
module ControllerProtocol {
  import opened Prelude
  import opened Controller
  import opened Text
  import JobNames

  predicate OnlyOurs(finalizers: seq<string>) {
    forall f :: f in finalizers ==> f == FINALIZER
  }

  /** The steps that the guarantees are about: API calls succeed, and nobody creates a
      repository with a finalizer of another party. */
  predicate Allowed(l: Step) {
    match l
    case Create(_, _, finalizers) => OnlyOurs(finalizers)
    case Notify(api) => api == ALL_OK
    case Work(_, api) => api == ALL_OK
    case _ => true
  }

  ghost predicate ReposOk(c: Cluster) {
    forall k :: k in c.repos ==> RepoOk(c, c.repos[k])
  }

  predicate RepoOk(c: Cluster, r: Repo) {
    && r.uid < c.stamp && r.version < c.stamp && OnlyOurs(r.finalizers)
    && (r.deleting ==> HasFinalizer(r)) && (HasFinalizer(r) ==> r.uid in c.finalized)
  }

  /** A notified object is the stored one whenever their versions agree. */
  predicate EventOk(c: Cluster, e: Event) {
    match e
    case Updated(key, _, now) =>
      && OnlyOurs(now.finalizers) && now.version < c.stamp
      && (key in c.repos && c.repos[key].version == now.version && c.repos[key].uid == now.uid ==> c.repos[key] == now)
    case _ => true
  }

  ghost predicate EventsOk(c: Cluster) {
    forall i :: 0 <= i < |c.events| ==> EventOk(c, c.events[i])
  }

  /** Every CronJob belongs to a repository under the finalizer, those of `except` aside. */
  ghost predicate Owned(conf: Config, c: Cluster, except: set<Key>) {
    forall n :: n in c.cronJobs ==>
      && n == conf.cronJobName(c.cronJobs[n].owner)
      && (c.cronJobs[n].owner in except || Finalized(c, c.cronJobs[n].owner))
  }

  predicate Finalized(c: Cluster, k: Key) {
    k in c.repos && HasFinalizer(c.repos[k])
  }

  ghost predicate Cleaned(c: Cluster, uid: nat) {
    exists i :: 0 <= i < |c.jobs| && c.jobs[i].CleanupJob? && c.jobs[i].uid == uid
  }

  ghost predicate Live(c: Cluster, uid: nat) {
    exists k :: Finalized(c, k) && c.repos[k].uid == uid
  }

  ghost predicate History(c: Cluster) {
    forall u :: u in c.finalized ==> u < c.stamp && (Live(c, u) || Cleaned(c, u))
  }

  ghost predicate Inv(conf: Config, c: Cluster) {
    ReposOk(c) && EventsOk(c) && Owned(conf, c, {}) && History(c)
  }

  // ------------------------------------------------------------- storing an object

  /** The finalizer goes only from an object that was cleaned up and has no CronJob. */
  ghost predicate MayStore(c: Cluster, key: Key, now: Repo) {
    && key in c.repos && now.uid == c.repos[key].uid && OnlyOurs(now.finalizers)
    && (now.deleting ==> HasFinalizer(now) || now.finalizers == [])
    && (HasFinalizer(c.repos[key]) && !HasFinalizer(now) ==> Cleaned(c, now.uid))
  }

  lemma StoreKeepsObjects(c: Cluster, key: Key, now: Repo)
    requires ReposOk(c) && EventsOk(c) && MayStore(c, key, now)
    ensures var d := Store(c, key, c.repos[key], now); ReposOk(d) && EventsOk(d)
  {
    var d := Store(c, key, c.repos[key], now);
    forall i | 0 <= i < |d.events| ensures EventOk(d, d.events[i]) {
      if i < |c.events| {
        assert EventOk(c, c.events[i]);
      }
    }
  }

  lemma StoreKeepsHistory(c: Cluster, key: Key, now: Repo)
    requires ReposOk(c) && History(c) && MayStore(c, key, now)
    ensures History(Store(c, key, c.repos[key], now))
  {
    var d := Store(c, key, c.repos[key], now);
    forall u | u in d.finalized ensures u < d.stamp && (Live(d, u) || Cleaned(d, u)) {
      if Cleaned(c, u) {
        var i :| 0 <= i < |c.jobs| && c.jobs[i].CleanupJob? && c.jobs[i].uid == u;
        assert d.jobs[i] == c.jobs[i];
      } else if u == now.uid && HasFinalizer(now) {
        assert Finalized(d, key) && d.repos[key].uid == u;
      } else {
        var k :| Finalized(c, k) && c.repos[k].uid == u;
        assert Finalized(d, k) && d.repos[k].uid == u;
      }
    }
  }

  lemma StoreKeepsInv(conf: Config, c: Cluster, key: Key, now: Repo, except: set<Key>)
    requires ReposOk(c) && EventsOk(c) && History(c) && MayStore(c, key, now)
    requires Owned(conf, c, except) && except <= {key}
    requires forall n :: n in c.cronJobs && c.cronJobs[n].owner == key ==> HasFinalizer(now)
    ensures Inv(conf, Store(c, key, c.repos[key], now))
  {
    StoreKeepsObjects(c, key, now);
    StoreKeepsHistory(c, key, now);
    var d := Store(c, key, c.repos[key], now);
    forall n | n in d.cronJobs ensures n == conf.cronJobName(d.cronJobs[n].owner) && Finalized(d, d.cronJobs[n].owner) {
      assert d.cronJobs[n] == c.cronJobs[n];
    }
  }

  // ------------------------------------------------------------- handlers

  lemma CleanUpKeepsInv(conf: Config, c: Cluster, key: Key, repo: Repo)
    requires Inv(conf, c)
    ensures var d := CleanUpAppRepo(conf, c, key, repo, ALL_OK);
      Inv(conf, d) && Cleaned(d, repo.uid) && d.repos == c.repos && conf.cronJobName(key) !in d.cronJobs
  {
    var d := CleanUpAppRepo(conf, c, key, repo, ALL_OK);
    assert d.jobs[|c.jobs|] == CleanupJob(key, repo.uid);
    forall i | 0 <= i < |d.events| ensures EventOk(d, d.events[i]) {
      if i < |c.events| {
        assert EventOk(c, c.events[i]);
      }
    }
    forall u | u in d.finalized ensures u < d.stamp && (Live(d, u) || Cleaned(d, u)) {
      if Cleaned(c, u) {
        var i :| 0 <= i < |c.jobs| && c.jobs[i].CleanupJob? && c.jobs[i].uid == u;
        assert d.jobs[i] == c.jobs[i];
      } else {
        var k :| Finalized(c, k) && c.repos[k].uid == u;
        assert Finalized(d, k) && d.repos[k].uid == u;
      }
    }
  }

  lemma {:induction false} WithoutOnlyOurs(f: seq<string>)
    requires OnlyOurs(f)
    ensures Without(f, FINALIZER) == []
  {
    if f != [] {
      assert f[0] in f && forall g :: g in f[1..] ==> g in f;
      WithoutOnlyOurs(f[1..]);
    }
  }

  lemma NoFinalizerLeft(r: Repo)
    requires OnlyOurs(r.finalizers)
    ensures r.finalizers == [] || HasFinalizer(r)
  {
    if r.finalizers != [] {
      assert r.finalizers[0] in r.finalizers;
    }
  }

  /** Handling the finalizer of an object, perhaps a stale one, keeps the invariant. */
  lemma CleanupKeepsInv(conf: Config, c: Cluster, key: Key, repo: Repo)
    requires Inv(conf, c) && OnlyOurs(repo.finalizers) && HasFinalizer(repo) && repo.deleting
    requires key in c.repos && c.repos[key].version == repo.version && c.repos[key].uid == repo.uid
      ==> c.repos[key] == repo
    ensures Inv(conf, HandleCleanupFinalizer(conf, c, key, repo, ALL_OK))
  {
    CleanUpKeepsInv(conf, c, key, repo);
    WithoutOnlyOurs(repo.finalizers);
    var d := CleanUpAppRepo(conf, c, key, repo, ALL_OK);
    if key in d.repos && d.repos[key] == repo {
      StoreKeepsInv(conf, d, key, repo.(finalizers := []), {});
    }
  }

  lemma EnsureKeeps(conf: Config, c: Cluster, key: Key, repo: Repo)
    requires Inv(conf, c)
    ensures var d := EnsureCronJob(conf, c, key, repo, ALL_OK).0;
      && ReposOk(d) && EventsOk(d) && History(d) && Owned(conf, d, {key})
      && d.repos == c.repos && (Finalized(c, key) ==> Inv(conf, d))
  {
    var d := EnsureCronJob(conf, c, key, repo, ALL_OK).0;
    forall i | 0 <= i < |d.events| ensures EventOk(d, d.events[i]) {
      assert EventOk(c, c.events[i]);
    }
    forall u | u in d.finalized ensures u < d.stamp && (Live(d, u) || Cleaned(d, u)) {
      if Cleaned(c, u) {
        var i :| 0 <= i < |c.jobs| && c.jobs[i].CleanupJob? && c.jobs[i].uid == u;
        assert d.jobs[i] == c.jobs[i];
      } else {
        var k :| Finalized(c, k) && c.repos[k].uid == u;
        assert Finalized(d, k) && d.repos[k].uid == u;
      }
    }
  }

  lemma SyncKeepsInv(conf: Config, c: Cluster, key: Key)
    requires Inv(conf, c)
    ensures Inv(conf, SyncHandler(conf, c, key, ALL_OK))
  {
    if key in c.repos {
      var repo := c.repos[key];
      assert RepoOk(c, repo);
      EnsureKeeps(conf, c, key, repo);
      var d := EnsureCronJob(conf, c, key, repo, ALL_OK).0;
      if repo.deleting {
        CleanupKeepsInv(conf, d, key, repo);
      } else if !HasFinalizer(repo) {
        StoreKeepsInv(conf, d, key, repo.(finalizers := repo.finalizers + [FINALIZER]), {key});
      }
    }
  }

  lemma QueueKeepsInv(conf: Config, c: Cluster, queue: set<Key>)
    requires Inv(conf, c)
    ensures Inv(conf, c.(queue := queue))
  {
    var d := c.(queue := queue);
    forall i | 0 <= i < |d.events| ensures EventOk(d, d.events[i]) {
      assert EventOk(c, c.events[i]);
    }
    forall u | u in d.finalized ensures u < d.stamp && (Live(d, u) || Cleaned(d, u)) {
      SameHistory(c, d, u);
    }
  }

  lemma SameHistory(c: Cluster, d: Cluster, u: nat)
    requires d.repos == c.repos && d.jobs == c.jobs && (Live(c, u) || Cleaned(c, u))
    ensures Live(d, u) || Cleaned(d, u)
  {
    if Live(c, u) {
      var k :| Finalized(c, k) && c.repos[k].uid == u;
      assert Finalized(d, k) && d.repos[k].uid == u;
    }
  }

  lemma TakeEventKeepsInv(conf: Config, c: Cluster)
    requires Inv(conf, c) && c.events != []
    ensures Inv(conf, c.(events := c.events[1..])) && EventOk(c.(events := c.events[1..]), c.events[0])
  {
    var d := c.(events := c.events[1..]);
    assert EventOk(c, c.events[0]);
    forall i | 0 <= i < |d.events| ensures EventOk(d, d.events[i]) {
      assert EventOk(c, c.events[i + 1]);
    }
    forall u | u in d.finalized ensures u < d.stamp && (Live(d, u) || Cleaned(d, u)) {
      SameHistory(c, d, u);
    }
  }

  lemma EventKeepsInv(conf: Config, c: Cluster, e: Event)
    requires Inv(conf, c) && EventOk(c, e)
    ensures Inv(conf, HandleEvent(conf, c, e, ALL_OK))
  {
    match e
    case Updated(key, was, now) =>
      if was.spec != now.spec {
        QueueKeepsInv(conf, c, c.queue + {key});
      } else if now.deleting && HasFinalizer(now) {
        CleanupKeepsInv(conf, c, key, now);
      }
    case Added(key) => QueueKeepsInv(conf, c, c.queue + {key});
    case Deleted(key, last) => QueueKeepsInv(conf, c, c.queue + {key});
    case CronJobGone(cronJob) => QueueKeepsInv(conf, c, c.queue + {cronJob.owner});
  }

  lemma CreateKeepsInv(conf: Config, c: Cluster, key: Key, spec: string, finalizers: seq<string>)
    requires Inv(conf, c) && key !in c.repos && OnlyOurs(finalizers)
    ensures Inv(conf, Next(conf, c, Create(key, spec, finalizers)))
  {
    var d := Next(conf, c, Create(key, spec, finalizers));
    forall i | 0 <= i < |d.events| ensures EventOk(d, d.events[i]) {
      if i < |c.events| {
        assert EventOk(c, c.events[i]);
      }
    }
    forall u | u in d.finalized ensures u < d.stamp && (Live(d, u) || Cleaned(d, u)) {
      if u == c.stamp {
        assert Finalized(d, key) && d.repos[key].uid == u;
      } else if Live(c, u) {
        var k :| Finalized(c, k) && c.repos[k].uid == u;
        assert Finalized(d, k) && d.repos[k].uid == u;
      }
    }
  }

  lemma StepKeepsInv(conf: Config, c: Cluster, l: Step)
    requires Inv(conf, c) && Enabled(c, l) && Allowed(l)
    ensures Inv(conf, Next(conf, c, l))
  {
    match l
    case Create(key, spec, finalizers) => CreateKeepsInv(conf, c, key, spec, finalizers);
    case Edit(key, spec) =>
      assert RepoOk(c, c.repos[key]);
      StoreKeepsInv(conf, c, key, c.repos[key].(spec := spec), {});
    case Delete(key) =>
      assert RepoOk(c, c.repos[key]);
      NoFinalizerLeft(c.repos[key]);
      StoreKeepsInv(conf, c, key, c.repos[key].(deleting := true), {});
    case Notify(_) =>
      TakeEventKeepsInv(conf, c);
      EventKeepsInv(conf, c.(events := c.events[1..]), c.events[0]);
    case Work(key, _) =>
      QueueKeepsInv(conf, c, c.queue - {key});
      SyncKeepsInv(conf, c.(queue := c.queue - {key}), key);
  }

  // ------------------------------------------------------------- runs

  ghost predicate Moves(conf: Config, c: Cluster, d: Cluster) {
    exists l :: Enabled(c, l) && Allowed(l) && d == Next(conf, c, l)
  }

  ghost predicate Run(conf: Config, run: seq<Cluster>) {
    run != [] && run[0] == Start() && forall i :: 0 <= i < |run| - 1 ==> Moves(conf, run[i], run[i + 1])
  }

  lemma {:induction false} RunInv(conf: Config, run: seq<Cluster>, i: nat)
    requires Run(conf, run) && i < |run|
    ensures Inv(conf, run[i])
  {
    if i > 0 {
      RunInv(conf, run, i - 1);
      assert Moves(conf, run[i - 1], run[i - 1 + 1]);
      var l :| Enabled(run[i - 1], l) && Allowed(l) && run[i] == Next(conf, run[i - 1], l);
      StepKeepsInv(conf, run[i - 1], l);
    }
  }

  /** In every reachable state, the CronJob of a repository exists only while the
      repository is in the API and carries the finalizer. */
  lemma CronJobOnlyWhileFinalized(conf: Config, run: seq<Cluster>, i: nat, key: Key)
    requires Run(conf, run) && i < |run|
    requires forall k :: k in run[i].repos && conf.cronJobName(k) == conf.cronJobName(key) ==> k == key
    ensures conf.cronJobName(key) in run[i].cronJobs ==> Finalized(run[i], key)
  {
    RunInv(conf, run, i);
  }

  /** A repository that has ever carried the finalizer and no longer does so in the API
      had its clean-up Job created, and its CronJob is gone. */
  lemma FinalizedLeavesClean(conf: Config, run: seq<Cluster>, i: nat, j: nat, key: Key)
    requires Run(conf, run) && i <= j < |run| && Finalized(run[i], key)
    requires !Live(run[j], run[i].repos[key].uid)
    requires forall k :: k in run[j].repos && conf.cronJobName(k) == conf.cronJobName(key) ==> k == key
    ensures Cleaned(run[j], run[i].repos[key].uid)
    ensures key !in run[j].repos ==> conf.cronJobName(key) !in run[j].cronJobs
  {
    RunInv(conf, run, i);
    RunInv(conf, run, j);
    assert RepoOk(run[i], run[i].repos[key]);
    FinalizedGrows(conf, run, i, j);
  }

  lemma {:induction false} FinalizedGrows(conf: Config, run: seq<Cluster>, i: nat, j: nat)
    requires Run(conf, run) && i <= j < |run|
    ensures run[i].finalized <= run[j].finalized
  {
    if i < j {
      FinalizedGrows(conf, run, i, j - 1);
      assert Moves(conf, run[j - 1], run[j - 1 + 1]);
      var l :| Enabled(run[j - 1], l) && Allowed(l) && run[j] == Next(conf, run[j - 1], l);
    }
  }

  // ------------------------------------------------------------- with the real names

  ghost predicate PlainKey(k: Key) {
    JobNames.Fits(k.namespace, k.name) && !Contains(k.namespace + "-", "-sync-")
  }

  /** With the names that the controller generates, keys that fit keep their CronJobs apart. */
  lemma CronJobOnlyWhileFinalizedByName(conf: Config, run: seq<Cluster>, i: nat, key: Key)
    requires Run(conf, run) && i < |run|
    requires forall k: Key :: conf.cronJobName(k) == JobNames.CronJobName(k.namespace, k.name)
    requires PlainKey(key) && forall k :: k in run[i].repos ==> PlainKey(k)
    ensures JobNames.CronJobName(key.namespace, key.name) in run[i].cronJobs ==> Finalized(run[i], key)
  {
    forall k | k in run[i].repos && conf.cronJobName(k) == conf.cronJobName(key) ensures k == key {
      JobNames.FittingNamesAreDistinct(k.namespace, k.name, key.namespace, key.name);
    }
    assert conf.cronJobName(key) == JobNames.CronJobName(key.namespace, key.name);
    CronJobOnlyWhileFinalized(conf, run, i, key);
  }

  // ------------------------------------------------------------- where the guarantees end

  /** A worker leaves the CronJob of a repository without the finalizer in just one case: a
      deleted repository that only another party's finalizer keeps. */
  lemma WorkerLeavesStrayCronJobIff(conf: Config, c: Cluster, key: Key)
    requires key in c.repos
    ensures var d := SyncHandler(conf, c, key, ALL_OK);
      (conf.cronJobName(key) in d.cronJobs && !Finalized(d, key))
        <==> c.repos[key].deleting && !HasFinalizer(c.repos[key])
  {
    var repo := c.repos[key];
    if !repo.deleting && !HasFinalizer(repo) {
      assert (repo.finalizers + [FINALIZER])[|repo.finalizers|] == FINALIZER;
    }
  }

  /** Once the update of the finalizer succeeds, the repository is cleaned up just when the
      clean-up Job could be created; a failure does not keep the finalizer. */
  lemma FinalizerGoesWithoutCleanUpIff(conf: Config, c: Cluster, key: Key, api: Api)
    requires key in c.repos && HasFinalizer(c.repos[key]) && api.updateOk
    requires !Cleaned(c, c.repos[key].uid)
    ensures var d := HandleCleanupFinalizer(conf, c, key, c.repos[key], api);
      !Finalized(d, key) && (Cleaned(d, c.repos[key].uid) <==> api.cleanupJobOk)
  {
    var repo := c.repos[key];
    var d := HandleCleanupFinalizer(conf, c, key, repo, api);
    WithoutMeaning(repo.finalizers, FINALIZER, FINALIZER);
    if api.cleanupJobOk {
      assert d.jobs[|c.jobs|] == CleanupJob(key, repo.uid);
    } else {
      assert d.jobs == c.jobs;
    }
  }
}
