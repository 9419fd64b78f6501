/** What the controller brings about: the CronJob of a repository follows its spec, and no change
    of a spec is lost. */
module ControllerProgress {
  import opened Prelude
  import opened Controller
  import opened ControllerProtocol
  import JobNames

  // ------------------------------------------------------------- one step

  /** A worker that takes a stored repository leaves its CronJob with its owner and present spec,
      one more sync Job, and the repository under the finalizer; nothing else changes. */
  lemma WorkMakesCronJob(conf: Config, c: Cluster, key: Key)
    requires Enabled(c, Work(key, ALL_OK)) && key in c.repos && !c.repos[key].deleting
    ensures var d, name, repo := Next(conf, c, Work(key, ALL_OK)), conf.cronJobName(key), c.repos[key];
      && name in d.cronJobs && d.cronJobs[name].owner == key && d.cronJobs[name].spec == repo.spec
      && (d.cronJobs[name].controlled <==> key.namespace == conf.kubeappsNamespace)
      && (forall n :: n != name ==> (n in d.cronJobs <==> n in c.cronJobs))
      && (forall n :: n != name && n in c.cronJobs ==> d.cronJobs[n] == c.cronJobs[n])
      && d.jobs == c.jobs + [SyncJob(key)]
      && d.queue == c.queue - {key}
      && d.repos.Keys == c.repos.Keys && (forall k :: k != key && k in c.repos ==> d.repos[k] == c.repos[k])
      && FINALIZER in d.repos[key].finalizers && (forall f :: f in repo.finalizers ==> f in d.repos[key].finalizers)
      && d.repos[key].uid == repo.uid && d.repos[key].spec == repo.spec && !d.repos[key].deleting
  {
    var repo := c.repos[key];
    if !HasFinalizer(repo) {
      assert (repo.finalizers + [FINALIZER])[|repo.finalizers|] == FINALIZER;
    }
  }

  /** What brings a key into the queue, and that nothing else does. */
  lemma QueuedBy(conf: Config, c: Cluster, e: Event, api: Api, key: Key)
    ensures key in HandleEvent(conf, c, e, api).queue <==> key in c.queue || Queues(c, e, key)
  {
  }

  predicate Queues(c: Cluster, e: Event, key: Key) {
    match e
    case Added(k) => k == key
    case Updated(k, was, now) => k == key && was.spec != now.spec
    case Deleted(k, last) => k == key && last.deleting && FINALIZER in last.finalizers
    case CronJobGone(j) => j.owner == key && j.controlled && key in c.repos && !c.repos[key].deleting
  }

  // ------------------------------------------------------------- what is still to be done

  /** The notification will queue the repository. */
  predicate Tells(e: Event, key: Key) {
    match e
    case Added(k) => k == key
    case Updated(k, was, now) => k == key && was.spec != now.spec
    case Deleted(_, _) => false
    case CronJobGone(j) => j.owner == key && j.controlled
  }

  ghost predicate Pending(events: seq<Event>, key: Key) {
    exists i :: 0 <= i < |events| && Tells(events[i], key)
  }

  predicate Current(conf: Config, c: Cluster, key: Key)
    requires key in c.repos
  {
    var name := conf.cronJobName(key);
    name in c.cronJobs && c.cronJobs[name].owner == key && c.cronJobs[name].spec == c.repos[key].spec
  }

  predicate Wanted(c: Cluster, key: Key) {
    key in c.repos && !c.repos[key].deleting
  }

  /** The CronJob follows the spec, or the controller still knows that it has to. */
  ghost predicate Tracked(conf: Config, c: Cluster, key: Key) {
    Wanted(c, key) ==> key in c.queue || Pending(c.events, key) || Current(conf, c, key)
  }

  // ------------------------------------------------------------- names in use

  /** The keys that occur in a state. */
  ghost predicate InUse(c: Cluster, used: Key -> bool) {
    && (forall k :: k in c.repos ==> used(k)) && (forall k :: k in c.queue ==> used(k))
    && (forall i :: 0 <= i < |c.events| ==> used(Subject(c.events[i])))
    && (forall n :: n in c.cronJobs ==> used(c.cronJobs[n].owner))
  }

  function Subject(e: Event): Key {
    match e
    case Added(key) => key
    case Updated(key, _, _) => key
    case Deleted(key, _) => key
    case CronJobGone(j) => j.owner
  }

  /** The names of the CronJobs tell the keys in use apart. */
  ghost predicate NamesApart(conf: Config, used: Key -> bool) {
    forall k, l :: used(k) && used(l) && conf.cronJobName(k) == conf.cronJobName(l) ==> k == l
  }

  /** A CronJob has its name from its owner, and is controlled by it just in the namespace of
      Kubeapps. */
  ghost predicate OwnersOk(conf: Config, c: Cluster) {
    forall n :: n in c.cronJobs ==>
      && n == conf.cronJobName(c.cronJobs[n].owner)
      && (c.cronJobs[n].controlled <==> c.cronJobs[n].owner.namespace == conf.kubeappsNamespace)
  }

  ghost predicate Orderly(conf: Config, c: Cluster, used: Key -> bool) {
    Inv(conf, c) && InUse(c, used) && OwnersOk(conf, c) && NamesApart(conf, used)
  }

  predicate UsedStep(l: Step, used: Key -> bool) {
    Allowed(l) && (l.Create? ==> used(l.key))
  }

  // ------------------------------------------------------------- the exception

  /** A notification about an older object of the name, deleted since, cleans up the CronJob of
      the present one. */
  predicate StaleCleanup(c: Cluster, key: Key) {
    && c.events != [] && c.events[0].Updated? && c.events[0].key == key
    && c.events[0].was.spec == c.events[0].now.spec
    && c.events[0].now.deleting && FINALIZER in c.events[0].now.finalizers
  }

  /** Outside the namespace of Kubeapps nobody is told of the deleted CronJob. */
  ghost predicate Loses(conf: Config, c: Cluster, key: Key) {
    && Wanted(c, key) && StaleCleanup(c, key) && key.namespace != conf.kubeappsNamespace
    && key !in c.queue && !Pending(c.events[1..], key)
  }

  // ------------------------------------------------------------- the side conditions are kept

  ghost predicate NamesOk(conf: Config, c: Cluster, used: Key -> bool) {
    InUse(c, used) && OwnersOk(conf, c)
  }

  lemma StoreKeepsNames(conf: Config, c: Cluster, key: Key, was: Repo, now: Repo, used: Key -> bool)
    requires NamesOk(conf, c, used) && used(key)
    ensures NamesOk(conf, Store(c, key, was, now), used)
  {
  }

  lemma CleanUpKeepsNames(conf: Config, c: Cluster, key: Key, repo: Repo, used: Key -> bool)
    requires NamesOk(conf, c, used) && used(key)
    ensures NamesOk(conf, HandleCleanupFinalizer(conf, c, key, repo, ALL_OK), used)
  {
    var d := CleanUpAppRepo(conf, c, key, repo, ALL_OK);
    assert NamesOk(conf, d, used);
    if key in d.repos {
      StoreKeepsNames(conf, d, key, d.repos[key], repo.(finalizers := Without(repo.finalizers, FINALIZER)), used);
    }
  }

  lemma SyncKeepsNames(conf: Config, c: Cluster, key: Key, used: Key -> bool)
    requires NamesOk(conf, c, used) && used(key)
    ensures NamesOk(conf, SyncHandler(conf, c, key, ALL_OK), used)
  {
    if key in c.repos {
      var repo := c.repos[key];
      var d := EnsureCronJob(conf, c, key, repo, ALL_OK).0;
      assert NamesOk(conf, d, used);
      CleanUpKeepsNames(conf, d, key, repo, used);
      StoreKeepsNames(conf, d, key, repo, repo.(finalizers := repo.finalizers + [FINALIZER]), used);
    }
  }

  lemma EventKeepsNames(conf: Config, c: Cluster, e: Event, used: Key -> bool)
    requires NamesOk(conf, c, used) && used(Subject(e))
    ensures NamesOk(conf, HandleEvent(conf, c, e, ALL_OK), used)
  {
    if e.Updated? {
      CleanUpKeepsNames(conf, c, e.key, e.now, used);
    }
  }

  lemma StepKeepsNames(conf: Config, c: Cluster, l: Step, used: Key -> bool)
    requires NamesOk(conf, c, used) && Enabled(c, l) && UsedStep(l, used)
    ensures NamesOk(conf, Next(conf, c, l), used)
  {
    match l
    case Create(key, spec, finalizers) =>
    case Edit(key, spec) => StoreKeepsNames(conf, c, key, c.repos[key], c.repos[key].(spec := spec), used);
    case Delete(key) => StoreKeepsNames(conf, c, key, c.repos[key], c.repos[key].(deleting := true), used);
    case Notify(_) =>
      var d := c.(events := c.events[1..]);
      assert NamesOk(conf, d, used) && used(Subject(c.events[0]));
      EventKeepsNames(conf, d, c.events[0], used);
    case Work(key, _) => SyncKeepsNames(conf, c.(queue := c.queue - {key}), key, used);
  }

  // ------------------------------------------------------------- tracking

  lemma StillPending(events: seq<Event>, more: seq<Event>, key: Key)
    requires events <= more && Pending(events, key)
    ensures Pending(more, key)
  {
    var i :| 0 <= i < |events| && Tells(events[i], key);
    assert more[i] == events[i];
  }

  /** What leaves the repository's spec, its CronJob and what is known of it alone. */
  lemma Untouched(conf: Config, c: Cluster, d: Cluster, key: Key)
    requires Tracked(conf, c, key)
    requires Wanted(d, key) ==> Wanted(c, key) && d.repos[key].spec == c.repos[key].spec
    requires (key in c.queue ==> key in d.queue) && c.events <= d.events
    requires var n := conf.cronJobName(key); n in c.cronJobs ==> n in d.cronJobs && d.cronJobs[n] == c.cronJobs[n]
    ensures Tracked(conf, d, key)
  {
    if Wanted(d, key) && Pending(c.events, key) {
      StillPending(c.events, d.events, key);
    }
  }

  lemma StoreTracks(conf: Config, c: Cluster, at: Key, now: Repo, key: Key)
    requires at in c.repos && Tracked(conf, c, key) && (now.deleting || !c.repos[at].deleting)
    ensures Tracked(conf, Store(c, at, c.repos[at], now), key)
  {
    var d := Store(c, at, c.repos[at], now);
    if at == key && Wanted(d, key) && now.spec != c.repos[key].spec {
      assert Tells(d.events[|c.events|], key);
    } else {
      Untouched(conf, c, d, key);
    }
  }

  /** A handler for one repository leaves another alone. */
  ghost predicate LeavesAlone(conf: Config, c: Cluster, d: Cluster, key: Key) {
    && (key in c.repos <==> key in d.repos) && (key in c.repos ==> d.repos[key] == c.repos[key])
    && d.queue == c.queue && c.events <= d.events
    && var n := conf.cronJobName(key);
    (n in c.cronJobs <==> n in d.cronJobs) && (n in c.cronJobs ==> d.cronJobs[n] == c.cronJobs[n])
  }

  lemma CleanupLeavesAlone(conf: Config, c: Cluster, at: Key, repo: Repo, key: Key)
    requires at != key && conf.cronJobName(at) != conf.cronJobName(key)
    ensures LeavesAlone(conf, c, HandleCleanupFinalizer(conf, c, at, repo, ALL_OK), key)
  {
  }

  lemma SyncLeavesAlone(conf: Config, c: Cluster, at: Key, key: Key)
    requires at != key && conf.cronJobName(at) != conf.cronJobName(key)
    ensures LeavesAlone(conf, c, SyncHandler(conf, c, at, ALL_OK), key)
  {
    if at in c.repos {
      var d := EnsureCronJob(conf, c, at, c.repos[at], ALL_OK).0;
      CleanupLeavesAlone(conf, d, at, c.repos[at], key);
    }
  }

  lemma WorkTracks(conf: Config, c: Cluster, at: Key, key: Key, used: Key -> bool)
    requires Orderly(conf, c, used) && at in c.queue && used(key) && Tracked(conf, c, key)
    ensures Tracked(conf, Next(conf, c, Work(at, ALL_OK)), key)
  {
    var c1 := c.(queue := c.queue - {at});
    var d := Next(conf, c, Work(at, ALL_OK));
    if at != key {
      SyncLeavesAlone(conf, c1, at, key);
      Untouched(conf, c1, d, key);
    } else if Wanted(c, key) {
      WorkMakesCronJob(conf, c, key);
    } else {
      StillUnwanted(conf, c1, key);
    }
  }

  lemma StillUnwanted(conf: Config, c: Cluster, key: Key)
    requires !Wanted(c, key)
    ensures !Wanted(SyncHandler(conf, c, key, ALL_OK), key)
  {
  }

  lemma RestTracks(conf: Config, c: Cluster, key: Key)
    requires c.events != [] && Tracked(conf, c, key) && !Tells(c.events[0], key)
    ensures Tracked(conf, c.(events := c.events[1..]), key)
  {
    if Pending(c.events, key) {
      var i :| 0 <= i < |c.events| && Tells(c.events[i], key);
      assert c.events[1..][i - 1] == c.events[i];
    }
  }

  /** A stale object is not stored again. */
  lemma StaleIsRefused(conf: Config, c: Cluster, key: Key, obj: Repo)
    requires EventOk(c, Updated(key, obj, obj)) && obj.deleting && Wanted(c, key)
    ensures HandleCleanupFinalizer(conf, c, key, obj, ALL_OK) == CleanUpAppRepo(conf, c, key, obj, ALL_OK)
  {
  }

  lemma PendingAfter(events: seq<Event>, e: Event, key: Key)
    ensures Pending(events + [e], key) <==> Pending(events, key) || Tells(e, key)
  {
    var more := events + [e];
    assert more[|events|] == e;
    if Pending(events, key) {
      StillPending(events, more, key);
    }
    if i :| 0 <= i < |more| && Tells(more[i], key) && i < |events| {
      assert events[i] == more[i];
    }
  }

  lemma StaleCleanupTracksIff(conf: Config, c: Cluster, key: Key, obj: Repo)
    requires EventOk(c, Updated(key, obj, obj)) && obj.deleting && HasFinalizer(obj)
    requires Wanted(c, key) && OwnersOk(conf, c) && Tracked(conf, c, key)
    requires forall n :: n in c.cronJobs && n == conf.cronJobName(key) ==> c.cronJobs[n].owner == key
    ensures Tracked(conf, HandleCleanupFinalizer(conf, c, key, obj, ALL_OK), key)
      <==> key in c.queue || Pending(c.events, key) || key.namespace == conf.kubeappsNamespace
  {
    StaleIsRefused(conf, c, key, obj);
    var d := CleanUpAppRepo(conf, c, key, obj, ALL_OK);
    if Pending(c.events, key) {
      StillPending(c.events, d.events, key);
    }
    if d.events != c.events {
      var gone := d.events[|c.events|];
      assert gone.CronJobGone? && gone.cronJob.owner == key;
      PendingAfter(c.events, gone, key);
    }
  }

  /** The notification of a clean-up. */
  lemma CleanupTracksIff(conf: Config, c: Cluster, key: Key, used: Key -> bool, at: Key, obj: Repo)
    requires NamesOk(conf, c, used) && NamesApart(conf, used) && OwnersOk(conf, c) && used(key) && used(at)
    requires Tracked(conf, c, key) && EventOk(c, Updated(at, obj, obj)) && obj.deleting && HasFinalizer(obj)
    ensures Tracked(conf, HandleCleanupFinalizer(conf, c, at, obj, ALL_OK), key)
      <==> !Wanted(c, key) || at != key || key in c.queue || Pending(c.events, key)
           || key.namespace == conf.kubeappsNamespace
  {
    var d := HandleCleanupFinalizer(conf, c, at, obj, ALL_OK);
    if at != key {
      CleanupLeavesAlone(conf, c, at, obj, key);
      Untouched(conf, c, d, key);
    } else if Wanted(c, key) {
      OwnName(conf, c, key, used);
      StaleCleanupTracksIff(conf, c, key, obj);
    }
  }

  lemma NotifyTracksIff(conf: Config, c: Cluster, key: Key, used: Key -> bool)
    requires Orderly(conf, c, used) && c.events != [] && used(key) && Tracked(conf, c, key)
    ensures Tracked(conf, Next(conf, c, Notify(ALL_OK)), key) <==> !Loses(conf, c, key)
  {
    var e, c1 := c.events[0], c.(events := c.events[1..]);
    var d := Next(conf, c, Notify(ALL_OK));
    TakeEventKeepsInv(conf, c);
    hide Inv, CleanUpAppRepo;
    if Tells(e, key) {
      assert Wanted(d, key) ==> key in d.queue;
    } else {
      RestTracks(conf, c, key);
      if e.Updated? && e.was.spec == e.now.spec && e.now.deleting && HasFinalizer(e.now) {
        assert used(Subject(e));
        CleanupTracksIff(conf, c1, key, used, e.key, e.now);
      } else {
        Untouched(conf, c1, d, key);
      }
    }
  }

  lemma OwnName(conf: Config, c: Cluster, key: Key, used: Key -> bool)
    requires NamesOk(conf, c, used) && NamesApart(conf, used) && used(key)
    ensures forall n :: n in c.cronJobs && n == conf.cronJobName(key) ==> c.cronJobs[n].owner == key
  {
  }

  /** A step loses track of a repository just when it is the notification of an older object of
      its name whose clean-up nobody will be told of. */
  lemma StepTracksIff(conf: Config, c: Cluster, l: Step, key: Key, used: Key -> bool)
    requires Orderly(conf, c, used) && Enabled(c, l) && UsedStep(l, used) && used(key) && Tracked(conf, c, key)
    ensures Tracked(conf, Next(conf, c, l), key) <==> !(l.Notify? && Loses(conf, c, key))
  {
    match l
    case Create(at, spec, finalizers) =>
      var d := Next(conf, c, l);
      if at == key {
        assert Tells(d.events[|c.events|], key);
      } else {
        Untouched(conf, c, d, key);
      }
    case Edit(at, spec) => StoreTracks(conf, c, at, c.repos[at].(spec := spec), key);
    case Delete(at) => StoreTracks(conf, c, at, c.repos[at].(deleting := true), key);
    case Notify(_) => NotifyTracksIff(conf, c, key, used);
    case Work(at, _) => WorkTracks(conf, c, at, key, used);
  }

  // ------------------------------------------------------------- runs

  ghost predicate UsedMove(conf: Config, c: Cluster, d: Cluster, used: Key -> bool) {
    exists l :: Enabled(c, l) && UsedStep(l, used) && d == Next(conf, c, l)
  }

  ghost predicate UsedRun(conf: Config, run: seq<Cluster>, used: Key -> bool) {
    run != [] && run[0] == Start() && forall i :: 0 <= i < |run| - 1 ==> UsedMove(conf, run[i], run[i + 1], used)
  }

  /** The step from state `i` is the notification that loses track of the repository. */
  ghost predicate LosesAt(conf: Config, run: seq<Cluster>, i: nat, key: Key) {
    i + 1 < |run| && Loses(conf, run[i], key) && run[i + 1] == Next(conf, run[i], Notify(ALL_OK))
  }

  lemma MoveTracks(conf: Config, c: Cluster, d: Cluster, used: Key -> bool)
    requires Orderly(conf, c, used) && UsedMove(conf, c, d, used)
    ensures Orderly(conf, d, used)
    ensures forall key :: used(key) && Tracked(conf, c, key) && !Tracked(conf, d, key) ==>
      Loses(conf, c, key) && d == Next(conf, c, Notify(ALL_OK))
  {
    var l :| Enabled(c, l) && UsedStep(l, used) && d == Next(conf, c, l);
    StepKeepsInv(conf, c, l);
    StepKeepsNames(conf, c, l, used);
    forall key | used(key) && Tracked(conf, c, key) && !Tracked(conf, d, key)
      ensures Loses(conf, c, key) && d == Next(conf, c, Notify(ALL_OK))
    {
      StepTracksIff(conf, c, l, key, used);
    }
  }

  lemma {:induction false} RunTracks(conf: Config, run: seq<Cluster>, i: nat, key: Key, used: Key -> bool)
    requires UsedRun(conf, run, used) && NamesApart(conf, used) && used(key) && i < |run|
    ensures Orderly(conf, run[i], used)
    ensures Tracked(conf, run[i], key) || exists j :: 0 <= j < i && LosesAt(conf, run, j, key)
  {
    if i > 0 {
      RunTracks(conf, run, i - 1, key, used);
      assert UsedMove(conf, run[i - 1], run[i - 1 + 1], used);
      MoveTracks(conf, run[i - 1], run[i], used);
      if Tracked(conf, run[i - 1], key) && !Tracked(conf, run[i], key) {
        assert LosesAt(conf, run, i - 1, key);
      }
    }
  }

  /** In every reachable state, a stored repository that is not being deleted is queued, or a
      notification that will queue it is pending, or its CronJob has its present spec, unless an
      older object of its name had its clean-up notified late, outside the namespace of Kubeapps. */
  lemma NoChangeIsLost(conf: Config, run: seq<Cluster>, i: nat, key: Key, used: Key -> bool)
    requires UsedRun(conf, run, used) && NamesApart(conf, used) && i < |run| && Wanted(run[i], key)
    ensures
      || key in run[i].queue || Pending(run[i].events, key) || Current(conf, run[i], key)
      || (key.namespace != conf.kubeappsNamespace && exists j :: 0 <= j < i && LosesAt(conf, run, j, key))
  {
    RunOrderly(conf, run, i, used);
    RunTracks(conf, run, i, key, used);
  }

  lemma {:induction false} RunOrderly(conf: Config, run: seq<Cluster>, i: nat, used: Key -> bool)
    requires UsedRun(conf, run, used) && NamesApart(conf, used) && i < |run|
    ensures Orderly(conf, run[i], used)
  {
    if i > 0 {
      RunOrderly(conf, run, i - 1, used);
      assert UsedMove(conf, run[i - 1], run[i - 1 + 1], used);
      MoveTracks(conf, run[i - 1], run[i], used);
    }
  }

  /** With nothing left to do, every repository in the namespace of Kubeapps has its CronJob with
      its present spec. */
  lemma QuietMeansCurrent(conf: Config, run: seq<Cluster>, i: nat, key: Key, used: Key -> bool)
    requires UsedRun(conf, run, used) && NamesApart(conf, used) && i < |run| && Wanted(run[i], key)
    requires run[i].queue == {} && run[i].events == [] && key.namespace == conf.kubeappsNamespace
    ensures Current(conf, run[i], key)
  {
    NoChangeIsLost(conf, run, i, key, used);
  }

  /** The names that the controller generates tell apart the keys that fit. */
  lemma PlainKeysAreApart(conf: Config, used: Key -> bool)
    requires forall k: Key :: conf.cronJobName(k) == JobNames.CronJobName(k.namespace, k.name)
    requires forall k :: used(k) ==> PlainKey(k)
    ensures NamesApart(conf, used)
  {
    forall k, l | used(k) && used(l) && conf.cronJobName(k) == conf.cronJobName(l) ensures k == l {
      JobNames.FittingNamesAreDistinct(k.namespace, k.name, l.namespace, l.name);
    }
  }
}
