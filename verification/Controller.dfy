/** The AppRepository controller against an API server: event handlers and queue workers
    create, update and delete CronJobs, Jobs and finalizers. */
module Controller {
  import opened Prelude

  const FINALIZER := "apprepositories.kubeapps.com/apprepo-cleanup-finalizer"

  datatype Key = Key(namespace: string, name: string)

  /** `uid` tells an object from a later one of the same name; the API server gives every
      stored state of an object a version of its own. */
  datatype Repo = Repo(uid: nat, version: nat, spec: string, finalizers: seq<string>, deleting: bool)

  datatype CronJob = CronJob(owner: Key, spec: string, controlled: bool)

  datatype Job = SyncJob(key: Key) | CleanupJob(key: Key, uid: nat)

  /** Informer notifications carry the objects as they were when the change happened. */
  datatype Event =
    | Added(key: Key)
    | Updated(key: Key, was: Repo, now: Repo)
    | Deleted(key: Key, last: Repo)
    | CronJobGone(cronJob: CronJob)

  /** `stamp` is the next uid and version; `finalized` records the uids of repositories
      that have carried the finalizer. */
  datatype Cluster = Cluster(
    repos: map<Key, Repo>, cronJobs: map<string, CronJob>, jobs: seq<Job>,
    events: seq<Event>, queue: set<Key>, stamp: nat, finalized: set<nat>)

  /** `cronJobName` names the CronJob of a repository. */
  datatype Config = Config(kubeappsNamespace: string, cronJobName: Key -> string)

  /** Which API calls of a handler succeed. */
  datatype Api = Api(cronJobOk: bool, syncJobOk: bool, cleanupJobOk: bool, deleteOk: bool, updateOk: bool)

  const ALL_OK := Api(true, true, true, true, true)

  // ------------------------------------------------------------- finalizers

  function Without(f: seq<string>, x: string): seq<string> {
    if f == [] then [] else (if f[0] == x then [] else [f[0]]) + Without(f[1..], x)
  }

  /** What is left is the other finalizers, in their order. */
  lemma {:induction false} WithoutMeaning(f: seq<string>, x: string, y: string)
    ensures y in Without(f, x) <==> y in f && y != x
    ensures x !in f ==> Without(f, x) == f
  {
    if f != [] {
      WithoutMeaning(f[1..], x, y);
      assert f == [f[0]] + f[1..];
    }
  }

  lemma {:induction false} WithoutSkips(f: seq<string>, i: nat, x: string)
    requires i < |f| && f[i] == x
    ensures Without(f[..i] + f[i + 1..], x) == Without(f, x)
  {
    if i == 0 {
      assert f[..i] + f[i + 1..] == f[1..];
    } else {
      WithoutSkips(f[1..], i - 1, x);
      assert (f[..i] + f[i + 1..])[1..] == f[1..][..i - 1] + f[1..][i..];
    }
  }

  method ContainsFinalizer(f: seq<string>, x: string) returns (r: bool)
    ensures r <==> x in f
  {
    for i := 0 to |f|
      invariant x !in f[..i]
    {
      if f[i] == x {
        return true;
      }
    }
    return false;
  }

  /** The index steps back after a removal, so that no occurrence is skipped. */
  method RemoveFinalizer(finalizers: seq<string>, x: string) returns (f: seq<string>, updated: bool)
    ensures f == Without(finalizers, x)
    ensures updated <==> x in finalizers
  {
    f, updated := finalizers, false;
    var i := 0;
    while i < |f|
      invariant 0 <= i <= |f|
      invariant x !in f[..i]
      invariant Without(f, x) == Without(finalizers, x)
      invariant if updated then x in finalizers else f == finalizers
      decreases |f| - i
    {
      if f[i] == x {
        WithoutSkips(f, i, x);
        ghost var before := f[..i];
        f := f[..i] + f[i + 1..];
        updated := true;
        assert f[..i] == before;
      } else {
        i := i + 1;
      }
    }
    assert f[..i] == f;
    WithoutMeaning(f, x, x);
  }

  // ------------------------------------------------------------- the API server

  predicate HasFinalizer(r: Repo) {
    FINALIZER in r.finalizers
  }

  function Marked(c: Cluster, r: Repo): set<nat> {
    if HasFinalizer(r) then c.finalized + {r.uid} else c.finalized
  }

  /** Stores a new state of an existing object; a deleted object goes with its last
      finalizer. */
  function Store(c: Cluster, key: Key, was: Repo, now: Repo): Cluster {
    var r := now.(version := c.stamp);
    if r.deleting && r.finalizers == [] then
      c.(repos := c.repos - {key}, events := c.events + [Deleted(key, r)], stamp := c.stamp + 1)
    else
      c.(repos := c.repos[key := r], events := c.events + [Updated(key, was, r)], stamp := c.stamp + 1,
        finalized := Marked(c, r))
  }

  /** An update succeeds only against the version that the client has seen. */
  function ApiUpdate(c: Cluster, key: Key, obj: Repo): Cluster {
    if key in c.repos && c.repos[key].version == obj.version && c.repos[key].uid == obj.uid
    then Store(c, key, c.repos[key], obj)
    else c
  }

  function DeleteCronJob(c: Cluster, name: string): Cluster {
    if name in c.cronJobs then c.(cronJobs := c.cronJobs - {name}, events := c.events + [CronJobGone(c.cronJobs[name])])
    else c
  }

  // ------------------------------------------------------------- handlers

  /** The CronJob and its state after `ensureCronJob`; the flag is false on an error. */
  function EnsureCronJob(conf: Config, c: Cluster, key: Key, repo: Repo, api: Api): (Cluster, bool) {
    if !api.cronJobOk then (c, false)
    else
      var cronJob := CronJob(key, repo.spec, key.namespace == conf.kubeappsNamespace);
      var c1 := c.(cronJobs := c.cronJobs[conf.cronJobName(key) := cronJob]);
      if !api.syncJobOk then (c1, false) else (c1.(jobs := c1.jobs + [SyncJob(key)]), true)
  }

  function CleanUpAppRepo(conf: Config, c: Cluster, key: Key, repo: Repo, api: Api): Cluster {
    if !api.cleanupJobOk then c
    else
      var c1 := c.(jobs := c.jobs + [CleanupJob(key, repo.uid)]);
      if api.deleteOk then DeleteCronJob(c1, conf.cronJobName(key)) else c1
  }

  /** A failed clean-up does not keep the finalizer. */
  function HandleCleanupFinalizer(conf: Config, c: Cluster, key: Key, repo: Repo, api: Api): Cluster {
    var c1 := CleanUpAppRepo(conf, c, key, repo, api);
    if !HasFinalizer(repo) || !api.updateOk then c1
    else ApiUpdate(c1, key, repo.(finalizers := Without(repo.finalizers, FINALIZER)))
  }

  function SyncHandler(conf: Config, c: Cluster, key: Key, api: Api): Cluster {
    if key !in c.repos then c
    else
      var repo := c.repos[key];
      var (c1, ok) := EnsureCronJob(conf, c, key, repo, api);
      if !ok then c1
      else if !repo.deleting then
        if HasFinalizer(repo) || !api.updateOk then c1
        else ApiUpdate(c1, key, repo.(finalizers := repo.finalizers + [FINALIZER]))
      else if HasFinalizer(repo) then HandleCleanupFinalizer(conf, c1, key, repo, api)
      else c1
  }

  function HandleMetaChange(conf: Config, c: Cluster, key: Key, obj: Repo, gone: bool, api: Api): Cluster {
    if !obj.deleting || !HasFinalizer(obj) then c
    else if gone then c.(queue := c.queue + {key})
    else HandleCleanupFinalizer(conf, c, key, obj, api)
  }

  function HandleEvent(conf: Config, c: Cluster, e: Event, api: Api): Cluster {
    match e
    case Added(key) => c.(queue := c.queue + {key})
    case Updated(key, was, now) =>
      if was.spec != now.spec then c.(queue := c.queue + {key}) else HandleMetaChange(conf, c, key, now, false, api)
    case Deleted(key, last) => HandleMetaChange(conf, c, key, last, true, api)
    case CronJobGone(cronJob) =>
      if cronJob.controlled && cronJob.owner in c.repos && !c.repos[cronJob.owner].deleting
      then c.(queue := c.queue + {cronJob.owner})
      else c
  }

  // ------------------------------------------------------------- steps

  datatype Step =
    | Create(key: Key, spec: string, finalizers: seq<string>)
    | Edit(key: Key, spec: string)
    | Delete(key: Key)
    | Notify(api: Api)
    | Work(key: Key, api: Api)

  predicate Enabled(c: Cluster, l: Step) {
    match l
    case Create(key, _, _) => key !in c.repos
    case Edit(key, _) => key in c.repos
    case Delete(key) => key in c.repos && !c.repos[key].deleting
    case Notify(_) => c.events != []
    case Work(key, _) => key in c.queue
  }

  function Next(conf: Config, c: Cluster, l: Step): Cluster
    requires Enabled(c, l)
  {
    match l
    case Create(key, spec, finalizers) =>
      var r := Repo(c.stamp, c.stamp, spec, finalizers, false);
      c.(repos := c.repos[key := r], events := c.events + [Added(key)], stamp := c.stamp + 1, finalized := Marked(c, r))
    case Edit(key, spec) => Store(c, key, c.repos[key], c.repos[key].(spec := spec))
    case Delete(key) => Store(c, key, c.repos[key], c.repos[key].(deleting := true))
    case Notify(api) => HandleEvent(conf, c.(events := c.events[1..]), c.events[0], api)
    case Work(key, api) => SyncHandler(conf, c.(queue := c.queue - {key}), key, api)
  }

  function Start(): Cluster {
    Cluster(map[], map[], [], [], {}, 0, {})
  }
}
