/** The controller's handlers in place, on an object that holds the cluster they act on. */
module ControllerObject {
  import opened Controller
  import opened ControllerProtocol

  class AppRepoController {
    const conf: Config
    var repos: map<Key, Repo>
    var cronJobs: map<string, CronJob>
    var jobs: seq<Job>
    var events: seq<Event>
    var queue: set<Key>
    var stamp: nat
    ghost var finalized: set<nat>

    ghost function View(): Cluster
      reads this
    {
      Cluster(repos, cronJobs, jobs, events, queue, stamp, finalized)
    }

    /** The protocol's invariant. */
    ghost predicate Valid()
      reads this
    {
      Inv(conf, View())
    }

    constructor (conf: Config)
      ensures this.conf == conf && View() == Start() && Valid()
    {
      this.conf := conf;
      repos, cronJobs, jobs, events, queue, stamp, finalized := map[], map[], [], [], {}, 0, {};
    }

    method Update(key: Key, obj: Repo)
      modifies this
      ensures View() == ApiUpdate(old(View()), key, obj)
    {
      if key !in repos || repos[key].version != obj.version || repos[key].uid != obj.uid {
        return;
      }
      var r := obj.(version := stamp);
      if r.deleting && r.finalizers == [] {
        repos := repos - {key};
        events := events + [Deleted(key, r)];
      } else {
        finalized := Marked(View(), r);
        events := events + [Updated(key, repos[key], r)];
        repos := repos[key := r];
      }
      stamp := stamp + 1;
    }

    method MakeCronJob(key: Key, repo: Repo, api: Api) returns (ok: bool)
      modifies this
      ensures (View(), ok) == EnsureCronJob(conf, old(View()), key, repo, api)
      ensures old(Valid()) && api == ALL_OK && old(Finalized(View(), key)) ==> Valid()
    {
      if Valid() && api == ALL_OK {
        EnsureKeeps(conf, View(), key, repo);
      }
      if !api.cronJobOk {
        return false;
      }
      cronJobs := cronJobs[conf.cronJobName(key) := CronJob(key, repo.spec, key.namespace == conf.kubeappsNamespace)];
      if !api.syncJobOk {
        return false;
      }
      jobs := jobs + [SyncJob(key)];
      return true;
    }

    method CleanUp(key: Key, repo: Repo, api: Api)
      modifies this
      ensures View() == CleanUpAppRepo(conf, old(View()), key, repo, api)
      ensures old(Valid()) && api == ALL_OK
        ==> Valid() && Cleaned(View(), repo.uid) && conf.cronJobName(key) !in cronJobs
    {
      if Valid() && api == ALL_OK {
        CleanUpKeepsInv(conf, View(), key, repo);
      }
      if !api.cleanupJobOk {
        return;
      }
      jobs := jobs + [CleanupJob(key, repo.uid)];
      var name := conf.cronJobName(key);
      if api.deleteOk && name in cronJobs {
        events := events + [CronJobGone(cronJobs[name])];
        cronJobs := cronJobs - {name};
      }
    }

    method Finalize(key: Key, repo: Repo, api: Api)
      modifies this
      ensures View() == HandleCleanupFinalizer(conf, old(View()), key, repo, api)
    {
      CleanUp(key, repo, api);
      var kept, updated := RemoveFinalizer(repo.finalizers, FINALIZER);
      if updated && api.updateOk {
        Update(key, repo.(finalizers := kept));
      }
    }

    method Sync(key: Key, api: Api)
      modifies this
      ensures View() == SyncHandler(conf, old(View()), key, api)
      ensures old(Valid()) && api == ALL_OK ==> Valid()
    {
      if Valid() && api == ALL_OK {
        SyncKeepsInv(conf, View(), key);
      }
      if key !in repos {
        return;
      }
      var repo := repos[key];
      var ok := MakeCronJob(key, repo, api);
      if !ok {
        return;
      }
      var has := ContainsFinalizer(repo.finalizers, FINALIZER);
      if !repo.deleting {
        if !has && api.updateOk {
          Update(key, repo.(finalizers := repo.finalizers + [FINALIZER]));
        }
      } else if has {
        Finalize(key, repo, api);
      }
    }

    method MetaChanged(key: Key, obj: Repo, gone: bool, api: Api)
      modifies this
      ensures View() == HandleMetaChange(conf, old(View()), key, obj, gone, api)
      ensures old(Valid() && EventOk(View(), Updated(key, obj, obj))) && api == ALL_OK ==> Valid()
    {
      if Valid() && EventOk(View(), Updated(key, obj, obj)) && api == ALL_OK {
        EventKeepsInv(conf, View(), Updated(key, obj, obj));
        EventKeepsInv(conf, View(), Deleted(key, obj));
      }
      var has := ContainsFinalizer(obj.finalizers, FINALIZER);
      if obj.deleting && has {
        if gone {
          queue := queue + {key};
        } else {
          Finalize(key, obj, api);
        }
      }
    }

    method OnUpdate(key: Key, was: Repo, now: Repo, api: Api)
      modifies this
      ensures View() == HandleEvent(conf, old(View()), Updated(key, was, now), api)
      ensures old(Valid() && EventOk(View(), Updated(key, was, now))) && api == ALL_OK ==> Valid()
    {
      if Valid() && EventOk(View(), Updated(key, was, now)) && api == ALL_OK {
        EventKeepsInv(conf, View(), Updated(key, was, now));
      }
      if was.spec != now.spec {
        queue := queue + {key};
      } else {
        MetaChanged(key, now, false, api);
      }
    }

    method OnOwnedObjectDeleted(cronJob: CronJob)
      modifies this
      ensures View() == HandleEvent(conf, old(View()), CronJobGone(cronJob), ALL_OK)
      ensures old(Valid()) ==> Valid()
    {
      if Valid() {
        EventKeepsInv(conf, View(), CronJobGone(cronJob));
      }
      if cronJob.controlled && cronJob.owner in repos {
        if !repos[cronJob.owner].deleting {
          queue := queue + {cronJob.owner};
        }
      }
    }

    /** The next notification goes to its handler. */
    method Notified(api: Api)
      requires events != []
      modifies this
      ensures View() == Next(conf, old(View()), Notify(api))
    {
      var e := events[0];
      events := events[1..];
      match e
      case Added(key) => queue := queue + {key};
      case Updated(key, was, now) => OnUpdate(key, was, now, api);
      case Deleted(key, last) => MetaChanged(key, last, true, api);
      case CronJobGone(cronJob) => OnOwnedObjectDeleted(cronJob);
    }

    /** A user stores a new state of an object, without a version of their own. */
    method UserStores(key: Key, now: Repo)
      requires key in repos && now.uid == repos[key].uid && now.version == repos[key].version
      modifies this
      ensures View() == Store(old(View()), key, old(repos)[key], now)
    {
      Update(key, now);
    }

    /** One step of a user, a notification or a worker. */
    method Take(l: Step)
      requires Enabled(View(), l)
      modifies this
      ensures View() == Next(conf, old(View()), l)
      ensures old(Valid()) && Allowed(l) ==> Valid()
    {
      if Valid() && Allowed(l) {
        StepKeepsInv(conf, View(), l);
      }
      match l
      case Create(key, spec, finalizers) =>
        var r := Repo(stamp, stamp, spec, finalizers, false);
        finalized := Marked(View(), r);
        repos := repos[key := r];
        events := events + [Added(key)];
        stamp := stamp + 1;
      case Edit(key, spec) => UserStores(key, repos[key].(spec := spec));
      case Delete(key) => UserStores(key, repos[key].(deleting := true));
      case Notify(api) => Notified(api);
      case Work(key, api) =>
        queue := queue - {key};
        Sync(key, api);
    }

    predicate CanTake(l: Step)
      reads this
      ensures CanTake(l) <==> Enabled(View(), l)
    {
      match l
      case Create(key, _, _) => key !in repos
      case Edit(key, _) => key in repos
      case Delete(key) => key in repos && !repos[key].deleting
      case Notify(_) => events != []
      case Work(key, _) => key in queue
    }

    /** Any steps, those that are not enabled left out: afterwards a CronJob exists only while
        its repository is in the API with the finalizer. */
    method Drive(steps: seq<Step>)
      requires Valid() && forall i :: 0 <= i < |steps| ==> Allowed(steps[i])
      modifies this
      ensures Valid()
      ensures forall name :: name in cronJobs ==> Finalized(View(), cronJobs[name].owner)
    {
      for i := 0 to |steps|
        invariant Valid()
      {
        if CanTake(steps[i]) {
          Take(steps[i]);
        }
      }
    }
  }
}
