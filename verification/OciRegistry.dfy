/** `OCIRegistry.Charts`: which versions of which applications a pass of an OCI
    repository pulls, and which stored charts it schedules for deletion. */
module OciRegistry {
  import opened Prelude
  import opened Versions
  import opened Catalogue
  import opened OciPull

  const MAX_VERSIONS_FOR_ONE_SYNC := 5

  /** A registry as a pass sees it. A tag list is None when listing fails; a tag is None
      when it is not a semantic version. */
  datatype Remote = Remote(repo: RepoKey, apps: seq<string>, tags: string -> Option<seq<Option<Version>>>,
      pull: Registry)

  function Self(v: Version): Version {
    v
  }

  function Parsed(tags: seq<Option<Version>>): (r: Option<seq<Version>>)
    ensures r.Some? <==> forall i :: 0 <= i < |tags| ==> tags[i].Some?
    ensures r.Some? ==> |r.value| == |tags| && forall i :: 0 <= i < |tags| ==> tags[i] == Some(r.value[i])
  {
    if tags == [] then Some([])
    else
      var rest := Parsed(tags[1..]);
      if tags[0].None? || rest.None? then None else Some([tags[0].value] + rest.value)
  }

  /** Tags in descending order; None is the crash on a tag that is no version. */
  function Ordered(tags: seq<Option<Version>>): (r: Option<seq<Version>>) {
    var vs := Parsed(tags);
    if vs.None? then None else Some(SortDescending(Self, vs.value))
  }

  method OrderVersions(tags: seq<Option<Version>>) returns (r: Option<seq<Version>>)
    ensures r == Ordered(tags)
    ensures r.Some? ==> Descending(Self, r.value) && |r.value| == |tags|
  {
    var vs := [];
    for i := 0 to |tags|
      invariant |vs| == i && forall k :: 0 <= k < i ==> tags[k] == Some(vs[k])
    {
      if tags[i].None? {
        return None;
      }
      vs := vs + [tags[i].value];
    }
    assert Parsed(tags).value == vs;
    SortIsDescending(Self, vs);
    return Some(SortDescending(Self, vs));
  }

  function VersionsOf(chart: Option<Chart>): (r: seq<Version>) {
    if chart.None? then [] else Map(VersionOf, chart.value.versions)
  }

  /** The tags that are not stored yet, in the order of the tags. */
  function Unsynced(tags: seq<Version>, synced: seq<Version>): (r: seq<Version>) {
    if tags == [] then []
    else (if tags[0] in synced then [] else [tags[0]]) + Unsynced(tags[1..], synced)
  }

  function Lookup(synced: map<string, Chart>, app: string): Option<Chart> {
    if app in synced then Some(synced[app]) else None
  }

  function Limit(shallow: bool): nat {
    if shallow then 1 else MAX_VERSIONS_FOR_ONE_SYNC
  }

  function FirstFew(limit: nat, vs: seq<Version>): (r: seq<Version>) {
    if |vs| > limit then vs[..limit] else vs
  }

  /** The job of an application: its newest versions that are not stored, if any. */
  function JobFor(synced: map<string, Chart>, app: string, tags: seq<Version>, shallow: bool): (r: Option<PullJob>) {
    var chart := Lookup(synced, app);
    var versions := Unsynced(tags, VersionsOf(chart));
    if versions == [] then None else Some(PullJob(app, FirstFew(Limit(shallow), versions), chart))
  }

  /** What the producer queues, and whether it crashes then. */
  datatype Queue = Queue(jobs: seq<PullJob>, crashes: bool)

  /** A failing tag list ends the queue early, a tag that is no version crashes. */
  function QueueJobs(remote: Remote, apps: seq<string>, synced: map<string, Chart>, shallow: bool): (r: Queue) {
    if apps == [] then Queue([], false)
    else
      var tags := remote.tags(apps[0]);
      if tags.None? then Queue([], false)
      else
        var ordered := Ordered(tags.value);
        if ordered.None? then Queue([], true)
        else
          var rest := QueueJobs(remote, apps[1..], synced, shallow);
          var job := JobFor(synced, apps[0], ordered.value, shallow);
          Prefixed(if job.Some? then [job.value] else [], rest)
  }

  function Prefixed(jobs: seq<PullJob>, rest: Queue): Queue {
    Queue(jobs + rest.jobs, rest.crashes)
  }

  lemma PrefixedNext(jobs: seq<PullJob>, job: Option<PullJob>, rest: Queue)
    ensures Prefixed(jobs, Prefixed(if job.Some? then [job.value] else [], rest))
         == Prefixed(jobs + (if job.Some? then [job.value] else []), rest)
  {
    var one := if job.Some? then [job.value] else [];
    assert jobs + (one + rest.jobs) == jobs + one + rest.jobs;
  }

  /** The producer's loop over the applications. */
  method BuildJobs(remote: Remote, synced: map<string, Chart>, shallow: bool) returns (r: Queue)
    ensures r == QueueJobs(remote, remote.apps, synced, shallow)
  {
    var jobs := [];
    ghost var all := QueueJobs(remote, remote.apps, synced, shallow);
    assert remote.apps[0..] == remote.apps;
    assert [] + all.jobs == all.jobs;
    for i := 0 to |remote.apps|
      invariant all == Prefixed(jobs, QueueJobs(remote, remote.apps[i..], synced, shallow))
    {
      var app := remote.apps[i];
      assert remote.apps[i..][0] == app && remote.apps[i..][1..] == remote.apps[i + 1..];
      var tags := remote.tags(app);
      if tags.None? {
        assert jobs + [] == jobs;
        return Queue(jobs, false);
      }
      var ordered := OrderVersions(tags.value);
      if ordered.None? {
        assert jobs + [] == jobs;
        return Queue(jobs, true);
      }
      var job := MakeJob(synced, app, ordered.value, shallow);
      PrefixedNext(jobs, job, QueueJobs(remote, remote.apps[i + 1..], synced, shallow));
      if job.Some? {
        jobs := jobs + [job.value];
      } else {
        assert jobs + [] == jobs;
      }
    }
    assert jobs + [] == jobs;
    return Queue(jobs, false);
  }

  method MakeJob(synced: map<string, Chart>, app: string, tags: seq<Version>, shallow: bool)
    returns (r: Option<PullJob>)
    ensures r == JobFor(synced, app, tags, shallow)
  {
    var chart := Lookup(synced, app);
    var syncedVersions := [];
    if chart.Some? {
      for i := 0 to |chart.value.versions|
        invariant syncedVersions == Map(VersionOf, chart.value.versions[..i])
      {
        assert chart.value.versions[..i + 1] == chart.value.versions[..i] + [chart.value.versions[i]];
        MapConcat(VersionOf, chart.value.versions[..i], [chart.value.versions[i]]);
        syncedVersions := syncedVersions + [chart.value.versions[i].version];
      }
      assert chart.value.versions[..|chart.value.versions|] == chart.value.versions;
    }
    var versionsToSync := SelectUnsynced(tags, syncedVersions);
    if versionsToSync == [] {
      return None;
    }
    return Some(PullJob(app, FirstFew(Limit(shallow), versionsToSync), chart));
  }

  method SelectUnsynced(tags: seq<Version>, synced: seq<Version>) returns (r: seq<Version>)
    ensures r == Unsynced(tags, synced)
  {
    r := [];
    for i := 0 to |tags|
      invariant r + Unsynced(tags[i..], synced) == Unsynced(tags, synced)
    {
      assert tags[i..][0] == tags[i] && tags[i..][1..] == tags[i + 1..];
      ghost var rest := Unsynced(tags[i + 1..], synced);
      if tags[i] !in synced {
        assert r + ([tags[i]] + rest) == (r + [tags[i]]) + rest;
        r := r + [tags[i]];
      } else {
        assert [] + rest == rest;
      }
    }
    assert r + [] == r;
  }

  /** Stored charts whose name is no longer one of the repository's applications. */
  method ChartsForDeletion(synced: map<string, Chart>, apps: seq<string>) returns (names: set<string>)
    ensures names == set n | n in synced && n !in apps
  {
    names := {};
    var todo := synced.Keys;
    while todo != {}
      invariant todo <= synced.Keys
      invariant names == set n | n in synced.Keys - todo && n !in apps
      decreases todo
    {
      var n :| n in todo;
      if n !in apps {
        names := names + {n};
      }
      todo := todo - {n};
    }
  }
}
