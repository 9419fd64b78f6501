/** One pull job of an OCI repository: pulling the listed versions of an application
    and adding them to the chart that is already stored. */
module OciPull {
  import opened Prelude
  import opened Versions
  import opened Catalogue
  import opened ChartNames

  /** What pulling one tag yields: the metadata of the chart found there. */
  datatype Pulled = Pulled(name: string, about: string, version: Version, digest: string)

  /** The registry's answer for an application and a tag; None is a failed pull. */
  type Registry = (string, Version) -> Option<Pulled>

  /** `chart` is the stored chart, when the application was synchronised before. */
  datatype PullJob = PullJob(app: string, versions: seq<Version>, chart: Option<Chart>)

  datatype PullResult = PullResult(chart: Chart, errors: nat)

  function PulledVersion(p: Pulled): ChartVersion {
    ChartVersion(p.version, p.digest)
  }

  function PulledChart(repo: string, app: string, p: Pulled): Chart {
    Chart(ChartId(repo, app), p.name, p.about, [PulledVersion(p)])
  }

  /** The versions whose pull succeeds, in order. */
  function Successes(pull: Registry, app: string, versions: seq<Version>): (r: seq<ChartVersion>)
    ensures |r| <= |versions|
  {
    if versions == [] then []
    else
      var p := pull(app, versions[0]);
      (if p.Some? then [PulledVersion(p.value)] else []) + Successes(pull, app, versions[1..])
  }

  /** The chart after the listed pulls: the first success founds a chart that is not
      stored yet, later ones only contribute their version. */
  function PullAll(pull: Registry, repo: string, app: string, versions: seq<Version>,
      chart: Option<Chart>): (r: Option<Chart>)
    decreases |versions|
  {
    if versions == [] then chart
    else
      var p := pull(app, versions[0]);
      var chart' :=
        if p.None? then chart
        else if chart.None? then Some(PulledChart(repo, app, p.value))
        else Some(chart.value.(versions := chart.value.versions + [PulledVersion(p.value)]));
      PullAll(pull, repo, app, versions[1..], chart')
  }

  /** The result of a job; None when the worker dereferences a chart that never came. */
  function RunJob(pull: Registry, repo: string, job: PullJob): (r: Option<PullResult>) {
    var chart := PullAll(pull, repo, job.app, job.versions, job.chart);
    if chart.None? then None
    else Some(PullResult(
      chart.value.(versions := SortDescending(VersionOf, chart.value.versions)),
      |job.versions| - |Successes(pull, job.app, job.versions)|))
  }

  lemma {:induction false} PullAllMeaning(pull: Registry, repo: string, app: string, versions: seq<Version>,
      chart: Option<Chart>)
    ensures var r := PullAll(pull, repo, app, versions, chart);
      && (r.None? <==> chart.None? && Successes(pull, app, versions) == [])
      && (r.Some? ==>
            r.value.versions == (if chart.Some? then chart.value.versions else []) + Successes(pull, app, versions))
      && (chart.Some? ==>
            r.value.id == chart.value.id && r.value.name == chart.value.name && r.value.about == chart.value.about)
      && (r.Some? && chart.None? ==> r.value.id == ChartId(repo, app))
      && (r.Some? && chart.None? ==>
            exists v :: v in versions && pull(app, v).Some? && pull(app, v).value.name == r.value.name)
    decreases |versions|
  {
    if versions != [] {
      var p := pull(app, versions[0]);
      var rest := Successes(pull, app, versions[1..]);
      var chart' :=
        if p.None? then chart
        else if chart.None? then Some(PulledChart(repo, app, p.value))
        else Some(chart.value.(versions := chart.value.versions + [PulledVersion(p.value)]));
      PullAllMeaning(pull, repo, app, versions[1..], chart');
      if p.Some? && chart.Some? {
        assert chart.value.versions + [PulledVersion(p.value)] + rest
          == chart.value.versions + ([PulledVersion(p.value)] + rest);
      }
      if chart.None? && p.Some? {
        assert versions[0] in versions && pull(app, versions[0]).value.name == p.value.name;
      }
    }
  }

  /** A job loses no version and invents none: the result holds what was stored and every
      successful pull, newest first, and counts the failed pulls. The worker crashes
      exactly when nothing was stored and every pull fails. */
  lemma RunJobMeaning(pull: Registry, repo: string, job: PullJob)
    ensures var r := RunJob(pull, repo, job);
      && (r.None? <==> job.chart.None? && forall v :: v in job.versions ==> pull(job.app, v).None?)
      && (r.Some? ==>
            && Descending(VersionOf, r.value.chart.versions)
            && multiset(r.value.chart.versions) == multiset(if job.chart.Some? then job.chart.value.versions else [])
                                                    + multiset(Successes(pull, job.app, job.versions))
            && r.value.errors + |Successes(pull, job.app, job.versions)| == |job.versions|
            && (job.chart.Some? ==>
                  r.value.chart.id == job.chart.value.id && r.value.chart.name == job.chart.value.name)
            && (job.chart.None? ==> r.value.chart.id == ChartId(repo, job.app) && r.value.chart.versions != [])
            && (job.chart.None? ==>
                  exists v :: v in job.versions && pull(job.app, v).Some?
                              && pull(job.app, v).value.name == r.value.chart.name))
  {
    PullAllMeaning(pull, repo, job.app, job.versions, job.chart);
    NoSuccess(pull, job.app, job.versions);
    var chart := PullAll(pull, repo, job.app, job.versions, job.chart);
    if chart.Some? {
      SortIsDescending(VersionOf, chart.value.versions);
    }
  }

  lemma {:induction false} NoSuccess(pull: Registry, app: string, versions: seq<Version>)
    ensures Successes(pull, app, versions) == [] <==> forall v :: v in versions ==> pull(app, v).None?
  {
    if versions != [] {
      NoSuccess(pull, app, versions[1..]);
      assert versions == [versions[0]] + versions[1..];
    }
  }

  lemma {:induction false} SuccessesAppend(pull: Registry, app: string, a: seq<Version>, v: Version)
    ensures Successes(pull, app, a + [v])
         == Successes(pull, app, a) + (if pull(app, v).Some? then [PulledVersion(pull(app, v).value)] else [])
  {
    if a == [] {
      assert [v][1..] == [];
    } else {
      SuccessesAppend(pull, app, a[1..], v);
      assert (a + [v])[0] == a[0] && (a + [v])[1..] == a[1..] + [v];
      var head := if pull(app, a[0]).Some? then [PulledVersion(pull(app, a[0]).value)] else [];
      var last := if pull(app, v).Some? then [PulledVersion(pull(app, v).value)] else [];
      assert head + (Successes(pull, app, a[1..]) + last) == (head + Successes(pull, app, a[1..])) + last;
    }
  }

  /** The worker's loop over the versions of one job. */
  method ImportChart(pull: Registry, repo: string, job: PullJob) returns (r: Option<PullResult>)
    ensures r == RunJob(pull, repo, job)
  {
    var chart := job.chart;
    var errors := 0;
    for i := 0 to |job.versions|
      invariant PullAll(pull, repo, job.app, job.versions[i..], chart)
        == PullAll(pull, repo, job.app, job.versions, job.chart)
      invariant errors + |Successes(pull, job.app, job.versions[..i])| == i
    {
      assert job.versions[i..][0] == job.versions[i] && job.versions[i..][1..] == job.versions[i + 1..];
      assert job.versions[..i + 1] == job.versions[..i] + [job.versions[i]];
      SuccessesAppend(pull, job.app, job.versions[..i], job.versions[i]);
      var p := pull(job.app, job.versions[i]);
      match p
      case None =>
        errors := errors + 1;
      case Some(found) =>
        if chart.None? {
          chart := Some(PulledChart(repo, job.app, found));
        } else {
          chart := Some(chart.value.(versions := chart.value.versions + [PulledVersion(found)]));
        }
    }
    assert job.versions[..|job.versions|] == job.versions;
    if chart.None? {
      return None;
    }
    return Some(PullResult(chart.value.(versions := SortDescending(VersionOf, chart.value.versions)), errors));
  }
}
