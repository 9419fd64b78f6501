/** The three tables of the asset database, with their unique keys and cascading
    foreign keys, and the operations that the synchroniser performs on them. */
module Catalogue {
  import opened Prelude
  import opened Versions

  datatype ChartVersion = ChartVersion(version: Version, digest: string)

  /** `about` stands for the descriptive metadata, which is copied but never inspected. */
  datatype Chart = Chart(id: string, name: string, about: string, versions: seq<ChartVersion>)

  datatype RepoKey = RepoKey(namespace: string, name: string)
  datatype ChartKey = ChartKey(repo: RepoKey, id: string)
  datatype FilesId = FilesId(chartId: string, version: Version)
  datatype FilesKey = FilesKey(namespace: string, id: FilesId)
  datatype FilesRow = FilesRow(chart: ChartKey, digest: string)

  /** `repos` maps a repository to its checksum, "" when there is none yet. */
  datatype DB = DB(repos: map<RepoKey, string>, charts: map<ChartKey, Chart>, files: map<FilesKey, FilesRow>)

  function VersionOf(cv: ChartVersion): Version {
    cv.version
  }

  /** The foreign keys: a chart row has its repository, a files row has its chart. */
  ghost predicate Consistent(db: DB) {
    && (forall k :: k in db.charts ==> k.repo in db.repos && db.charts[k].id == k.id)
    && (forall f :: f in db.files ==> db.files[f].chart in db.charts && db.files[f].chart.repo.namespace == f.namespace)
  }

  ghost predicate OnlyRepoChanged(db: DB, db': DB, repo: RepoKey) {
    && (forall r :: r != repo ==>
          (r in db.repos <==> r in db'.repos) && (r in db.repos ==> db.repos[r] == db'.repos[r]))
    && (forall k: ChartKey :: k.repo != repo ==>
          (k in db.charts <==> k in db'.charts) && (k in db.charts ==> db.charts[k] == db'.charts[k]))
  }

  function EnsureRepo(db: DB, repo: RepoKey): (r: DB) {
    if repo in db.repos then db else db.(repos := db.repos[repo := ""])
  }

  function LastChecksum(db: DB, repo: RepoKey): (r: string) {
    if repo in db.repos then db.repos[repo] else ""
  }

  function UpdateLastCheck(db: DB, repo: RepoKey, checksum: string): (r: DB)
    ensures Consistent(db) ==> Consistent(r)
    ensures OnlyRepoChanged(db, r, repo)
  {
    db.(repos := db.repos[repo := checksum])
  }

  function UpsertChart(db: DB, repo: RepoKey, chart: Chart): (r: DB)
    ensures Consistent(db) ==> Consistent(r)
    ensures OnlyRepoChanged(db, r, repo)
  {
    var db1 := EnsureRepo(db, repo);
    db1.(charts := db1.charts[ChartKey(repo, chart.id) := chart])
  }

  /** Deletes the repository's charts with one of the names; their files cascade. */
  function RemoveMissing(db: DB, repo: RepoKey, names: set<string>): (r: DB)
    ensures Consistent(db) ==> Consistent(r)
    ensures OnlyRepoChanged(db, r, repo)
    ensures forall k :: k in r.charts <==> k in db.charts && !(k.repo == repo && db.charts[k].name in names)
  {
    var kept := map k | k in db.charts && !(k.repo == repo && db.charts[k].name in names) :: db.charts[k];
    DB(db.repos, kept,
       map f | f in db.files && (db.files[f].chart in kept || db.files[f].chart !in db.charts) :: db.files[f])
  }

  function DeleteRepo(db: DB, repo: RepoKey): (r: DB)
    ensures Consistent(db) ==> Consistent(r)
    ensures OnlyRepoChanged(db, r, repo)
    ensures repo !in r.repos && forall k: ChartKey :: k in r.charts ==> k.repo != repo
  {
    DB(map x | x in db.repos && x != repo :: db.repos[x],
       map k | k in db.charts && k.repo != repo :: db.charts[k],
       map f | f in db.files && db.files[f].chart.repo != repo :: db.files[f])
  }

  predicate FilesExist(db: DB, chart: ChartKey, version: Version, digest: string) {
    var k := FilesKey(chart.repo.namespace, FilesId(chart.id, version));
    k in db.files && db.files[k].chart.repo == chart.repo && db.files[k].digest == digest
  }

  /** None is the foreign-key error of a new files row without its chart. */
  function InsertFiles(db: DB, chart: ChartKey, version: Version, digest: string): (r: Option<DB>)
    ensures Consistent(db) && r.Some? ==> Consistent(r.value)
    ensures r.Some? ==> r.value.charts == db.charts && r.value.repos == db.repos
    ensures chart in db.charts ==> r.Some?
  {
    var k := FilesKey(chart.repo.namespace, FilesId(chart.id, version));
    if k in db.files then Some(db.(files := db.files[k := db.files[k].(digest := digest)]))
    else if chart !in db.charts then None
    else Some(db.(files := db.files[k := FilesRow(chart, digest)]))
  }

  // ------------------------------------------------------- charts of one repository

  ghost predicate NamesUnique(db: DB, repo: RepoKey) {
    forall k, l ::
      (k in db.charts && l in db.charts && k.repo == repo == l.repo && db.charts[k].name == db.charts[l].name)
      ==> k == l
  }

  ghost function NamesIn(db: DB, repo: RepoKey): set<string> {
    set k | k in db.charts && k.repo == repo :: db.charts[k].name
  }

  ghost function ChartsByName(db: DB, repo: RepoKey): map<string, Chart>
    requires NamesUnique(db, repo)
  {
    map k | k in db.charts && k.repo == repo :: db.charts[k].name := db.charts[k]
  }

  ghost predicate IsChartsByName(db: DB, repo: RepoKey, m: map<string, Chart>) {
    && m.Keys == NamesIn(db, repo)
    && (forall n :: n in m ==> m[n].name == n && exists k :: k in db.charts && k.repo == repo && db.charts[k] == m[n])
  }

  lemma ChartsByNameIsUnique(db: DB, repo: RepoKey, m: map<string, Chart>)
    requires NamesUnique(db, repo) && IsChartsByName(db, repo, m)
    ensures m == ChartsByName(db, repo)
  {
    var t := ChartsByName(db, repo);
    assert t.Keys == NamesIn(db, repo);
    forall n | n in m ensures m[n] == t[n] {
      var k :| k in db.charts && k.repo == repo && db.charts[k] == m[n];
      var l :| l in db.charts && l.repo == repo && db.charts[l] == t[n] && db.charts[l].name == n;
    }
  }

  // ---------------------------------------------------------- the asset manager

  class PostgresAssetManager {
    var repos: map<RepoKey, string>
    var charts: map<ChartKey, Chart>
    var files: map<FilesKey, FilesRow>

    function View(): DB
      reads this
    {
      DB(repos, charts, files)
    }

    /** The foreign keys hold. */
    ghost predicate Valid()
      reads this
    {
      Consistent(View())
    }

    constructor ()
      ensures Valid() && View() == DB(map[], map[], map[])
    {
      repos, charts, files := map[], map[], map[];
    }

    /** A repository that was not there counts as never processed, before and after. */
    method EnsureRepoExists(repo: RepoKey)
      requires Valid()
      modifies this`repos
      ensures Valid() && repo in repos && View() == EnsureRepo(old(View()), repo)
      ensures forall r :: LastChecksum(View(), r) == old(LastChecksum(View(), r))
    {
      if repo !in repos {
        repos := repos[repo := ""];
      }
    }

    method Sync(repo: RepoKey, chart: Chart)
      requires Valid()
      modifies this`repos, this`charts
      ensures Valid() && View() == UpsertChart(old(View()), repo, chart)
      ensures forall r :: LastChecksum(View(), r) == old(LastChecksum(View(), r))
    {
      EnsureRepoExists(repo);
      charts := charts[ChartKey(repo, chart.id) := chart];
    }

    /** Without a checksum the repository is unknown or was never processed to the end. */
    method ReadLastChecksum(repo: RepoKey) returns (checksum: string)
      ensures checksum == LastChecksum(View(), repo)
      ensures checksum == "" <==> (repo in repos ==> repos[repo] == "")
    {
      checksum := "";
      if repo in repos {
        checksum := repos[repo];
      }
    }

    /** The checksum is read back, and every other repository keeps its own. */
    method StoreLastCheck(repo: RepoKey, checksum: string)
      requires Valid()
      modifies this`repos
      ensures Valid() && View() == UpdateLastCheck(old(View()), repo, checksum)
      ensures forall r :: LastChecksum(View(), r) == if r == repo then checksum else old(LastChecksum(View(), r))
    {
      repos := repos[repo := checksum];
    }

    method RemoveMissingCharts(repo: RepoKey, names: set<string>)
      requires Valid()
      modifies this`charts, this`files
      ensures Valid() && View() == RemoveMissing(old(View()), repo, names)
    {
      ghost var before := View();
      if names == {} {
        RemoveNothing(before, repo);
        return;
      }
      var kept := map k | k in charts && !(k.repo == repo && charts[k].name in names) :: charts[k];
      files := map f | f in files && (files[f].chart in kept || files[f].chart !in charts) :: files[f];
      charts := kept;
    }

    /** Deletes the repository; its charts and files cascade, and the next synchronisation of a
        repository of that name is a first one again. */
    method Delete(repo: RepoKey)
      requires Valid()
      modifies this
      ensures Valid() && View() == DeleteRepo(old(View()), repo)
      ensures repo !in repos && forall k :: k in charts ==> k.repo != repo
      ensures forall f :: f in files <==> f in old(files) && old(files)[f].chart.repo != repo
      ensures forall r :: LastChecksum(View(), r) == if r == repo then "" else old(LastChecksum(View(), r))
    {
      files := map f | f in files && files[f].chart.repo != repo :: files[f];
      charts := map k | k in charts && k.repo != repo :: charts[k];
      repos := map x | x in repos && x != repo :: repos[x];
    }

    method InsertChartFiles(chart: ChartKey, version: Version, digest: string) returns (ok: bool)
      requires Valid()
      modifies this`files
      ensures var r := InsertFiles(old(View()), chart, version, digest);
        Valid() && ok == r.Some? && View() == if ok then r.value else old(View())
    {
      var k := FilesKey(chart.repo.namespace, FilesId(chart.id, version));
      if k in files {
        files := files[k := files[k].(digest := digest)];
      } else if chart !in charts {
        return false;
      } else {
        files := files[k := FilesRow(chart, digest)];
      }
      return true;
    }

    /** Reads the repository's rows into a map keyed by chart name. */
    method ChartsForRepo(repo: RepoKey) returns (byName: map<string, Chart>)
      ensures IsChartsByName(View(), repo, byName)
      ensures NamesUnique(View(), repo) ==> byName == ChartsByName(View(), repo)
    {
      byName := map[];
      var rows := set k | k in charts && k.repo == repo;
      var todo := rows;
      while todo != {}
        invariant todo <= rows
        invariant byName.Keys == set k | k in rows - todo :: charts[k].name
        invariant forall n :: n in byName ==> byName[n].name == n && exists k :: k in rows && charts[k] == byName[n]
        decreases todo
      {
        var k :| k in todo;
        byName := byName[charts[k].name := charts[k]];
        todo := todo - {k};
      }
      assert byName.Keys == NamesIn(View(), repo);
      if NamesUnique(View(), repo) {
        ChartsByNameIsUnique(View(), repo, byName);
      }
    }
  }

  lemma RemoveNothing(db: DB, repo: RepoKey)
    ensures RemoveMissing(db, repo, {}) == db
  {
    var r := RemoveMissing(db, repo, {});
    assert r.charts == db.charts;
    assert r.files == db.files;
  }
}
