/** The main loop of `Sync` over a chart index, on the database object, one pass after the
    other; the files of the charts are imported beside it. */
module HelmProgram {
  import opened Prelude
  import opened ChartNames
  import opened Catalogue
  import opened HelmIndex
  import opened HelmSync
  import opened SyncPass

  ghost predicate SameChecksums(db: DB, after: DB) {
    forall r :: LastChecksum(db, r) == LastChecksum(after, r)
  }

  lemma StoreNext(db: DB, repo: RepoKey, charts: seq<Chart>, i: nat)
    requires i < |charts|
    ensures StoreAll(db, repo, charts[..i + 1]) == UpsertChart(StoreAll(db, repo, charts[..i]), repo, charts[i])
  {
    assert charts[..i + 1] == charts[..i] + [charts[i]];
    StoreAllSnoc(db, repo, charts[..i], charts[i]);
  }

  /** The main loop of a pass. */
  method StoreCharts(manager: PostgresAssetManager, repo: RepoKey, charts: seq<Chart>)
    requires manager.Valid()
    modifies manager
    ensures manager.Valid() && manager.View() == StoreAll(old(manager.View()), repo, charts)
    ensures SameChecksums(old(manager.View()), manager.View())
  {
    ghost var before := manager.View();
    for i := 0 to |charts|
      invariant manager.Valid() && manager.View() == StoreAll(before, repo, charts[..i])
      invariant SameChecksums(before, manager.View())
    {
      StoreNext(before, repo, charts, i);
      manager.Sync(repo, charts[i]);
    }
    assert charts[..|charts|] == charts;
  }

  /** What one pass does: upserts of the charts of the index, then the deletions. */
  ghost predicate OnePass(repo: RepoKey, entries: seq<ChartEntries>, shallow: bool, charts: seq<Chart>, db: DB,
      after: DB) {
    && IsIndexCharts(entries, repo.name, shallow, charts)
    && RowsAfter(repo, charts, charts, db, after)
    && SameChecksums(db, after)
  }

  lemma IsOnePass(repo: RepoKey, entries: seq<ChartEntries>, shallow: bool, charts: seq<Chart>, db: DB, stored: DB,
      after: DB)
    requires IsIndexCharts(entries, repo.name, shallow, charts) && Consistent(after)
    requires stored == StoreAll(db, repo, charts) && SameChecksums(db, stored)
    requires after == RemoveMissing(stored, repo, IndexDeletions(charts, NamesIn(db, repo)))
    ensures OnePass(repo, entries, shallow, charts, db, after)
  {
  }

  /** One pass: the charts of the index are upserted, then the missing ones removed. */
  method RunPass(manager: PostgresAssetManager, repo: RepoKey, entries: seq<ChartEntries>, shallow: bool)
    returns (charts: seq<Chart>)
    requires manager.Valid()
    modifies manager
    ensures manager.Valid() && OnePass(repo, entries, shallow, charts, old(manager.View()), manager.View())
  {
    ghost var before := manager.View();
    var synced := manager.ChartsForRepo(repo);
    var chartsToDelete;
    charts, chartsToDelete := Charts(entries, repo.name, shallow, synced);
    StoreCharts(manager, repo, charts);
    ghost var stored := manager.View();
    manager.RemoveMissingCharts(repo, chartsToDelete);
    IsOnePass(repo, entries, shallow, charts, before, stored, manager.View());
  }

  /** The repository's charts are those of the index, and the others are as they were. */
  ghost predicate Offers(repo: RepoKey, entries: seq<ChartEntries>, db: DB, after: DB) {
    NamesIn(after, repo) == OfferedNames(entries) && Keyed(after, repo) && OthersSame(repo, db, after)
  }

  /** The condition of `StoredNamesAreOffered`. */
  ghost predicate Offerable(repo: RepoKey, entries: seq<ChartEntries>, db: DB) {
    PlainNames(repo, entries) && Keyed(db, repo) && OfferedNames(entries) != {}
  }

  lemma OnePassOffers(repo: RepoKey, entries: seq<ChartEntries>, shallow: bool, charts: seq<Chart>, db: DB, after: DB)
    requires Offerable(repo, entries, db) && OnePass(repo, entries, shallow, charts, db, after)
    ensures Offers(repo, entries, db, after)
    ensures !shallow && DistinctOffers(entries) ==> StoresAll(repo, entries, after)
  {
    assert charts != [] by {
      IndexChartsAreKeyed(repo, entries, shallow, charts);
      var name :| name in OfferedNames(entries);
    }
    PassLeavesIndexRows(repo, entries, shallow, charts, charts, db, after);
    NamesOfIndexRows(repo, entries, shallow, charts, after);
    OthersUntouched(repo, charts, charts, db, after);
    if !shallow && DistinctOffers(entries) {
      FullRowsStoreAll(repo, entries, charts, after);
    }
  }

  lemma OffersTwice(repo: RepoKey, entries: seq<ChartEntries>, db: DB, middle: DB, after: DB)
    requires OthersSame(repo, db, middle) && Offers(repo, entries, middle, after)
    ensures Offers(repo, entries, db, after)
  {
  }

  lemma ChecksumKeepsOffers(repo: RepoKey, entries: seq<ChartEntries>, db: DB, last: DB, checksum: string)
    requires Offers(repo, entries, db, last)
    ensures Offers(repo, entries, db, UpdateLastCheck(last, repo, checksum))
  {
    var after := UpdateLastCheck(last, repo, checksum);
    assert after.charts == last.charts;
    assert NamesIn(after, repo) == NamesIn(last, repo);
  }

  /** A shallow pass over a repository that was never processed, then the full one. */
  method RunPasses(manager: PostgresAssetManager, repo: RepoKey, entries: seq<ChartEntries>, first: bool)
    requires manager.Valid()
    modifies manager
    ensures manager.Valid()
    ensures Offerable(repo, entries, old(manager.View())) ==> Offers(repo, entries, old(manager.View()), manager.View())
    ensures Offerable(repo, entries, old(manager.View())) && DistinctOffers(entries)
      ==> StoresAll(repo, entries, manager.View())
  {
    ghost var before := manager.View();
    if first {
      var shallowCharts := RunPass(manager, repo, entries, true);
      if Offerable(repo, entries, before) {
        OnePassOffers(repo, entries, true, shallowCharts, before, manager.View());
      }
    }
    ghost var middle := manager.View();
    assert Offerable(repo, entries, before) ==> Offerable(repo, entries, middle) && OthersSame(repo, before, middle);
    var charts := RunPass(manager, repo, entries, false);
    if Offerable(repo, entries, before) {
      OnePassOffers(repo, entries, false, charts, middle, manager.View());
      OffersTwice(repo, entries, before, middle, manager.View());
    }
  }

  /** The program behind the checksum gate. With a new checksum the stored names become the
      offered ones, every version of every entry is stored, and so is the checksum; with the
      stored one nothing happens. */
  method SyncIndex(manager: PostgresAssetManager, repo: RepoKey, entries: seq<ChartEntries>, checksum: string)
    returns (skipped: bool)
    requires manager.Valid()
    modifies manager
    ensures manager.Valid() && skipped == (old(LastChecksum(manager.View(), repo)) == checksum)
    ensures skipped ==> manager.View() == old(manager.View())
    ensures !skipped ==> LastChecksum(manager.View(), repo) == checksum
    ensures !skipped && Offerable(repo, entries, old(manager.View()))
      ==> Offers(repo, entries, old(manager.View()), manager.View())
    ensures !skipped && Offerable(repo, entries, old(manager.View())) && DistinctOffers(entries)
      ==> StoresAll(repo, entries, manager.View())
  {
    ghost var before := manager.View();
    var lastChecksum := manager.ReadLastChecksum(repo);
    if lastChecksum == checksum {
      return true;
    }
    RunPasses(manager, repo, entries, lastChecksum == "");
    ghost var last := manager.View();
    manager.StoreLastCheck(repo, checksum);
    if Offerable(repo, entries, before) {
      ChecksumKeepsOffers(repo, entries, before, last, checksum);
      if DistinctOffers(entries) {
        SameChartsStoreAll(repo, entries, last, manager.View());
      }
    }
    return false;
  }
}
