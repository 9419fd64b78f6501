# Verification of Kubeapps' synchroniser, controller, caches and dashboard codecs

Kubeapps offers the charts of package repositories in a dashboard. This project models the
parts of it in which the order of events, or the exact shape of a text or tree, decides
whether the result is right, and proves what they promise.

* **The asset synchroniser** (`SyncPass`, `PassTheorems`, `PassFiles`, with `PullPipeline`,
  `FileImporter`, `Catalogue`). A pass is a state machine of a producer, ten pull workers, the
  goroutine that closes their results, a forwarder, the main loop, and the file importer with
  its ten workers, over bounded channels and three tables with unique keys and cascades. The
  theorems hold for every interleaving. `OciPull`, `OciRegistry`, `MissingVersions`,
  `OciConvergence`, `OciPasses` and `OciSync` give the incremental synchronisation of OCI
  registries: what every pass guarantees and deletes, and what exactly passes and runs add to
  whatever is stored. `HelmIndex`, `HelmSync`, `HelmRuns` and `HelmProgram` give the catalogue
  that passes and whole runs over a chart index leave, the last of them as a program on the
  database object; `Versions`, `Precedence` and `ChartNames` the order of versions and the
  identifiers of charts.
* **The AppRepository controller** (`Controller`, `ControllerProtocol`, `ControllerProgress`, and
  `ControllerObject` with the handlers in place). Handlers and queue workers act on an API server
  with versioned objects, finalizers, CronJobs and Jobs, and are told of changes later than they
  happen.
  `JobNames` and `CronSchedule` are its two pieces of arithmetic.
* **The credential cache** of the Pinniped proxy (`PruningCaches`, `Pinniped`).
* **The dashboard**: paths and patches on YAML documents (`YamlPath`, `YamlPatch`,
  `YamlModifications`), the form tree (`BasicForm`, `FormUpdate`, `FormList`), the compiler from
  names to jq rules (`FilterRule`, `FilterMeaning`), the query string (`CatalogQuery`) and the
  paged list (`PackagePaging`, `PagingProtocol`).
* **Docker configuration entries** (`DockerConfig`).

Code that changes objects step by step is a class or a loop here too, each proved against a
function of the old state; the protocols are step relations whose invariants are proved step
by step. `dafny verify dfyconfig.toml` checks everything.

Where the code and its comments or names disagree, the model follows the code:

* The comment on `intervalToCron` promises durations below one year; the code accepts up to 372
  days, and also durations that are zero or negative.
* `cronJobName` is said to be unique; namespaces that contain "-sync-" clash, and every name
  that is cut shares its CronJob with the name that spells what is left of it.
* The comments of the controller's worker speak of putting a failed item back on the queue; the
  code does not.
* Setting a value in an empty document makes one key of the whole path, which the code calls a
  special case; it is not read back at that path.
* The stored name of a chart is meant to be its name with '/' escaped; a name that holds "%2F"
  already gets the same stored name as the one with the slash.
* What is dropped from an OCI repository is decided by comparing stored chart names with the
  names of the applications, and the stored name comes from inside the chart. A chart of another
  name is stored by one pass and deleted by the next, and so on.

## Model

| member | source | states |
|---|---|---|
| PassTheorems.EveryScheduleCompletes | cmd/asset-syncer/server/utils.go:692-719 | every schedule of producer, ten pull workers, forwarder, main loop, file importer and its workers that moves whenever it can completes the pass, provided no job crashes its worker: no deadlock, no endless run |
| OciPasses.PanicHasCause | cmd/asset-syncer/server/utils.go:692-719 | in every run of a pass over an OCI registry, on any database and with any filter, no goroutine sends on or closes a closed channel; a panic means that the producer meets a tag that is no version, or a queued application that is not stored and whose every pull fails |
| OciPasses.PassCompletesIff | cmd/asset-syncer/server/utils.go:692-719 | every schedule of such a pass completes just when neither is the case |
| OciPasses.ProducerCrashesIff | cmd/asset-syncer/server/utils.go:737-752 | the producer crashes just on a tag that is no version, unless listing the tags of an earlier application fails |
| PassTheorems.CompletedPassSawEveryResult | cmd/asset-syncer/server/sync.go:104-153 | when a pass completes, the main loop has seen each job's result (or each chart of an index) exactly once and every channel is closed |
| PassTheorems.CompletedPassImportedEverything | cmd/asset-syncer/server/utils.go:983-1033 | a completed pass has processed one icon job and one files job per version of every accepted chart, each exactly once |
| PassFiles.CompletedPassStoresFiles | cmd/asset-syncer/server/postgresql_utils.go:149-165 | after a completed pass that deletes nothing it writes and in which every fetch succeeds, each version of each accepted chart has its files row under namespace and identifier, with the digest of an accepted version of that identifier |
| PassFiles.IndexFilesAreStored | cmd/asset-syncer/server/sync.go:141-163 | so after such a pass over a chart index every version of every chart of the index has its files row |
| PassTheorems.PhasesAreRespected | cmd/asset-syncer/server/utils.go:1035-1049 | in every run no files job is taken before every icon job of the pass, and no older version before every chart's latest version, in the order of queueing |
| HelmSync.IndexPassIsSafe | cmd/asset-syncer/server/sync.go:141-163 | in every run of a pass over a chart index, with any filter and any database, nothing panics, the foreign keys hold in every state, and no files row is inserted without its chart, although missing charts are removed while the file workers run |
| HelmSync.IndexPassCompletes | cmd/asset-syncer/server/sync.go:96-166 | every schedule of such a pass completes |
| HelmSync.IndexKeepsNames | cmd/asset-syncer/server/utils.go:287-297 | what `Charts` schedules for deletion is never the name of a chart that the same pass writes |
| OciPasses.OciFilesFindTheirChart | cmd/asset-syncer/server/sync.go:141-163 | the same safety for every run of a pass over an OCI registry whose charts are named as their applications, steady or not |
| OciPasses.PassKeepsNames | cmd/asset-syncer/server/utils.go:866-873 | for such a registry too nothing that the pass may write is scheduled for deletion, and every name written is an application's |
| PassTheorems.CompletedPassRows | cmd/asset-syncer/server/sync.go:104-158 | the rows after a pass are those of upserting the accepted charts in the order seen and then deleting the names returned by Charts |
| PassTheorems.ResultWithVersionsIsStored | cmd/asset-syncer/server/sync.go:124-139 | a possible result that has versions and that the filter accepts, the only one of its identifier and not scheduled for deletion, is stored by a completed pass, whatever errors its pulls had |
| PassTheorems.RefusedResultsChangeNothing | cmd/asset-syncer/server/sync.go:124-139 | an identifier of which every possible result is refused by the filter, or has errors and no version, keeps its row, up to the deletions |
| PassTheorems.CompletionNeedsCharts | cmd/asset-syncer/server/utils.go:692-719 | a pass completes only when no job crashes its worker |
| PassTheorems.WrittenChartSurvivesIff | cmd/asset-syncer/server/sync.go:141-154 | a chart written by a pass is stored after it just when its name is not scheduled for deletion |
| PassTheorems.UnwrittenChartStaysUnlessDeleted | cmd/asset-syncer/server/sync.go:131-139 | a stored chart that the pass does not write, for instance because the filter refuses it, stays unchanged unless its name is scheduled for deletion |
| PassTheorems.CanMove | cmd/asset-syncer/server/sync.go:96-166 | until a pass completes or panics some step is enabled |
| PassTheorems.StepDecreases | cmd/asset-syncer/server/sync.go:96-166 | every step of a pass lowers one lexicographic measure |
| SyncPass.StepKeepsInv | cmd/asset-syncer/server/sync.go:96-166 | whatever moves next, pipeline, importer, main loop and database keep their joint invariant |
| SyncPass.ParentIsStoredIff | cmd/asset-syncer/server/postgresql_utils.go:149-165 | for any deletions at all: a worker that finishes a files job finds the row of its chart unless the removal is over and the row's name was scheduled for deletion |
| PullPipeline.StepKeepsInv | cmd/asset-syncer/server/utils.go:767-864 | any step of the pull pipeline keeps the jobs in order, conserves the copies of every result and keeps the closed flags right |
| PullPipeline.StepCopies | cmd/asset-syncer/server/utils.go:692-719 | a step only moves the copies of a result about; taking its job makes one |
| PullPipeline.CanMove | cmd/asset-syncer/server/utils.go:767-864 | as long as results are undelivered, some goroutine of the pipeline can move |
| PullPipeline.StepDecreases | cmd/asset-syncer/server/utils.go:767-864 | every step of the pipeline moves work towards the main loop, by a lexicographic measure |
| FileImporter.StepKeepsInv | cmd/asset-syncer/server/utils.go:983-1049 | any step of the importer keeps jobs taken in the order queued, none lost or doubled, and the phases of its worker pool |
| FileImporter.PanicsIff | cmd/asset-syncer/server/utils.go:983-1033 | a step of the importer panics just when it sends on a closed channel, closes one again, or meets a chart without versions |
| FileImporter.IconsBeforeFiles | cmd/asset-syncer/server/utils.go:993-1004 | a files job can be taken only when every icon job of the pass has been taken |
| FileImporter.LatestBeforeHistoric | cmd/asset-syncer/server/utils.go:1006-1024 | files jobs of older versions follow those of all latest versions |
| FileImporter.SignalledMeansDone | cmd/asset-syncer/server/utils.go:1025-1032 | done is signalled only after every icon and files job has been processed, each once |
| FileImporter.StepDecreases | cmd/asset-syncer/server/utils.go:983-1049 | every step of the importer lowers a measure |
| OciPull.RunJobMeaning | cmd/asset-syncer/server/utils.go:692-719 | a pull job keeps every stored version and adds every successful pull, in descending order, counts failures, and crashes just when nothing was stored and every pull fails |
| OciPull.ImportChart | cmd/asset-syncer/server/utils.go:692-719 | the worker's loop over the versions of a job computes that result |
| OciRegistry.OrderVersions | cmd/asset-syncer/server/utils.go:737-752 | the tags in descending precedence, as the unique such arrangement when precedences differ; a tag that is no version crashes the sort |
| OciRegistry.BuildJobs | cmd/asset-syncer/server/utils.go:789-849 | the producer's loop queues, per application and up to the first failing tag list, the newest versions that are not stored, one when shallow and at most five otherwise |
| OciRegistry.ChartsForDeletion | cmd/asset-syncer/server/utils.go:866-873 | exactly the stored chart names that are no longer applications of the repository |
| OciSync.PassAddsMissing | cmd/asset-syncer/server/utils.go:789-874 | a complete pass over a steady registry, whatever versions were stored before, brings every application the newest of its missing versions, one when shallow and at most five when not, loses none, keeps descending versions descending, and removes dropped applications |
| OciSync.RunsAddMissing | cmd/asset-syncer/server/sync.go:81-171 | after n complete runs, whatever was stored before, each application has got the newest 5n of its missing versions, one more if the first run was the repository's first, and exactly the others are still missing |
| OciSync.AllStoredIff | cmd/asset-syncer/server/sync.go:81-171 | all versions of an application are stored after n runs just when no more than those were missing |
| OciSync.RepeatedRunIsSkipped | cmd/asset-syncer/server/sync.go:88-94 | a run with the checksum that the last one stored changes nothing |
| OciSync.PassRaisesLevel | cmd/asset-syncer/server/utils.go:755-874 | in particular a pass turns the m newest versions of an application into the m+1 (shallow) or m+5 newest |
| OciSync.ConvergesOnNewestVersions | cmd/asset-syncer/server/sync.go:81-171 | after n complete runs on a repository never synchronised, the stored versions of each application are exactly its min(N, 1+5n) highest, in strictly descending order |
| OciPasses.DroppedApplicationsGo | cmd/asset-syncer/server/utils.go:866-873 | a completed pass, of any database and any registry whose charts are named as their applications, removes the charts of dropped applications and no other: every name left is an application's, and every row of an application is still there |
| OciPasses.PulledVersionIsStored | cmd/asset-syncer/server/utils.go:692-719 | after a completed pass, of any database and steady or not, every queued version whose pull succeeds is stored with the digest and the version of that pull, whichever other pulls fail |
| OciPasses.RefusedChartStays | cmd/asset-syncer/server/sync.go:133-139 | where the filter refuses every chart of an identifier, a completed pass of an OCI registry leaves its row as it was, but for the removal of dropped applications |
| OciPasses.ForeignNameComesAndGoes | cmd/asset-syncer/server/utils.go:632-674 | a pulled chart whose own name is no application's is stored by a pass just when its name was not stored before: one pass brings it, the next deletes it |
| Versions.PrecedenceIsTotalPreorder | cmd/asset-syncer/server/utils.go:722-734 | semantic-version precedence is a total preorder: sorting by it is well defined |
| Precedence.ComparesPrecedence | cmd/asset-syncer/server/utils.go:722-734 | the comparison used is section 11 of Semantic Versioning 2.0.0, on the fields: the first differing number, then a release before a pre-release, then the first differing identifier, numbers by value and below texts, and else the longer list; build metadata plays no part |
| Precedence.SortedIsNewestFirst | cmd/asset-syncer/server/utils.go:737-752 | so of two sorted tags, none later in the list is newer in that sense |
| Versions.SortIsDescending | cmd/asset-syncer/server/utils.go:722-734 | the sort is a descending permutation |
| Versions.DescendingOrderIsUnique | cmd/asset-syncer/server/utils.go:737-752 | versions of distinct precedence have one descending order, so the unstable library sorts are determined |
| HelmIndex.ChartsFromIndex | pkg/helm/index.go:54-84 | one chart for each non-empty, non-deprecated entry, in the order of their identifiers |
| HelmIndex.Charts | cmd/asset-syncer/server/utils.go:252-298 | the unescaped charts of the eligible entries, and the stored names that none of them has; an index without eligible entry deletes nothing |
| HelmIndex.NamesToDelete | cmd/asset-syncer/server/utils.go:291-297 | exactly the stored names that no chart of the index has |
| HelmSync.StoredNamesAreOffered | cmd/asset-syncer/server/sync.go:96-166 | after a complete pass over an index with an eligible entry, the repository's stored names are exactly the offered ones, rows stay identified by repository/name, and other repositories' chart rows are untouched |
| HelmRuns.PassKeepsOthers | cmd/asset-syncer/server/sync.go:96-166 | a pass leaves other repositories' repository, chart and files rows; only a files row of the same namespace whose chart identifier starts with this repository's name and a slash may get another digest |
| HelmRuns.RunSyncsIndex | cmd/asset-syncer/server/sync.go:81-171 | a whole run with a new checksum, the shallow pass of a first run included: the stored names are the offered ones, the others keep theirs, the checksum is stored, and a second run over the same index changes nothing |
| HelmSync.FullPassStoresAll | cmd/asset-syncer/server/sync.go:96-166 | a full pass over an index stores of every eligible entry each version with its number and digest, in the order of the index, and the description of the first, if no two entries share a stored name |
| HelmRuns.RunStoresAll | cmd/asset-syncer/server/sync.go:96-103 | so does a whole run: its last pass is a full one, be it a first run or not |
| HelmRuns.FirstRunIsFullPass | cmd/asset-syncer/server/sync.go:89-96 | the first run, with its shallow pass, leaves the chart rows of a full pass alone (no two entries sharing a stored name) |
| HelmProgram.SyncIndex | cmd/asset-syncer/server/sync.go:81-171 | the program on the database object: with the stored checksum it changes nothing; otherwise it runs the passes, after which the stored names are the offered ones, every version of every entry is stored with its digest (no two entries sharing a stored name) and other repositories' charts are as before, and stores the checksum |
| HelmProgram.RunPass | cmd/asset-syncer/server/sync.go:96-166 | one pass on the database object, the charts of the index upserted one by one and then the missing ones removed, leaves the rows of a concurrent pass that sees the charts in that order, and every checksum |
| HelmSync.EmptyIndexChangesNothing | cmd/asset-syncer/server/utils.go:265-268 | an index without eligible entry leaves the charts as they were |
| HelmSync.ShallowThenFullIsFull | cmd/asset-syncer/server/sync.go:89-96 | a shallow pass followed by a full one leaves the same chart rows as the full one alone (no two entries sharing a stored name) |
| ChartNames.UnescapedNameKeepsSlashesEscaped | cmd/asset-syncer/server/utils.go:201-222 | escaping at index time and unescaping before storing turns each '/' of a chart name into "%2F" and changes nothing else |
| ChartNames.UnescapedIdHasOneSlash | pkg/helm/index.go:45-46 | the stored identifier is the repository name, one '/' and that stored name, and splits at that one slash |
| ChartNames.ChartIdInjective | cmd/asset-syncer/server/utils.go:674-678 | distinct OCI applications get distinct chart identifiers |
| ChartNames.StoredNameClashIff | cmd/asset-syncer/server/utils.go:207-222 | some other index name has the same stored name, and so the same row, just when the name holds a '/' or the text "%2F" |
| Percent.UnescapeEscape | pkg/helm/index.go:45-46 | percent-decoding undoes percent-encoding for every byte text and every set of kept bytes without '%' |
| Percent.UnescapePrefix | dashboard/src/components/Catalog/Catalog.tsx:131-142 | an escaped text decodes on its own in front of any other text |
| Catalogue.PostgresAssetManager.Sync | cmd/asset-syncer/server/postgresql_utils.go:43-59 | upserts the chart under (repository, identifier) and makes sure the repository row exists; nothing else changes |
| Catalogue.PostgresAssetManager.RemoveMissingCharts | cmd/asset-syncer/server/postgresql_utils.go:86-102 | deletes the repository's charts with one of the names, their files cascading; no names delete nothing |
| Catalogue.PostgresAssetManager.Delete | cmd/asset-syncer/server/postgresql_utils.go:104-110 | the repository goes with its charts and their files and nothing else does; the next synchronisation of that name is a first run |
| Catalogue.PostgresAssetManager.InsertChartFiles | cmd/asset-syncer/server/postgresql_utils.go:149-165 | upserts by (namespace, files identifier); a new row without its chart is the foreign-key error |
| Catalogue.PostgresAssetManager.ChartsForRepo | cmd/asset-syncer/server/postgresql_utils.go:167-180 | the repository's charts by name |
| Catalogue.RemoveMissing | pkg/dbutils/postgresql_utils.go:175-203 | the delete cascades keep the foreign keys, leave other repositories alone and remove exactly the named rows |
| ControllerProtocol.StepKeepsInv | cmd/apprepository-controller/server/controller.go:337-400 | create, edit, delete, informer handlers and queue workers, with stale notifications, keep the protocol invariant |
| ControllerProtocol.EnsureKeeps | cmd/apprepository-controller/server/controller.go:406-471 | making the CronJob and a sync Job keeps the protocol invariant for a repository that has the finalizer, and otherwise all of it but the ownership of that one CronJob |
| ControllerProtocol.CleanUpKeepsInv | cmd/apprepository-controller/server/controller.go:502-526 | cleaning up records the repository as cleaned, leaves no CronJob of its name and keeps the invariant |
| ControllerProtocol.SyncKeepsInv | cmd/apprepository-controller/server/controller.go:337-400 | a worker that takes a key, with the finalizer still to be added, keeps the invariant |
| ControllerProtocol.EventKeepsInv | cmd/apprepository-controller/server/controller.go:293-332 | so does the handling of any notification, however old the state it tells of |
| ControllerProtocol.CronJobOnlyWhileFinalized | cmd/apprepository-controller/server/controller.go:127-139 | in every reachable state a repository's CronJob exists only while the AppRepository is in the API carrying the finalizer, for any naming that keeps the stored repositories apart |
| ControllerProtocol.CronJobOnlyWhileFinalizedByName | cmd/apprepository-controller/server/job_utils.go:348-353 | the same with the controller's own names, for keys that fit and whose namespace followed by '-' does not contain "-sync-" |
| ControllerProtocol.FinalizedLeavesClean | cmd/apprepository-controller/server/controller.go:475-526 | a repository that has carried the finalizer and no longer does so in the API had its clean-up Job created, and once it is gone its CronJob is gone |
| ControllerProtocol.WorkerLeavesStrayCronJobIff | cmd/apprepository-controller/server/controller.go:357-389 | a worker leaves a CronJob for a repository without the finalizer just when the repository is deleted and kept by another party's finalizer only |
| ControllerProtocol.FinalizerGoesWithoutCleanUpIff | cmd/apprepository-controller/server/controller.go:475-500 | when the update succeeds the finalizer goes, and the repository is cleaned up just when the clean-up Job could be created |
| ControllerProgress.WorkMakesCronJob | cmd/apprepository-controller/server/controller.go:357-389 | a worker whose calls succeed leaves a repository that is not being deleted with the finalizer and with one CronJob of its name that has its present spec, old or new, launches one Job, and touches nothing else |
| ControllerProgress.QueuedBy | cmd/apprepository-controller/server/controller.go:124-139 | a notification queues a repository just when it tells of its addition, of a change of its spec, of its deletion with our finalizer, or of the loss of its CronJob |
| ControllerProgress.StepTracksIff | cmd/apprepository-controller/server/controller.go:293-332 | each step keeps a repository tracked (queued, or about to be, or with its present spec in its CronJob) but for one: the late notification of the deletion of an older object of its name, outside the namespace of Kubeapps |
| ControllerProgress.NoChangeIsLost | cmd/apprepository-controller/server/controller.go:293-332 | so over all runs no addition and no change of a spec is lost, up to that one exception |
| ControllerProgress.QuietMeansCurrent | cmd/apprepository-controller/server/controller.go:337-400 | with nothing queued and nothing to be notified, every repository in the namespace of Kubeapps has its CronJob with its present spec |
| Controller.RemoveFinalizer | cmd/apprepository-controller/server/utils.go:144-155 | removes every occurrence, keeps the others in order, and reports whether there was one |
| Controller.WithoutMeaning | cmd/apprepository-controller/server/utils.go:144-155 | what is left are exactly the other finalizers |
| Controller.ContainsFinalizer | cmd/apprepository-controller/server/utils.go:119-127 | whether the finalizer is in the list |
| ControllerObject.AppRepoController.Sync | cmd/apprepository-controller/server/controller.go:337-400 | the worker's handler in place: ensure the CronJob and launch a Job, then add the finalizer or clean up, and stop at the first error |
| ControllerObject.AppRepoController.Finalize | cmd/apprepository-controller/server/controller.go:475-500 | clean-up, then removal of the finalizer by an update against the version seen, whether or not the clean-up failed |
| ControllerObject.AppRepoController.Take | cmd/apprepository-controller/server/controller.go:124-139 | any step of a user, a notification or a worker, taken in place, has the effect of the protocol's step and keeps its invariant |
| ControllerObject.AppRepoController.Drive | cmd/apprepository-controller/server/controller.go:236-288 | after any steps on the object, in any order, a CronJob exists only while its repository is in the API with the finalizer |
| JobNames.NamesAreBounded | cmd/apprepository-controller/server/job_utils.go:348-384 | CronJob and clean-up prefixes have at most 52 characters and the sync Job prefix at most 53, for every namespace and name |
| JobNames.NamesSpell | cmd/apprepository-controller/server/job_utils.go:347-360 | the names of the CronJob, the Jobs and the clean-up Job of a repository whose namespace and name are short enough not to be cut |
| JobNames.GeneratedLength | cmd/apprepository-controller/server/job_utils.go:361-384 | the bound for every pattern, with and without the dash |
| JobNames.ChecksumFitsTenDigits | cmd/apprepository-controller/server/utils.go:40-46 | a printed Adler-32 has at most ten digits |
| JobNames.ChecksumIs | cmd/apprepository-controller/server/utils.go:40-46 | the checksum is that of section 2.2 of RFC 1950, without reductions on the way |
| JobNames.FittingNamesAreDistinct | cmd/apprepository-controller/server/job_utils.go:347-353 | two pairs that fit untruncated have the same CronJob name just when they are the same pair, when neither namespace followed by '-' contains "-sync-" |
| JobNames.ClashIff | cmd/apprepository-controller/server/job_utils.go:347-353 | that condition is exact: a namespace shares a CronJob name with a shorter one, over names that fit, just when it contains that text |
| JobNames.CutNamesAgreeIff | cmd/apprepository-controller/server/utils.go:34-48 | of two names that are cut, the CronJob names in one namespace agree just when the first eight characters and the checksum of the rest do |
| JobNames.CutMeetsFittingIff | cmd/apprepository-controller/server/utils.go:34-48 | a name that is cut and one that fits have the same CronJob name just when the second spells what the first is cut to |
| JobNames.EveryCutNameClashes | cmd/apprepository-controller/server/job_utils.go:347-353 | so every name that is cut, and every namespace that is cut, shares its CronJob with another that fits |
| JobNames.LongNamesCanClash | cmd/apprepository-controller/server/utils.go:34-48 | names that are cut may also share a CronJob with each other: two endings with the same checksum, after any beginning |
| CronSchedule.ScheduleIsTight | cmd/apprepository-controller/server/utils.go:61-95 | a positive duration is accepted just up to 372 days; steps are 1..59 minutes, 1..23 hours, 1..31 days, 2..12 months of 31 days; the period is at least the duration and less than one unit longer, despite the nested ceilings |
| CronSchedule.UnitOf | cmd/apprepository-controller/server/utils.go:61-95 | the unit is the finest that has a step for the duration, and the nested ceilings come to one rounding per unit |
| CronSchedule.PeriodIsMonotone | cmd/apprepository-controller/server/utils.go:61-95 | a longer duration never gives a shorter period, across units |
| CronSchedule.IntervalIsAcceptedIff | cmd/apprepository-controller/server/utils.go:61-95 | accepted just when the text is not empty, is a duration, and that is at most 372 days |
| CronSchedule.MinutesText | cmd/apprepository-controller/server/utils.go:71-77 | up to 59 minutes the text fires every n minutes, for the least n that is not shorter; zero and negative steps are printed as they are |
| CronSchedule.HoursText | cmd/apprepository-controller/server/utils.go:79-82 | above that and up to 23 hours it fires at minute 0 of every n-th hour |
| CronSchedule.DaysText | cmd/apprepository-controller/server/utils.go:84-87 | above that and up to 31 days at midnight of every n-th day |
| CronSchedule.MonthsText | cmd/apprepository-controller/server/utils.go:89-92 | above that and up to 372 days at midnight of the first day of every n-th month, of 31 days each |
| CronSchedule.NonPositiveIsAccepted | cmd/apprepository-controller/server/utils.go:70-76 | zero and negative durations are accepted too, with a step that is not positive |
| YamlPath.GetDefinedPath | dashboard/src/shared/yamlUtils.ts:68-84 | the longest prefix of the parents that leads to values neither undefined nor null |
| YamlPath.SetPartsIsChange | dashboard/src/shared/yamlUtils.ts:45-66 | finding the defined path, nesting the rest and setting it changes the tree as the plain recursion does, and fails just when the path cannot be reached |
| YamlPath.DeletePartsIsChange | dashboard/src/shared/yamlUtils.ts:132-142 | the same for deleting |
| YamlPatch.ChangedIsRead | dashboard/src/shared/yamlUtils.ts:96-112 | what is set at a path is read there; what is deleted is not |
| YamlPatch.OthersAreKept | dashboard/src/shared/yamlUtils.ts:132-149 | every path neither above nor below a changed one reads as before, including when missing parents are built |
| YamlPatch.ReachedAfterIff | dashboard/src/shared/yamlUtils.ts:57-65 | after a change, an unrelated path is reached if it was before or if the explicit null that stopped it has made way, and in no other case |
| YamlPatch.ChangesCommute | dashboard/src/components/UpgradeForm/UpgradeForm.tsx:29-43 | two changes of paths neither of which is above the other commute |
| YamlPatch.AnyOrder | dashboard/src/components/UpgradeForm/UpgradeForm.tsx:29-43 | a list of such changes gives the same tree in every order |
| YamlModifications.ApplyModifications | dashboard/src/components/UpgradeForm/UpgradeForm.tsx:29-43 | the loop over the operations replays them in order and stops at an error |
| YamlModifications.YamlDocument.SetPathValue | dashboard/src/shared/yamlUtils.ts:35-43 | setting in place: the new contents as they are once printed and parsed again, or the old ones and an error |
| YamlModifications.YamlDocument.DeletePath | dashboard/src/shared/yamlUtils.ts:132-142 | deleting in place; a document without entries becomes empty |
| YamlModifications.SetThenGet | dashboard/src/shared/yamlUtils.ts:144-149 | setting gets through just when mappings lie along the path and the immediate parent is no null; then the value is read back and unrelated paths are unchanged |
| YamlModifications.DeleteThenGet | dashboard/src/shared/yamlUtils.ts:132-142 | deleting likewise; the document becomes empty just when nothing is left |
| YamlModifications.SetInEmptyDocument | dashboard/src/shared/yamlUtils.ts:46-49 | in an empty document the whole path becomes one key, so that it is read back just when it has one part |
| YamlModifications.ModificationsInAnyOrder | dashboard/src/components/UpgradeForm/UpgradeForm.tsx:29-43 | operations on pairwise unrelated paths that can be reached, all of them settings or with a key at the top that no removal takes, give the same values in every order, and each path then reads as its operation says |
| YamlModifications.OrderMattersIff | dashboard/src/shared/yamlUtils.ts:57-65 | for any document with contents, two modifications of unrelated paths end differently in the two orders just when one of them gets through and leads through the explicit null that is the immediate parent of the other, or is a removal that empties the document while the other sets a path of several parts |
| YamlModifications.OrderMattersInEmptyIff | dashboard/src/shared/yamlUtils.ts:46-49 | from an empty document, just when both set a value and one of the paths has several parts |
| YamlModifications.EmptyingNeedsOrder | dashboard/src/shared/yamlUtils.ts:46-49 | what emptying the document on the way comes to: the path set afterwards becomes one key, and set before it is a nested mapping |
| BasicForm.BuiltIsKeyed | dashboard/src/shared/schema.ts:15-103 | the parameters built from a schema whose names have no '/' are keyed by their paths of names |
| BasicForm.KeysAreUnique | dashboard/src/shared/schema.ts:39-45 | so all keys are different |
| FormUpdate.FieldFollowsDocuments | dashboard/src/shared/schema.ts:61-103 | the current value of a field follows the current document, its default the document of the package and its deployed value the deployed one, each at the path that its key spells, and nothing else changes with them; null and missing stand for the schema's default in the first two |
| FormUpdate.FormUpdateIff | dashboard/src/shared/schema.ts:105-136 | for a key of such a form the update sets that parameter and keeps all others, their keys, order and shape; for any other key some entry loses all it holds |
| FormUpdate.InputsSetTheirFields | dashboard/src/shared/schema.ts:105-136 | any run of inputs for keys of the form sets those fields one after the other and nothing else |
| FormUpdate.EveryKeyWorksIff | dashboard/src/shared/schema.ts:111-125 | in a form with distinct keys the update of every key sets that field alone just when no section that has entries has a '/' in its name; a '/' in the name of a leaf does no harm |
| FormUpdate.FormShowsWhatWasSet | dashboard/src/shared/schema.ts:72-82 | a value written to the current document under a field's key is the one thing that a form built anew shows differently, null standing for the default |
| FormList.ParamList.Update | dashboard/src/shared/schema.ts:105-136 | the update in place, on lists that each section owns: the whole new tree, with no list shared or lost |
| FormList.Build | dashboard/src/shared/schema.ts:46-60 | the lists of a form stand for the tree that is built from the schema |
| FormList.FillForm | dashboard/src/shared/schema.ts:105-136 | filling in a form in place, input by input, sets each input's field and leaves keys, order and other fields alone |
| FilterMeaning.GeneratedRuleKeeps | cmd/asset-syncer/server/utils.go:166-198 | evaluating a rule generated from a list of names keeps a chart just when its name is one of those between the commas, but for spaces around it, xor exclude, for any number of names and any order of binding the variables |
| FilterMeaning.RegexRuleKeeps | cmd/asset-syncer/server/utils.go:166-198 | evaluating a rule generated from a regular expression keeps a chart just when its name matches, xor exclude; a malformed expression is an error |
| FilterRule.TrimIs | dashboard/src/shared/jq.ts:15 | a name is trimmed to what is left when the spaces at its two ends are taken off |
| FilterMeaning.CompileVariables | cmd/asset-syncer/server/utils.go:171-176 | names and values of the variables are listed in one order, whatever that is |
| FilterMeaning.AnyOrderBindsAlike | cmd/asset-syncer/server/utils.go:171-185 | so each variable is bound to its own value |
| FilterRule.RuleSurvivesForm | dashboard/src/shared/jq.ts:6-34 | turning a generated rule, regular expression or not, into form parameters and back gives the rule again |
| CatalogQuery.ValueSurvivesIff | dashboard/src/components/Catalog/Catalog.tsx:46-72 | a value survives the query string just when it contains neither "__" nor "_," |
| CatalogQuery.FiltersSurviveIff | dashboard/src/components/Catalog/Catalog.tsx:131-142 | the whole filter state is restored, each filter with its values and no other name, just when all chosen values survive |
| CatalogQuery.QueryReturnsFilters | dashboard/src/components/Catalog/Catalog.tsx:50-72 | each chosen filter comes back with its values as they survive, and an empty one does not appear |
| CatalogQuery.NoOtherName | dashboard/src/components/Catalog/Catalog.tsx:50-72 | a name that no filter has does not appear |
| CatalogQuery.NoQueryIff | dashboard/src/components/Catalog/Catalog.tsx:46-72 | there is no query string at all just when no filter has a chosen value |
| CatalogQuery.DecodeFilters | dashboard/src/components/Catalog/Catalog.tsx:131-142 | the decoding effect overrides the initial state filter by filter |
| PruningCaches.PruningIsUnobservable | cmd/pinniped-proxy/src/cache.rs:59-82 | over every run of gets and inserts on a clock that does not go back, each entry checked at an instant of its own, the cache answers as a map that is never pruned |
| PruningCaches.UnobservableIffLasting | cmd/pinniped-proxy/src/cache.rs:42-57 | pruning is unobservable for exactly those conditions that never become true again |
| PruningCaches.PruningCache.Get | cmd/pinniped-proxy/src/cache.rs:59-69 | a get answers as the never-pruned map would |
| PruningCaches.PruningCache.Insert | cmd/pinniped-proxy/src/cache.rs:72-82 | an insert replaces the map by its pruned form and stays indistinguishable |
| Pinniped.StepKeepsInv | cmd/pinniped-proxy/src/pinniped.rs:232-277 | any number of connections waiting at once keep the cache a part of what was issued |
| Pinniped.ServedIsGenuine | cmd/pinniped-proxy/src/pinniped.rs:264-276 | what the cache serves was issued by Pinniped for the same URL and token and has not expired, and is what a map without pruning would serve |
| Pinniped.ServedUntilExpiry | cmd/pinniped-proxy/src/pinniped.rs:264-276 | after every run, a connection is served at once, with what Pinniped answered last for its URL and token, just while the credential in that answer has not expired, and waits for Pinniped otherwise |
| Pinniped.EachConnectionOnce | cmd/pinniped-proxy/src/pinniped.rs:232-277 | every connection is served once, or gets an error, or still waits |
| Pinniped.SharedIff | cmd/pinniped-proxy/src/pinniped.rs:244-262 | two connections share a credential just when URL and header agree, up to one "Bearer " taken off |
| PackagePaging.AnyActions | dashboard/src/reducers/availablepackages.ts:91-165 | over any actions identifiers stay unique, finished means no next page, and without a reset the list only grows at its end |
| PackagePaging.UniqKeepsFirsts | dashboard/src/reducers/availablepackages.ts:117-120 | what is kept is the first package of each identifier |
| PackagePaging.AnswerFinishesIff | dashboard/src/reducers/availablepackages.ts:110-114 | an accepted answer finishes the list just when its token is empty, and keeps the token |
| PackagePaging.FailureIsUnfinished | dashboard/src/reducers/availablepackages.ts:149-156 | an error leaves the list as it is, unfinished |
| PackagePaging.CategoriesOfAnswers | dashboard/src/reducers/availablepackages.ts:116 | over any actions the categories are those of all accepted answers, each once, in the order in which they first come |
| PagingProtocol.FinishedIsComplete | dashboard/src/actions/availablepackages.ts:128-158 | whatever other actions interleave, whenever resets happen, with pages still in flight or not, however often pages are asked for, from an old token or a new one, fail or are dropped, a finished list is the server's list with the first package of each identifier, as long as no answer from before a reset arrives while a request is out |
| PagingProtocol.FinishesAfterAllPages | dashboard/src/actions/availablepackages.ts:128-158 | when each page is asked for and arrives, and nothing else happens, the list is finished after the last page and not before, with every package of the server once |
| PagingProtocol.RoundsAreARun | dashboard/src/actions/availablepackages.ts:128-158 | and this is one of the runs that the guarantee about finished lists speaks of |
| PagingProtocol.SecondFetchDropsAnswer | dashboard/src/reducers/availablepackages.ts:99-105 | of two requests that are out at once, the answer that comes second is dropped |
| PagingProtocol.StepKeepsInv | dashboard/src/actions/availablepackages.ts:128-158 | every step keeps the items the deduplicated pages received so far |
| PagingProtocol.StaleAnswerCountsIff | dashboard/src/reducers/availablepackages.ts:99-105 | that condition is exact for each answer: one from before a reset changes the store just when a request is out as it arrives |
| PagingProtocol.StaleAnswerIsAccepted | dashboard/src/reducers/availablepackages.ts:99-105 | then it is taken for the new request's, whose own answer is ignored |
| DockerConfig.RoundTripIff | pkg/kube/dockerconfig.go:123-145 | the auth field gives back user and password just when the user has no colon |
| DockerConfig.AuthDecodes | pkg/kube/dockerconfig.go:123-139 | otherwise the user is cut at its first colon and the rest goes to the password |
| DockerConfig.DecodeEncode | pkg/kube/dockerconfig.go:141-145 | base64 decoding undoes encoding for every byte text |
| DockerConfig.DigitsAre | pkg/kube/dockerconfig.go:141-145 | the digits are those of section 4 of RFC 4648 |
| DockerConfig.DecodesIff | pkg/kube/dockerconfig.go:123-128 | a text, its line breaks aside, is decoded just when it consists of groups of four digits, the last of which may end in one or two padding characters |
| DockerConfig.DockerConfigEntry.Unmarshal | pkg/kube/dockerconfig.go:95-112 | a non-empty auth field overrides user and password, and leaves both empty when it is wrong |
| DockerConfig.MarshalThenUnmarshal | pkg/kube/dockerconfig.go:95-119 | an entry marshalled into another object gives email, user and password back, the latter two just when the user has no colon |

## Left out

- Tags and chart versions are parsed versions; a tag that does not parse is the nil version that makes the sort crash, and a stored chart version never fails to parse. Two tags of equal precedence are outside the convergence theorem, because the library sort may put them in either order.
- The first run's checksum and the random checksum of OCI registries are parameters; so are pulls, catalogue listings and their failures.
- Early error returns of `Sync` (a filter, a database or a listing error that ends the program) end the process and are not steps of a pass; a failing tag list and a failing pull are modelled.
- Cleaning of chart identifiers by `path.Join` (names such as `..`) and of index identifiers beyond escaping.
- The identifier of a files row is kept as the pair of chart identifier and version instead of their text joined by a dash, which could make two pairs equal.
- Descriptive chart metadata is one opaque text; icons are jobs whose content and `raw_icon` column are not stored, so the statements about rows leave icons aside.
- HelmSync.ShallowThenFullIsFull: requires that no two eligible entries share a stored name, because with such a pair the order in which the source reads its map decides which row wins.
- PagingProtocol.FinishedIsComplete: assumes that no answer from before a reset arrives while a newer request is out, since the reducer then takes it for that request's (StaleAnswerIsAccepted); StaleAnswerCountsIff is the exact condition. Reordered or changing server lists between resets are not modelled.
- OciPasses.OciFilesFindTheirChart: assumes that each chart is named as its application, because the source deletes by the one name and stores by the other; for any deletions SyncPass.ParentIsStoredIff is the exact condition.
- OciPasses.ForeignNameComesAndGoes: assumes that nothing else is pulled under the same identifier and another name, since the last of them seen would decide.
- OciPasses.PulledVersionIsStored: assumes that each chart is named as its application and that the stored rows of the repository are identified by their names.
- HelmRuns.RunStoresAll: assumes that no two eligible entries share a stored name.
- HelmProgram.SyncIndex: the file importer, which runs beside the main loop, and the filter are not part of this program; they are in the passes of HelmSync and HelmRuns.
- YamlModifications.YamlDocument.SetPathValue: gives the document as it reads after printing and parsing, which is what the list of modifications of an upgrade is applied to, one after the other; saving several inputs of a form sets them in one live node, which holds the parents that a change has just built as a plain object until the document is parsed again, and how the library walks such an object is not part of this model.
- OciSync.PassAddsMissing: assumes tags of distinct precedence, pulls of them that succeed, chart name equal to application name, chart version equal to the tag, stored rows identified by their names, and no filter; these are the assumptions under which the source converges.
- OciSync.RunsAddMissing: the same assumptions, with tags that stay the same during the runs.
- OciSync.AllStoredIff: the same.
- OciSync.ConvergesOnNewestVersions: the same.
- PassFiles.CompletedPassStoresFiles: assumes that files rows belong to the chart of their identifier, as every insertion leaves them; of several digests for one row, which job came last is not stated.
- ControllerProtocol.CronJobOnlyWhileFinalized: assumes succeeding API calls, informer caches as fresh as the API, and no foreign finalizers; the exact failures without the first and the last are the two lemmas at the end of that module. Retries, garbage collection by owner references, resource quotas and the choice between the two CronJob API versions are not modelled, and neither is a failed `syncHandler` being queued again, which the source does not do.
- ControllerProtocol.FinalizedLeavesClean: the same assumptions.
- ControllerProgress.NoChangeIsLost: assumes succeeding API calls and CronJob names that tell the keys in use apart; after a failed call the source does not try again, so that a change can be lost there.
- ControllerProgress.WorkMakesCronJob: for calls that succeed; what the handler leaves when one fails is the contract of ControllerObject.AppRepoController.Sync.
- The controller changes the object that its informer cache holds before it updates the API; the model has no such shared object.
- CronSchedule computes on exact integers of nanoseconds; the rounding of the floating-point quotients, and the parsing of duration texts, are left out.
- The YAML text layer: comments, key order, styles and anchors, and that printing and parsing again gives the same tree. A sequence is a leaf, since the paths considered have no indices.
- YamlPath.SetPartsIsChange: requires path parts without '.'; with a dot in a missing part the source nests at the dot, as the model does too. Path parts with '~', brackets or only digits, and those that every JavaScript object inherits, are outside the model.
- The current value of a section, after an update, is the tag `OwnParams`, where the source stores a reference to the section's own list. Titles, enumerations, examples and custom components are not modelled.
- The jq language beyond `.name`, `.name == $x`, `test($x)`, `or`, `|` and `not`. Which texts a regular expression matches is a parameter.
- CatalogQuery.FiltersSurviveIff: filter names are letters and digits, as those of the catalogue are; brackets, repeated parameters and the parameter limit of the query-string library are outside the model.
- Pinniped keys compare the authenticator by its name, as the source's equality does; its kind and API group are fixed for a process and play no part.
- JSON and its treatment of texts that are not UTF-8, for Docker entries and everywhere else.
- HTTP, gRPC, TLS, SQL text, tarballs, image resizing, React rendering, and the reducers other than that of packages.
