/** The file importer of one pass: `fetchFiles` queues icon jobs as charts arrive, then
    the files of every chart's latest version, then those of the older versions; ten
    workers drain the icon jobs before they turn to the files. */
module FileImporter {
  import opened Prelude
  import opened Versions
  import opened Catalogue
  import opened PullPipeline

  datatype FilesJob = FilesJob(chartId: string, version: ChartVersion)

  datatype Fetcher = Receiving | SendingIcon(chart: Chart) | Enqueuing | AwaitingWorkers | Signalling | Returned

  /** Workers are anonymous: some wait for an icon, some hold one, some wait for files,
      some hold a files job, the rest have left. `sent` are the charts handed over so
      far; `iconsTaken`, `iconsDone`, `filesTaken` and `filesDone` record the workers' history. */
  datatype Importer = Importer(
    sent: seq<Chart>, inputClosed: bool,
    fetcher: Fetcher, received: seq<Chart>, todo: seq<FilesJob>,
    icons: Chan<Chart>, iconIdle: nat, iconBusy: multiset<Chart>,
    files: Chan<FilesJob>, fileIdle: nat, fileBusy: multiset<FilesJob>, gone: nat,
    iconsTaken: seq<Chart>, iconsDone: multiset<Chart>,
    filesTaken: seq<FilesJob>, filesDone: multiset<FilesJob>, panicked: bool)

  datatype ImportStep =
    | Accept(chart: Chart) | CloseInput
    | QueueIcon | CloseIcons | QueueFiles | CloseFiles | AllGone | Signal
    | TakeIcon | FinishIcon(chart: Chart) | LeaveIcons
    | TakeFiles | FinishFiles(job: FilesJob) | LeaveFiles

  function Start(): Importer {
    Importer([], false, Receiving, [], [],
             Chan([], WORKERS, false), WORKERS, multiset{},
             Chan([], WORKERS, false), 0, multiset{}, 0, [], multiset{}, [], multiset{}, false)
  }

  predicate HaveVersions(charts: seq<Chart>) {
    forall c :: c in charts ==> c.versions != []
  }

  function Latest(charts: seq<Chart>): (r: seq<FilesJob>)
    requires HaveVersions(charts)
    ensures |r| == |charts|
  {
    if charts == [] then [] else [FilesJob(charts[0].id, charts[0].versions[0])] + Latest(charts[1..])
  }

  function JobsOf(id: string, versions: seq<ChartVersion>): (r: seq<FilesJob>)
    ensures |r| == |versions|
  {
    if versions == [] then [] else [FilesJob(id, versions[0])] + JobsOf(id, versions[1..])
  }

  function Historic(charts: seq<Chart>): (r: seq<FilesJob>)
    requires HaveVersions(charts)
  {
    if charts == [] then [] else JobsOf(charts[0].id, charts[0].versions[1..]) + Historic(charts[1..])
  }

  /** The order in which files jobs are queued. */
  function Plan(charts: seq<Chart>): (r: seq<FilesJob>)
    requires HaveVersions(charts)
  {
    Latest(charts) + Historic(charts)
  }

  predicate Enabled(m: Importer, l: ImportStep) {
    !m.panicked &&
    match l
    case Accept(_) => m.fetcher == Receiving && !m.inputClosed
    case CloseInput => true
    case QueueIcon => m.fetcher.SendingIcon? && m.icons.MaySend()
    case CloseIcons => m.fetcher == Receiving && m.inputClosed
    case QueueFiles => m.fetcher == Enqueuing && m.todo != [] && m.files.MaySend()
    case CloseFiles => m.fetcher == Enqueuing && m.todo == []
    case AllGone => m.fetcher == AwaitingWorkers && m.gone == WORKERS
    case Signal => m.fetcher == Signalling
    case TakeIcon => m.iconIdle > 0 && m.icons.buf != []
    case FinishIcon(c) => c in m.iconBusy
    case LeaveIcons => m.iconIdle > 0 && m.icons.Drained()
    case TakeFiles => m.fileIdle > 0 && m.files.buf != []
    case FinishFiles(j) => j in m.fileBusy
    case LeaveFiles => m.fileIdle > 0 && m.files.Drained()
  }

  function Next(m: Importer, l: ImportStep): Importer
    requires Enabled(m, l)
  {
    match l
    case Accept(c) => m.(fetcher := SendingIcon(c), sent := m.sent + [c])
    case CloseInput => if m.inputClosed then m.(panicked := true) else m.(inputClosed := true)
    case QueueIcon =>
      if m.icons.closed then m.(panicked := true)
      else m.(fetcher := Receiving, icons := m.icons.Put(m.fetcher.chart), received := m.received + [m.fetcher.chart])
    case CloseIcons =>
      if m.icons.closed || !HaveVersions(m.received) then m.(panicked := true)
      else m.(fetcher := Enqueuing, icons := m.icons.(closed := true), todo := Plan(m.received))
    case QueueFiles =>
      if m.files.closed then m.(panicked := true)
      else m.(todo := m.todo[1..], files := m.files.Put(m.todo[0]))
    case CloseFiles =>
      if m.files.closed then m.(panicked := true)
      else m.(fetcher := AwaitingWorkers, files := m.files.(closed := true))
    case AllGone => m.(fetcher := Signalling)
    case Signal => m.(fetcher := Returned)
    case TakeIcon =>
      var c := m.icons.buf[0];
      m.(icons := m.icons.Rest(), iconIdle := m.iconIdle - 1, iconBusy := m.iconBusy + multiset{c},
        iconsTaken := m.iconsTaken + [c])
    case FinishIcon(c) =>
      m.(iconBusy := m.iconBusy - multiset{c}, iconIdle := m.iconIdle + 1, iconsDone := m.iconsDone + multiset{c})
    case LeaveIcons => m.(iconIdle := m.iconIdle - 1, fileIdle := m.fileIdle + 1)
    case TakeFiles =>
      var j := m.files.buf[0];
      m.(files := m.files.Rest(), fileIdle := m.fileIdle - 1, fileBusy := m.fileBusy + multiset{j},
        filesTaken := m.filesTaken + [j])
    case FinishFiles(j) =>
      m.(fileBusy := m.fileBusy - multiset{j}, fileIdle := m.fileIdle + 1, filesDone := m.filesDone + multiset{j})
    case LeaveFiles => m.(fileIdle := m.fileIdle - 1, gone := m.gone + 1)
  }

  /** A step panics just when it sends on a channel that is closed, closes one again, or looks
      for the latest version of a chart that has none. */
  lemma PanicsIff(m: Importer, l: ImportStep)
    requires Enabled(m, l)
    ensures Next(m, l).panicked <==>
      match l
      case CloseInput => m.inputClosed
      case QueueIcon => m.icons.closed
      case CloseIcons => m.icons.closed || exists c :: c in m.received && c.versions == []
      case QueueFiles => m.files.closed
      case CloseFiles => m.files.closed
      case _ => false
  {
  }

  // ------------------------------------------------------------- the invariant

  predicate IconsQueued(f: Fetcher) {
    f == Enqueuing || FilesQueued(f)
  }

  predicate FilesQueued(f: Fetcher) {
    f == AwaitingWorkers || f == Signalling || f == Returned
  }

  ghost predicate Orderly(m: Importer) {
    && !m.panicked
    && m.icons.capacity > 0 && m.files.capacity > 0
    && m.icons.closed == IconsQueued(m.fetcher)
    && m.files.closed == FilesQueued(m.fetcher)
    && (IconsQueued(m.fetcher) ==> m.inputClosed)
    && (FilesQueued(m.fetcher) ==> m.todo == [])
    && m.iconIdle + |m.iconBusy| + m.fileIdle + |m.fileBusy| + m.gone == WORKERS
    && (m.fileIdle + |m.fileBusy| + m.gone > 0 ==> m.icons.Drained())
    && (m.gone > 0 ==> m.files.Drained())
    && (m.fetcher == Signalling || m.fetcher == Returned ==> m.gone == WORKERS)
    && HaveVersions(m.sent)
  }

  ghost predicate IconsInOrder(m: Importer) {
    && HaveVersions(m.received)
    && m.sent == m.received + (if m.fetcher.SendingIcon? then [m.fetcher.chart] else [])
    && m.received == m.iconsTaken + m.icons.buf
  }

  ghost predicate IconsCounted(m: Importer) {
    forall c :: multiset(m.iconsTaken)[c] == m.iconBusy[c] + m.iconsDone[c]
  }

  ghost predicate FilesInOrder(m: Importer)
    requires HaveVersions(m.received)
  {
    && (if IconsQueued(m.fetcher) then Plan(m.received) == m.filesTaken + m.files.buf + m.todo
        else m.filesTaken == m.files.buf == m.todo == [])
    && (m.filesTaken != [] ==> m.icons.Drained())
  }

  ghost predicate FilesCounted(m: Importer) {
    forall j :: multiset(m.filesTaken)[j] == m.fileBusy[j] + m.filesDone[j]
  }

  /** Jobs are taken in the order in which they are queued, and none is lost or doubled. */
  ghost predicate InOrder(m: Importer) {
    IconsInOrder(m) && IconsCounted(m) && FilesInOrder(m) && FilesCounted(m)
  }

  ghost predicate Inv(m: Importer) {
    Orderly(m) && InOrder(m)
  }

  lemma StartInv()
    ensures Inv(Start())
  {
  }

  /** What the main loop must respect: it closes its end once, and a chart it hands over
      has a version. */
  ghost predicate Fair(m: Importer, l: ImportStep) {
    (l.Accept? ==> l.chart.versions != []) && (l.CloseInput? ==> !m.inputClosed)
  }

  predicate OfWorker(l: ImportStep) {
    l == TakeIcon || l.FinishIcon? || l == LeaveIcons || l == TakeFiles || l.FinishFiles? || l == LeaveFiles
  }

  lemma FetcherKeepsOrder(m: Importer, l: ImportStep)
    requires Orderly(m) && IconsInOrder(m) && Enabled(m, l) && Fair(m, l) && !OfWorker(l)
    ensures Orderly(Next(m, l))
  {
    if l.Accept? {
      assert forall c :: c in m.sent + [l.chart] ==> c in m.sent || c == l.chart;
    }
  }

  lemma FinishIconKeepsOrder(m: Importer, c: Chart)
    requires Orderly(m) && Enabled(m, FinishIcon(c))
    ensures Orderly(Next(m, FinishIcon(c)))
  {
    assert |m.iconBusy - multiset{c}| == |m.iconBusy| - 1;
  }

  lemma FinishFilesKeepsOrder(m: Importer, j: FilesJob)
    requires Orderly(m) && Enabled(m, FinishFiles(j))
    ensures Orderly(Next(m, FinishFiles(j)))
  {
    assert |m.fileBusy - multiset{j}| == |m.fileBusy| - 1;
  }

  lemma WorkerKeepsOrder(m: Importer, l: ImportStep)
    requires Orderly(m) && Enabled(m, l) && OfWorker(l)
    ensures Orderly(Next(m, l))
  {
    if l.FinishIcon? {
      FinishIconKeepsOrder(m, l.chart);
    } else if l.FinishFiles? {
      FinishFilesKeepsOrder(m, l.job);
    }
  }

  lemma QueueIconKeepsIcons(m: Importer)
    requires Orderly(m) && IconsInOrder(m) && Enabled(m, QueueIcon)
    ensures IconsInOrder(Next(m, QueueIcon))
  {
    assert m.iconsTaken + m.icons.buf + [m.fetcher.chart] == m.iconsTaken + (m.icons.buf + [m.fetcher.chart]);
  }

  lemma TakeIconKeepsIcons(m: Importer)
    requires IconsInOrder(m) && Enabled(m, TakeIcon)
    ensures IconsInOrder(Next(m, TakeIcon))
  {
    assert m.iconsTaken + m.icons.buf == (m.iconsTaken + [m.icons.buf[0]]) + m.icons.buf[1..];
  }

  lemma StepKeepsIcons(m: Importer, l: ImportStep)
    requires Orderly(m) && IconsInOrder(m) && Enabled(m, l) && Fair(m, l)
    ensures IconsInOrder(Next(m, l))
  {
    if l == QueueIcon {
      QueueIconKeepsIcons(m);
    } else if l == TakeIcon {
      TakeIconKeepsIcons(m);
    } else {
      var q := Next(m, l);
      assert q.received == m.received && q.iconsTaken == m.iconsTaken && q.icons.buf == m.icons.buf;
      assert l.Accept? ==> m.sent == m.received;
    }
  }

  lemma OneMore<T>(taken: seq<T>, x: T, c: T)
    ensures multiset(taken + [x])[c] == multiset(taken)[c] + multiset{x}[c]
  {
  }

  lemma StepKeepsIconCounts(m: Importer, l: ImportStep)
    requires IconsCounted(m) && Enabled(m, l)
    ensures IconsCounted(Next(m, l))
  {
    var q := Next(m, l);
    if l == TakeIcon {
      forall c ensures multiset(q.iconsTaken)[c] == q.iconBusy[c] + q.iconsDone[c] {
        OneMore(m.iconsTaken, m.icons.buf[0], c);
      }
    } else {
      assert q.iconsTaken == m.iconsTaken;
    }
  }

  lemma QueueFilesKeepsFiles(m: Importer)
    requires Orderly(m) && IconsInOrder(m) && FilesInOrder(m) && Enabled(m, QueueFiles)
    ensures var q := Next(m, QueueFiles); q.received == m.received && FilesInOrder(q)
  {
    FirstOfLast(m.filesTaken, m.files.buf, m.todo);
  }

  lemma TakeFilesKeepsFiles(m: Importer)
    requires Orderly(m) && IconsInOrder(m) && FilesInOrder(m) && Enabled(m, TakeFiles)
    ensures var q := Next(m, TakeFiles); q.received == m.received && FilesInOrder(q)
  {
    FirstOfMiddle(m.filesTaken, m.files.buf, m.todo);
  }

  lemma CloseIconsKeepsFiles(m: Importer)
    requires Orderly(m) && IconsInOrder(m) && FilesInOrder(m) && Enabled(m, CloseIcons)
    ensures var q := Next(m, CloseIcons); q.received == m.received && FilesInOrder(q)
  {
    var plan := Plan(m.received);
    assert [] + [] + plan == plan;
  }

  lemma StepKeepsFiles(m: Importer, l: ImportStep)
    requires Orderly(m) && IconsInOrder(m) && FilesInOrder(m) && Enabled(m, l) && Fair(m, l)
    requires HaveVersions(Next(m, l).received)
    ensures FilesInOrder(Next(m, l))
  {
    if l == QueueFiles {
      QueueFilesKeepsFiles(m);
    } else if l == TakeFiles {
      TakeFilesKeepsFiles(m);
    } else if l == CloseIcons {
      CloseIconsKeepsFiles(m);
    } else {
      OthersKeepFiles(m, l);
    }
  }

  lemma OthersKeepFiles(m: Importer, l: ImportStep)
    requires Orderly(m) && IconsInOrder(m) && FilesInOrder(m) && Enabled(m, l)
    requires l != QueueFiles && l != TakeFiles && l != CloseIcons
    requires HaveVersions(Next(m, l).received)
    ensures FilesInOrder(Next(m, l))
  {
    var q := Next(m, l);
    assert q.filesTaken == m.filesTaken && q.files.buf == m.files.buf && q.todo == m.todo;
    assert IconsQueued(q.fetcher) == IconsQueued(m.fetcher);
    assert IconsQueued(q.fetcher) ==> q.received == m.received;
  }

  lemma StepKeepsFileCounts(m: Importer, l: ImportStep)
    requires FilesCounted(m) && Enabled(m, l)
    ensures FilesCounted(Next(m, l))
  {
    var q := Next(m, l);
    if l == TakeFiles {
      forall j ensures multiset(q.filesTaken)[j] == q.fileBusy[j] + q.filesDone[j] {
        OneMore(m.filesTaken, m.files.buf[0], j);
      }
    } else {
      assert q.filesTaken == m.filesTaken;
    }
  }

  lemma StepKeepsInv(m: Importer, l: ImportStep)
    requires Inv(m) && Enabled(m, l) && Fair(m, l)
    ensures Inv(Next(m, l))
  {
    if OfWorker(l) {
      WorkerKeepsOrder(m, l);
    } else {
      FetcherKeepsOrder(m, l);
    }
    StepKeepsIcons(m, l);
    StepKeepsIconCounts(m, l);
    StepKeepsFiles(m, l);
    StepKeepsFileCounts(m, l);
  }

  // ------------------------------------------------------------- what it promises

  /** A files job is only ever taken when every icon job of the pass has been taken. */
  lemma IconsBeforeFiles(m: Importer)
    requires Inv(m) && (Enabled(m, TakeFiles) || m.filesTaken != [])
    ensures m.iconsTaken == m.sent && m.inputClosed
  {
    assert m.icons.Drained() by {
      if Enabled(m, TakeFiles) {
        assert m.fileIdle > 0;
      }
    }
    assert IconsQueued(m.fetcher) && !m.fetcher.SendingIcon?;
    assert m.received == m.iconsTaken + [];
  }

  /** Files jobs of older versions are only taken after those of every latest version. */
  lemma LatestBeforeHistoric(m: Importer)
    requires Inv(m)
    ensures m.filesTaken != [] ==> m.filesTaken <= Latest(m.sent) + Historic(m.sent)
    ensures |m.filesTaken| > |Latest(m.sent)| ==> Latest(m.sent) <= m.filesTaken
  {
    if m.filesTaken != [] {
      IconsBeforeFiles(m);
      var plan := Plan(m.sent);
      assert m.received == m.iconsTaken + [] == m.sent;
      assert plan == m.filesTaken + (m.files.buf + m.todo);
      if |m.filesTaken| > |Latest(m.sent)| {
        assert m.filesTaken[..|Latest(m.sent)|] == plan[..|Latest(m.sent)|] == Latest(m.sent);
      }
    }
  }

  /** The importer reports the end only after every icon and every files job of every
      chart it was handed has been processed, exactly once. */
  lemma SignalledMeansDone(m: Importer)
    requires Inv(m) && (m.fetcher == Signalling || m.fetcher == Returned)
    ensures m.iconsDone == multiset(m.sent)
    ensures m.filesDone == multiset(Plan(m.sent))
  {
    assert m.iconBusy == multiset{} && m.fileBusy == multiset{};
    assert m.filesTaken + m.files.buf + m.todo == m.filesTaken;
    assert m.iconsTaken + m.icons.buf == m.iconsTaken;
  }

  /** Unless the importer waits for a chart or has returned, someone can move. */
  lemma CanMove(m: Importer) returns (l: ImportStep)
    requires Inv(m) && m.fetcher != Returned && (m.fetcher == Receiving ==> m.inputClosed)
    ensures Enabled(m, l) && !l.Accept? && !l.CloseInput?
  {
    if m.fetcher == Receiving {
      l := CloseIcons;
    } else if m.fetcher == Signalling {
      l := Signal;
    } else if m.fetcher.SendingIcon? && m.icons.MaySend() {
      l := QueueIcon;
    } else if m.fetcher == Enqueuing && m.todo == [] {
      l := CloseFiles;
    } else if m.fetcher == Enqueuing && m.files.MaySend() {
      l := QueueFiles;
    } else if m.fetcher == AwaitingWorkers && m.gone == WORKERS {
      l := AllGone;
    } else {
      l := WorkerCanMove(m);
    }
  }

  lemma WorkerCanMove(m: Importer) returns (l: ImportStep)
    requires Inv(m) && m.gone < WORKERS
    requires m.icons.buf != [] || m.icons.closed
    requires m.icons.buf == [] ==> m.files.buf != [] || m.files.closed || m.iconIdle > 0 || m.iconBusy != multiset{}
    ensures Enabled(m, l) && !l.Accept? && !l.CloseInput?
  {
    if m.iconBusy != multiset{} {
      var c :| c in m.iconBusy;
      l := FinishIcon(c);
    } else if m.fileBusy != multiset{} {
      var j :| j in m.fileBusy;
      l := FinishFiles(j);
    } else if m.iconIdle > 0 {
      l := if m.icons.buf != [] then TakeIcon else LeaveIcons;
    } else {
      l := if m.files.buf != [] then TakeFiles else LeaveFiles;
    }
  }

  // ------------------------------------------------------------- termination

  function FetcherRank(f: Fetcher): nat {
    match f
    case SendingIcon(_) => 5
    case Receiving => 4
    case Enqueuing => 3
    case AwaitingWorkers => 2
    case Signalling => 1
    case Returned => 0
  }

  predicate Decreases(m: Importer, q: Importer) {
    || FetcherRank(q.fetcher) < FetcherRank(m.fetcher)
    || (FetcherRank(q.fetcher) == FetcherRank(m.fetcher) &&
        (|q.todo| < |m.todo| || (|q.todo| == |m.todo| &&
          (|q.icons.buf| < |m.icons.buf| || (|q.icons.buf| == |m.icons.buf| && DecreasesLater(m, q))))))
  }

  predicate DecreasesLater(m: Importer, q: Importer) {
    || |q.iconBusy| < |m.iconBusy|
    || (|q.iconBusy| == |m.iconBusy| &&
        (q.iconIdle + |q.iconBusy| < m.iconIdle + |m.iconBusy| ||
         (q.iconIdle == m.iconIdle && DecreasesLast(m, q))))
  }

  predicate DecreasesLast(m: Importer, q: Importer) {
    || |q.files.buf| < |m.files.buf|
    || (|q.files.buf| == |m.files.buf| &&
        (|q.fileBusy| < |m.fileBusy| || (|q.fileBusy| == |m.fileBusy| && q.fileIdle < m.fileIdle)))
  }

  lemma WorkerDecreases(m: Importer, l: ImportStep)
    requires Enabled(m, l) && !Next(m, l).panicked && (l == TakeFiles || l.FinishFiles? || l == LeaveFiles)
    ensures DecreasesLast(m, Next(m, l))
  {
    if l.FinishFiles? {
      assert |m.fileBusy - multiset{l.job}| == |m.fileBusy| - 1;
    }
  }

  lemma IconWorkerDecreases(m: Importer, l: ImportStep)
    requires Enabled(m, l) && !Next(m, l).panicked && (l.FinishIcon? || l == LeaveIcons)
    ensures DecreasesLater(m, Next(m, l))
  {
    if l.FinishIcon? {
      assert |m.iconBusy - multiset{l.chart}| == |m.iconBusy| - 1;
    }
  }

  lemma FetcherDecreases(m: Importer, l: ImportStep)
    requires Enabled(m, l) && !Next(m, l).panicked
    requires l == QueueIcon || l == CloseIcons || l == CloseFiles || l == AllGone || l == Signal
    ensures FetcherRank(Next(m, l).fetcher) < FetcherRank(m.fetcher)
  {
  }

  lemma QueueDecreases(m: Importer, l: ImportStep)
    requires Enabled(m, l) && !Next(m, l).panicked && (l == QueueFiles || l == TakeIcon)
    ensures Decreases(m, Next(m, l))
  {
    var q := Next(m, l);
    if l == QueueFiles {
      assert q.fetcher == m.fetcher && |q.todo| < |m.todo|;
    } else {
      assert q.fetcher == m.fetcher && q.todo == m.todo && |q.icons.buf| < |m.icons.buf|;
    }
  }

  lemma LastIsEnough(m: Importer, q: Importer)
    requires q.iconBusy == m.iconBusy && q.iconIdle == m.iconIdle && DecreasesLast(m, q)
    ensures DecreasesLater(m, q)
  {
  }

  lemma LaterIsEnough(m: Importer, q: Importer)
    requires q.fetcher == m.fetcher && q.todo == m.todo && q.icons == m.icons && DecreasesLater(m, q)
    ensures Decreases(m, q)
  {
  }

  lemma StepDecreases(m: Importer, l: ImportStep)
    requires Enabled(m, l) && !Next(m, l).panicked && !l.Accept? && !l.CloseInput?
    ensures Decreases(m, Next(m, l))
  {
    var q := Next(m, l);
    if l == TakeFiles || l.FinishFiles? || l == LeaveFiles {
      WorkerDecreases(m, l);
      LastIsEnough(m, q);
      LaterIsEnough(m, q);
    } else if l.FinishIcon? || l == LeaveIcons {
      IconWorkerDecreases(m, l);
      LaterIsEnough(m, q);
    } else if l == QueueFiles || l == TakeIcon {
      QueueDecreases(m, l);
    } else {
      FetcherDecreases(m, l);
    }
  }
}
