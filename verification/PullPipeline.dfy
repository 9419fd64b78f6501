/** The goroutines that pull charts: a producer, the import workers, the goroutine that
    closes their results, and the forwarder that feeds the main loop. Channels are
    bounded queues with a closed flag; sending on or closing a closed one panics. */
module PullPipeline {
  import opened Prelude
  import opened OciPull

  datatype Chan<T> = Chan(buf: seq<T>, capacity: nat, closed: bool) {
    predicate MaySend() {
      closed || |buf| < capacity
    }

    predicate Drained() {
      closed && buf == []
    }

    function Put(x: T): Chan<T> {
      this.(buf := buf + [x])
    }

    function Rest(): Chan<T>
      requires buf != []
    {
      this.(buf := buf[1..])
    }
  }

  const WORKERS := 10

  /** Workers are anonymous: `idle` of them wait for a job, one holds each result in
      `busy`, the others have left. `started` and `seen` record the jobs taken by workers
      and the results taken by the main loop. */
  datatype Pipeline = Pipeline(
    pending: seq<PullJob>, producing: bool, jobs: Chan<PullJob>,
    idle: nat, busy: multiset<PullResult>, results: Chan<PullResult>, closing: bool,
    hold: Option<PullResult>, forwarding: bool, out: Chan<PullResult>,
    started: seq<PullJob>, seen: seq<PullResult>, panicked: bool)

  /** `run` gives the result of a job, None when it crashes the worker; `jobs` are what the
      producer queues before it closes the channel or, with `crashes`, panics.
      `preloaded` are results that exist from the start: an index repository has all its
      charts at once and no pull jobs. */
  datatype Work = Work(run: PullJob -> Option<PullResult>, jobs: seq<PullJob>, crashes: bool,
      preloaded: seq<PullResult>)

  datatype Step =
    | QueueJob | CloseJobs
    | TakeJob | SendResult(r: PullResult) | LeaveJobs
    | CloseResults
    | TakeResult | ForwardResult | CloseOut
    | Deliver

  /** `OCIRegistry.Charts` starts with every job still to be queued. */
  function StartOci(w: Work): Pipeline {
    Pipeline(w.jobs, true, Chan([], WORKERS, false),
             WORKERS, multiset{}, Chan([], WORKERS, false), true,
             None, true, Chan([], 2, false), [], [], false)
  }

  /** `HelmRepo.Charts` runs only the forwarding loop, over a finished list. */
  function StartIndex(w: Work): Pipeline {
    Pipeline([], false, Chan([], WORKERS, true),
             0, multiset{}, Chan(w.preloaded, WORKERS + |w.preloaded|, true), false,
             None, true, Chan([], 2, false), [], [], false)
  }

  predicate Enabled(w: Work, p: Pipeline, l: Step) {
    !p.panicked &&
    match l
    case QueueJob => p.producing && p.pending != [] && p.jobs.MaySend()
    case CloseJobs => p.producing && p.pending == []
    case TakeJob => p.idle > 0 && p.jobs.buf != []
    case SendResult(r) => r in p.busy && p.results.MaySend()
    case LeaveJobs => p.idle > 0 && p.jobs.Drained()
    case CloseResults => p.closing && p.idle == 0 && p.busy == multiset{}
    case TakeResult => p.forwarding && p.hold.None? && p.results.buf != []
    case ForwardResult => p.forwarding && p.hold.Some? && p.out.MaySend()
    case CloseOut => p.forwarding && p.hold.None? && p.results.Drained()
    case Deliver => p.out.buf != []
  }

  function Next(w: Work, p: Pipeline, l: Step): Pipeline
    requires Enabled(w, p, l)
  {
    match l
    case QueueJob =>
      if p.jobs.closed then p.(panicked := true)
      else p.(pending := p.pending[1..], jobs := p.jobs.Put(p.pending[0]))
    case CloseJobs =>
      if p.jobs.closed || w.crashes then p.(panicked := true)
      else p.(producing := false, jobs := p.jobs.(closed := true))
    case TakeJob =>
      var job := p.jobs.buf[0];
      var r := w.run(job);
      if r.None? then p.(panicked := true)
      else p.(jobs := p.jobs.Rest(), idle := p.idle - 1, busy := p.busy + multiset{r.value},
        started := p.started + [job])
    case SendResult(r) =>
      if p.results.closed then p.(panicked := true)
      else p.(busy := p.busy - multiset{r}, idle := p.idle + 1, results := p.results.Put(r))
    case LeaveJobs => p.(idle := p.idle - 1)
    case CloseResults =>
      if p.results.closed then p.(panicked := true)
      else p.(closing := false, results := p.results.(closed := true))
    case TakeResult => p.(results := p.results.Rest(), hold := Some(p.results.buf[0]))
    case ForwardResult =>
      if p.out.closed then p.(panicked := true)
      else p.(hold := None, out := p.out.Put(p.hold.value))
    case CloseOut =>
      if p.out.closed then p.(panicked := true)
      else p.(forwarding := false, out := p.out.(closed := true))
    case Deliver => p.(out := p.out.Rest(), seen := p.seen + [p.out.buf[0]])
  }

  // ------------------------------------------------------------- the invariant

  /** How many of the jobs have the result. */
  function Expected(w: Work, jobs: seq<PullJob>, r: PullResult): nat {
    if jobs == [] then 0
    else Expected(w, jobs[..|jobs| - 1], r) + (if w.run(jobs[|jobs| - 1]) == Some(r) then 1 else 0)
  }

  /** How many copies of the result exist: with a worker, in a channel, with the
      forwarder, or seen by the main loop. */
  function Copies(p: Pipeline, r: PullResult): nat {
    p.busy[r] + multiset(p.results.buf)[r] + (if p.hold == Some(r) then 1 else 0) + multiset(p.out.buf)[r]
      + multiset(p.seen)[r]
  }

  ghost predicate Conserved(w: Work, p: Pipeline) {
    && w.jobs == p.started + p.jobs.buf + p.pending
    && forall r :: Copies(p, r) == Expected(w, p.started, r) + multiset(w.preloaded)[r]
  }

  ghost predicate Orderly(w: Work, p: Pipeline) {
    && p.jobs.capacity > 0 && p.results.capacity > 0 && p.out.capacity > 0
    && p.jobs.closed == !p.producing
    && (!p.producing ==> p.pending == [])
    && p.results.closed == !p.closing
    && p.out.closed == !p.forwarding
    && p.idle + |p.busy| <= WORKERS
    && (p.idle + |p.busy| < WORKERS ==> p.jobs.Drained())
    && (!p.closing ==> p.idle == 0 && p.busy == multiset{})
    && (!p.forwarding ==> p.results.Drained() && p.hold.None?)
  }

  ghost predicate NoCrash(w: Work) {
    !w.crashes && forall j :: j in w.jobs ==> w.run(j).Some?
  }

  ghost predicate Inv(w: Work, p: Pipeline) {
    && Orderly(w, p)
    && Conserved(w, p)
    && (forall j :: j in p.started ==> w.run(j).Some?)
    && (p.panicked ==> !NoCrash(w))
    && (p.jobs.closed ==> !w.crashes)
  }

  lemma OciStartInv(w: Work)
    requires w.preloaded == []
    ensures Inv(w, StartOci(w))
  {
  }

  lemma IndexStartInv(w: Work)
    requires w.jobs == [] && !w.crashes
    ensures Inv(w, StartIndex(w))
  {
  }

  lemma ExpectedSnoc(w: Work, jobs: seq<PullJob>, job: PullJob, r: PullResult)
    ensures Expected(w, jobs + [job], r) == Expected(w, jobs, r) + (if w.run(job) == Some(r) then 1 else 0)
  {
    assert (jobs + [job])[..|jobs|] == jobs;
  }

  lemma HeadOf<T>(s: seq<T>)
    requires s != []
    ensures multiset(s) == multiset{s[0]} + multiset(s[1..])
  {
    assert s == [s[0]] + s[1..];
  }

  lemma StepKeepsOrder(w: Work, p: Pipeline, l: Step)
    requires Inv(w, p) && Enabled(w, p, l)
    ensures Orderly(w, Next(w, p, l))
    ensures Next(w, p, l).panicked ==> !NoCrash(w)
  {
    if l.TakeJob? {
      assert p.jobs.buf[0] in w.jobs;
    }
  }

  lemma FirstOfLast<T>(a: seq<T>, b: seq<T>, c: seq<T>)
    requires c != []
    ensures a + (b + [c[0]]) + c[1..] == a + b + c
  {
  }

  lemma FirstOfMiddle<T>(a: seq<T>, b: seq<T>, c: seq<T>)
    requires b != []
    ensures (a + [b[0]]) + b[1..] + c == a + b + c
  {
  }

  lemma StepKeepsJobs(w: Work, p: Pipeline, l: Step)
    requires Inv(w, p) && Enabled(w, p, l)
    ensures var q := Next(w, p, l); q.started + q.jobs.buf + q.pending == w.jobs
  {
    if l.QueueJob? {
      FirstOfLast(p.started, p.jobs.buf, p.pending);
    } else if l.TakeJob? {
      FirstOfMiddle(p.started, p.jobs.buf, p.pending);
    }
  }

  lemma StepKeepsStarted(w: Work, p: Pipeline, l: Step)
    requires Inv(w, p) && Enabled(w, p, l)
    ensures forall j :: j in Next(w, p, l).started ==> w.run(j).Some?
  {
    var q := Next(w, p, l);
    if q.started != p.started {
      assert q.started == p.started + [p.jobs.buf[0]];
    }
  }

  lemma OnlyBusyGains(p: Pipeline, q: Pipeline, r: PullResult, n: nat)
    requires q.results == p.results && q.hold == p.hold && q.out == p.out && q.seen == p.seen
    requires q.busy[r] == p.busy[r] + n
    ensures Copies(q, r) == Copies(p, r) + n
  {
  }

  lemma OneMoreBusy(busy: multiset<PullResult>, x: PullResult, r: PullResult)
    ensures (busy + multiset{x})[r] == busy[r] + (if x == r then 1 else 0)
  {
  }

  lemma TakeJobCopies(w: Work, p: Pipeline, r: PullResult)
    requires Enabled(w, p, TakeJob)
    ensures Copies(Next(w, p, TakeJob), r) == Copies(p, r) + (if w.run(p.jobs.buf[0]) == Some(r) then 1 else 0)
  {
    var result := w.run(p.jobs.buf[0]);
    if result.Some? {
      OneMoreBusy(p.busy, result.value, r);
      OnlyBusyGains(p, Next(w, p, TakeJob), r, if result.value == r then 1 else 0);
    }
  }

  lemma SendResultCopies(w: Work, p: Pipeline, x: PullResult, r: PullResult)
    requires Enabled(w, p, SendResult(x))
    ensures Copies(Next(w, p, SendResult(x)), r) == Copies(p, r)
  {
    OneMoreResult(p.results.buf, x, r);
    OneLessBusy(p.busy, x, r);
  }

  lemma OneMoreResult(results: seq<PullResult>, x: PullResult, r: PullResult)
    ensures multiset(results + [x])[r] == multiset(results)[r] + (if x == r then 1 else 0)
  {
  }

  lemma OneLessBusy(busy: multiset<PullResult>, x: PullResult, r: PullResult)
    requires x in busy
    ensures (busy - multiset{x})[r] == busy[r] - (if x == r then 1 else 0)
  {
  }

  lemma TakeResultCopies(w: Work, p: Pipeline, r: PullResult)
    requires Enabled(w, p, TakeResult)
    ensures Copies(Next(w, p, TakeResult), r) == Copies(p, r)
  {
    HeadOf(p.results.buf);
  }

  lemma ForwardCopies(w: Work, p: Pipeline, r: PullResult)
    requires Enabled(w, p, ForwardResult)
    ensures Copies(Next(w, p, ForwardResult), r) == Copies(p, r)
  {
    OneMoreResult(p.out.buf, p.hold.value, r);
  }

  lemma DeliverCopies(w: Work, p: Pipeline, r: PullResult)
    requires Enabled(w, p, Deliver)
    ensures Copies(Next(w, p, Deliver), r) == Copies(p, r)
  {
    HeadOf(p.out.buf);
    OneMoreResult(p.seen, p.out.buf[0], r);
  }

  lemma SameCopies(p: Pipeline, q: Pipeline, r: PullResult)
    requires q.busy == p.busy && q.results.buf == p.results.buf && q.hold == p.hold
    requires q.out.buf == p.out.buf && q.seen == p.seen
    ensures Copies(q, r) == Copies(p, r)
  {
  }

  /** A step moves copies of a result about; only taking its job makes one. */
  lemma StepCopies(w: Work, p: Pipeline, l: Step, r: PullResult)
    requires Enabled(w, p, l)
    ensures var q := Next(w, p, l);
      Copies(q, r) + Expected(w, p.started, r) == Copies(p, r) + Expected(w, q.started, r)
  {
    match l
    case TakeJob =>
      TakeJobCopies(w, p, r);
      ExpectedSnoc(w, p.started, p.jobs.buf[0], r);
    case SendResult(x) => SendResultCopies(w, p, x, r);
    case TakeResult => TakeResultCopies(w, p, r);
    case ForwardResult => ForwardCopies(w, p, r);
    case Deliver => DeliverCopies(w, p, r);
    case _ => SameCopies(p, Next(w, p, l), r);
  }

  /** Whatever goroutine moves next, the invariant is kept. */
  lemma StepKeepsInv(w: Work, p: Pipeline, l: Step)
    requires Inv(w, p) && Enabled(w, p, l)
    ensures Inv(w, Next(w, p, l))
  {
    StepKeepsOrder(w, p, l);
    StepKeepsJobs(w, p, l);
    StepKeepsStarted(w, p, l);
    forall r { StepCopies(w, p, l, r); }
  }

  /** As long as the results are not all delivered, some goroutine can move. */
  lemma CanMove(w: Work, p: Pipeline) returns (l: Step)
    requires Inv(w, p) && !p.panicked && !p.out.Drained()
    ensures Enabled(w, p, l)
  {
    if p.out.buf != [] {
      l := Deliver;
    } else if p.hold.Some? {
      l := ForwardResult;
    } else if p.results.buf != [] {
      l := TakeResult;
    } else if p.results.closed {
      l := CloseOut;
    } else if p.busy != multiset{} {
      var r :| r in p.busy;
      l := SendResult(r);
    } else if p.idle == 0 {
      l := CloseResults;
    } else if p.jobs.buf != [] {
      l := TakeJob;
    } else if p.jobs.closed {
      l := LeaveJobs;
    } else if p.pending == [] {
      l := CloseJobs;
    } else {
      l := QueueJob;
    }
  }

  function HoldRank(p: Pipeline): nat {
    (if p.hold.Some? then 1 else 0) + (if p.forwarding then 2 else 0)
  }

  function Alive(p: Pipeline): nat {
    p.idle + |p.busy|
  }

  /** A lexicographic measure: work only moves towards the main loop. */
  predicate Decreases(p: Pipeline, q: Pipeline) {
    || |q.pending| < |p.pending|
    || (|q.pending| == |p.pending| &&
        (|| (p.producing && !q.producing)
         || (p.producing == q.producing &&
             (|| |q.jobs.buf| < |p.jobs.buf|
              || (|q.jobs.buf| == |p.jobs.buf| && DecreasesLater(p, q))))))
  }

  predicate DecreasesLater(p: Pipeline, q: Pipeline) {
    || |q.busy| < |p.busy|
    || (|q.busy| == |p.busy| &&
        (|| Alive(q) < Alive(p)
         || (Alive(q) == Alive(p) && ((p.closing && !q.closing) || (p.closing == q.closing && DecreasesLast(p, q))))))
  }

  predicate DecreasesLast(p: Pipeline, q: Pipeline) {
    || |q.results.buf| < |p.results.buf|
    || (|q.results.buf| == |p.results.buf| &&
        (HoldRank(q) < HoldRank(p) || (HoldRank(q) == HoldRank(p) && |q.out.buf| < |p.out.buf|)))
  }

  lemma ProducerDecreases(w: Work, p: Pipeline, l: Step)
    requires Enabled(w, p, l) && !Next(w, p, l).panicked && (l == QueueJob || l == CloseJobs || l == TakeJob)
    ensures Decreases(p, Next(w, p, l))
  {
    var q := Next(w, p, l);
    match l
    case QueueJob => assert |q.pending| < |p.pending|;
    case CloseJobs => assert q.pending == p.pending && p.producing && !q.producing;
    case TakeJob => assert q.pending == p.pending && q.producing == p.producing && |q.jobs.buf| < |p.jobs.buf|;
  }

  lemma SendDecreases(w: Work, p: Pipeline, r: PullResult)
    requires Enabled(w, p, SendResult(r)) && !Next(w, p, SendResult(r)).panicked
    ensures DecreasesLater(p, Next(w, p, SendResult(r)))
  {
    assert |p.busy - multiset{r}| == |p.busy| - 1;
  }

  lemma WorkerDecreases(w: Work, p: Pipeline, l: Step)
    requires Enabled(w, p, l) && !Next(w, p, l).panicked && (l == LeaveJobs || l == CloseResults)
    ensures DecreasesLater(p, Next(w, p, l))
  {
  }

  lemma ForwarderDecreases(w: Work, p: Pipeline, l: Step)
    requires Enabled(w, p, l) && !Next(w, p, l).panicked
    requires l == TakeResult || l == ForwardResult || l == CloseOut || l == Deliver
    ensures DecreasesLast(p, Next(w, p, l))
  {
  }

  lemma LaterIsEnough(p: Pipeline, q: Pipeline)
    requires q.pending == p.pending && q.producing == p.producing && q.jobs.buf == p.jobs.buf && DecreasesLater(p, q)
    ensures Decreases(p, q)
  {
  }

  lemma LastIsEnough(p: Pipeline, q: Pipeline)
    requires q.busy == p.busy && q.idle == p.idle && q.closing == p.closing && DecreasesLast(p, q)
    ensures DecreasesLater(p, q)
  {
  }

  lemma StepDecreases(w: Work, p: Pipeline, l: Step)
    requires Enabled(w, p, l) && !Next(w, p, l).panicked
    ensures Decreases(p, Next(w, p, l))
  {
    var q := Next(w, p, l);
    match l
    case QueueJob => ProducerDecreases(w, p, l);
    case CloseJobs => ProducerDecreases(w, p, l);
    case TakeJob => ProducerDecreases(w, p, l);
    case SendResult(r) =>
      SendDecreases(w, p, r);
      LaterIsEnough(p, q);
    case LeaveJobs =>
      WorkerDecreases(w, p, l);
      LaterIsEnough(p, q);
    case CloseResults =>
      WorkerDecreases(w, p, l);
      LaterIsEnough(p, q);
    case _ =>
      ForwarderDecreases(w, p, l);
      LastIsEnough(p, q);
      LaterIsEnough(p, q);
  }
}
