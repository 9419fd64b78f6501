/** Fetching a paged list while other parts of the dashboard act on the same store: what is
    shown at the end is the whole list. */
module PagingProtocol {
  import opened Prelude
  import opened Text
  import opened PackagePaging

  type Pages = seq<seq<Package>>

  /** A request for a page, made after so many resets. */
  datatype Ask = Ask(generation: nat, page: nat)

  /** The store, the token that the catalogue has copied from it, the list at the server, the
      number of resets so far, the requests not yet answered, and how many pages have come in
      at least once since the last reset. */
  datatype System = System(store: State, token: string, pages: Pages, generation: nat, flight: multiset<Ask>,
      reached: nat)

  /** The token of a page; there is none for the first, nor for what follows the last. */
  function TokenOf(k: nat, n: nat): string {
    if k == 0 || k >= n then "" else Decimal(k)
  }

  /** The page that a token asks for, among those below `n`. */
  function PageOf(token: string, n: nat): (k: nat)
    ensures k == 0 || (k < n && token == Decimal(k))
  {
    if n <= 1 then 0 else if token == Decimal(n - 1) then n - 1 else PageOf(token, n - 1)
  }

  lemma {:induction false} PageOfToken(k: nat, n: nat)
    requires k < n
    ensures PageOf(TokenOf(k, n), n) == k
    ensures PageOf("", n) == 0
  {
    FindPage(k, n, n);
  }

  lemma {:induction false} FindPage(k: nat, m: nat, n: nat)
    requires m <= n && k < n
    ensures PageOf(TokenOf(k, n), m) == if k < m then k else 0
    ensures PageOf("", m) == 0
  {
    if m > 1 {
      FindPage(k, m - 1, n);
      if 0 < k && Decimal(k) == Decimal(m - 1) {
        DecimalInjective(k, m - 1);
      }
    }
  }

  function PageResponse(pages: Pages, k: nat): Response
    requires k < |pages|
  {
    Response(pages[k], [], TokenOf(k + 1, |pages|))
  }

  function Flatten(pages: Pages): seq<Package> {
    if pages == [] then [] else Flatten(pages[..|pages| - 1]) + pages[|pages| - 1]
  }

  // ------------------------------------------------------------- steps

  datatype Step =
    | CopyToken
    | Fetch(ask: Ask)
    | Arrive(ask: Ask, answer: Option<Response>)
    | Other(action: Action)
    | Reset(pages: Pages)

  /** Actions of the other thunks and of the views. */
  predicate IsOther(a: Action) {
    !a.RequestSummaries? && !a.ReceiveSummaries? && !a.ResetSummaries?
  }

  /** A request from before a reset may still go out, and its answer may be anything. */
  predicate Enabled(s: System, l: Step) {
    match l
    case CopyToken => true
    case Fetch(ask) =>
      ask.generation < s.generation || (ask.generation == s.generation && ask.page == PageOf(s.token, |s.pages|))
    case Arrive(ask, answer) =>
      ask in s.flight && (ask.generation == s.generation && answer.Some? ==>
        ask.page < |s.pages| && answer.value == PageResponse(s.pages, ask.page))
    case Other(a) => IsOther(a)
    case Reset(pages) => pages != []
  }

  function Dispatch(s: System, a: Action): System {
    s.(store := Reduce(s.store, a))
  }

  function Next(s: System, l: Step): System
    requires Enabled(s, l)
  {
    match l
    case CopyToken => s.(token := s.store.nextPageToken)
    case Fetch(ask) =>
      if s.store.isFetching then Dispatch(s, Error)
      else Dispatch(s, RequestSummaries).(flight := s.flight + multiset{ask})
    case Arrive(ask, answer) =>
      var t := s.(flight := s.flight - multiset{ask});
      if answer.None? then Dispatch(t, Error)
      else
        Dispatch(t, ReceiveSummaries(answer.value)).(
          reached := if s.store.isFetching && ask == Ask(s.generation, s.reached) then s.reached + 1 else s.reached)
    case Other(a) => Dispatch(s, a)
    case Reset(pages) => System(Reduce(s.store, ResetSummaries), "", pages, s.generation + 1, s.flight, 0)
  }

  predicate IsStale(s: System, l: Step) {
    l.Arrive? && l.ask.generation != s.generation && l.answer.Some?
  }

  /** An answer from before a reset, whatever it says, changes the store just when a request is
      out as it arrives. */
  lemma StaleAnswerCountsIff(s: System, ask: Ask, r: Response)
    requires ask in s.flight && ask.generation != s.generation
    ensures var l := Arrive(ask, Some(r));
      Enabled(s, l) && IsStale(s, l) && (Next(s, l).store != s.store <==> s.store.isFetching)
  {
  }

  /** The runs in which no such answer counts. */
  predicate Timely(s: System, l: Step) {
    IsStale(s, l) ==> !s.store.isFetching
  }

  /** What the requests in flight and the tokens ask for. */
  ghost predicate AsksInOrder(s: System) {
    && (forall a: Ask :: a in s.flight && a.generation == s.generation ==> a.page < |s.pages| && a.page <= s.reached)
    && (forall a: Ask :: a in s.flight ==> a.generation <= s.generation)
    && PageOf(s.token, |s.pages|) <= s.reached
    && PageOf(s.store.nextPageToken, |s.pages|) <= s.reached
  }

  /** The items are the pages that came in, without repetitions. */
  ghost predicate ShowsPages(s: System) {
    && 0 < |s.pages| && s.reached <= |s.pages|
    && s.store.items == UniqById(Flatten(s.pages[..s.reached]))
    && (s.store.hasFinishedFetching ==> s.reached == |s.pages|)
  }

  /** The items are the pages that came in, without repetitions; what is asked for next is
      one of them or the one after. */
  ghost predicate Inv(s: System) {
    ShowsPages(s) && AsksInOrder(s)
  }

  lemma {:induction false} PageIsIn(pages: Pages, k: nat, i: nat)
    requires k < |pages| && i < |pages[k]|
    ensures HasId(Flatten(pages), pages[k][i].id)
    decreases |pages|
  {
    var init, last := pages[..|pages| - 1], pages[|pages| - 1];
    var f := Flatten(init);
    if k == |pages| - 1 {
      assert (f + last)[|f| + i] == last[i];
    } else {
      PageIsIn(init, k, i);
      var j :| 0 <= j < |f| && f[j].id == pages[k][i].id;
      assert (f + last)[j] == f[j];
    }
  }

  /** A page that came in before changes nothing, the next one is appended. */
  lemma AcceptedPage(pages: Pages, reached: nat, k: nat)
    requires k <= reached <= |pages| && k < |pages|
    ensures var items := UniqById(Flatten(pages[..reached]));
      UniqById(items + pages[k]) == if k == reached then UniqById(Flatten(pages[..reached + 1])) else items
  {
    var before := Flatten(pages[..reached]);
    UniqKeepsFirsts(before);
    if k == reached {
      assert pages[..reached + 1][..reached] == pages[..reached];
      UniqAppend(before, pages[k]);
    } else {
      forall i | 0 <= i < |pages[k]| ensures HasId(UniqById(before), pages[k][i].id) {
        PageIsIn(pages[..reached], k, i);
      }
      UniqAbsorbs(UniqById(before), pages[k]);
    }
  }

  lemma IgnoredKeepsInv(s: System, t: System)
    requires Inv(s) && t.pages == s.pages && t.generation == s.generation && t.reached == s.reached
      && t.token == s.token
    requires t.store.items == s.store.items && t.store.nextPageToken == s.store.nextPageToken
    requires (t.store.hasFinishedFetching ==> s.store.hasFinishedFetching) && t.flight <= s.flight
    ensures Inv(t)
  {
    AsksStill(s, t);
  }

  lemma IgnoredAnswer(s: System, ask: Ask, answer: Option<Response>)
    requires Enabled(s, Arrive(ask, answer)) && (answer.None? || !s.store.isFetching)
    ensures var t := Next(s, Arrive(ask, answer));
      && t == s.(flight := s.flight - multiset{ask}, store := t.store)
      && t.store.items == s.store.items && t.store.nextPageToken == s.store.nextPageToken
      && (t.store.hasFinishedFetching ==> s.store.hasFinishedFetching)
  {
  }

  lemma ArriveKeepsInv(s: System, ask: Ask, answer: Option<Response>)
    requires Inv(s) && Enabled(s, Arrive(ask, answer)) && Timely(s, Arrive(ask, answer))
    ensures Inv(Next(s, Arrive(ask, answer)))
  {
    if answer.Some? && s.store.isFetching {
      AcceptKeepsInv(s, ask);
    } else {
      IgnoredAnswer(s, ask, answer);
      IgnoredKeepsInv(s, Next(s, Arrive(ask, answer)));
    }
  }

  lemma AcceptKeepsInv(s: System, ask: Ask)
    requires Inv(s) && ask in s.flight && ask.generation == s.generation && s.store.isFetching && ask.page < |s.pages|
    ensures Inv(Next(s, Arrive(ask, Some(PageResponse(s.pages, ask.page)))))
  {
    AcceptShows(s, ask);
    AcceptAsks(s, ask);
  }

  lemma AcceptShows(s: System, ask: Ask)
    requires Inv(s) && ask in s.flight && ask.generation == s.generation && s.store.isFetching && ask.page < |s.pages|
    ensures ShowsPages(Next(s, Arrive(ask, Some(PageResponse(s.pages, ask.page)))))
  {
    var t := Next(s, Arrive(ask, Some(PageResponse(s.pages, ask.page))));
    assert t.store == Reduce(s.store, ReceiveSummaries(PageResponse(s.pages, ask.page)));
    assert t.pages == s.pages && t.reached == if ask.page == s.reached then s.reached + 1 else s.reached;
    PageReceived(s.store, s.pages, s.reached, ask.page);
  }

  lemma PageReceived(store: State, pages: Pages, reached: nat, k: nat)
    requires k <= reached <= |pages| && k < |pages| && store.isFetching
    requires store.items == UniqById(Flatten(pages[..reached]))
    requires store.hasFinishedFetching ==> reached == |pages|
    ensures var t := Reduce(store, ReceiveSummaries(PageResponse(pages, k)));
      var now := if k == reached then reached + 1 else reached;
      t.items == UniqById(Flatten(pages[..now])) && (t.hasFinishedFetching ==> now == |pages|)
  {
    NextToken(pages, k);
    AcceptedPage(pages, reached, k);
  }

  lemma AcceptAsks(s: System, ask: Ask)
    requires Inv(s) && ask in s.flight && ask.generation == s.generation && s.store.isFetching && ask.page < |s.pages|
    ensures AsksInOrder(Next(s, Arrive(ask, Some(PageResponse(s.pages, ask.page)))))
  {
    var answer := PageResponse(s.pages, ask.page);
    AcceptedState(s, ask, answer);
    AsksAfterPage(s, Next(s, Arrive(ask, Some(answer))), ask.page);
  }

  lemma AcceptedState(s: System, ask: Ask, answer: Response)
    requires Enabled(s, Arrive(ask, Some(answer))) && ask.generation == s.generation && s.store.isFetching
    ensures var t := Next(s, Arrive(ask, Some(answer)));
      && t.pages == s.pages && t.generation == s.generation && t.token == s.token && t.flight <= s.flight
      && t.reached == (if ask.page == s.reached then s.reached + 1 else s.reached)
      && t.store == Reduce(s.store, ReceiveSummaries(answer)) && t.store.nextPageToken == answer.nextPageToken
  {
  }

  lemma AsksAfterPage(s: System, t: System, k: nat)
    requires AsksInOrder(s) && t.pages == s.pages && t.generation == s.generation && t.token == s.token
      && t.flight <= s.flight
    requires k < |s.pages| && k <= s.reached && t.reached == (if k == s.reached then s.reached + 1 else s.reached)
    requires t.store.nextPageToken == TokenOf(k + 1, |s.pages|)
    ensures AsksInOrder(t)
  {
    NextToken(s.pages, k);
    AsksStill(s, t);
  }

  lemma AsksStill(s: System, t: System)
    requires AsksInOrder(s) && t.pages == s.pages && t.generation == s.generation && t.token == s.token
    requires s.reached <= t.reached && t.flight <= s.flight && PageOf(t.store.nextPageToken, |t.pages|) <= t.reached
    ensures AsksInOrder(t)
  {
    assert forall a: Ask :: a in t.flight ==> a in s.flight;
  }

  lemma NextToken(pages: Pages, k: nat)
    requires k < |pages|
    ensures PageOf(TokenOf(k + 1, |pages|), |pages|) <= k + 1
    ensures TokenOf(k + 1, |pages|) == "" <==> k + 1 == |pages|
  {
    PageOfToken(if k + 1 < |pages| then k + 1 else 0, |pages|);
  }

  lemma FetchKeepsInv(s: System, ask: Ask)
    requires Inv(s) && Enabled(s, Fetch(ask))
    ensures Inv(Next(s, Fetch(ask)))
  {
    var t := Next(s, Fetch(ask));
    if s.store.isFetching {
      IgnoredKeepsInv(s, t);
    } else {
      assert ShowsPages(t);
      assert forall a: Ask :: a in t.flight ==> a in s.flight || a == ask;
      assert AsksInOrder(t);
    }
  }

  lemma OtherKeepsInv(s: System, a: Action)
    requires Inv(s) && IsOther(a)
    ensures Inv(Next(s, Other(a)))
  {
    var t := Reduce(s.store, a);
    assert t.items == s.store.items && t.nextPageToken == s.store.nextPageToken;
    assert t.hasFinishedFetching ==> s.store.hasFinishedFetching;
  }

  lemma ResetKeepsInv(s: System, pages: Pages)
    requires Inv(s) && pages != []
    ensures Inv(Next(s, Reset(pages)))
  {
    PageOfToken(0, |pages|);
    assert pages[..0] == [];
  }

  lemma StepKeepsInv(s: System, l: Step)
    requires Inv(s) && Enabled(s, l) && Timely(s, l)
    ensures Inv(Next(s, l))
  {
    match l
    case CopyToken =>
    case Fetch(ask) => FetchKeepsInv(s, ask);
    case Arrive(ask, answer) => ArriveKeepsInv(s, ask, answer);
    case Other(a) => OtherKeepsInv(s, a);
    case Reset(pages) => ResetKeepsInv(s, pages);
  }

  function Start(pages: Pages): System {
    System(INITIAL, "", pages, 0, multiset{}, 0)
  }

  ghost predicate Moves(s: System, t: System) {
    exists l :: Enabled(s, l) && Timely(s, l) && t == Next(s, l)
  }

  ghost predicate Run(run: seq<System>) {
    && run != [] && run[0] == Start(run[0].pages) && run[0].pages != []
    && forall i :: 0 <= i < |run| - 1 ==> Moves(run[i], run[i + 1])
  }

  lemma {:induction false} RunInv(run: seq<System>, i: nat)
    requires Run(run) && i < |run|
    ensures Inv(run[i])
  {
    if i == 0 {
      PageOfToken(0, |run[0].pages|);
    } else {
      RunInv(run, i - 1);
      assert Moves(run[i - 1], run[i - 1 + 1]);
      var l :| Enabled(run[i - 1], l) && Timely(run[i - 1], l) && run[i] == Next(run[i - 1], l);
      StepKeepsInv(run[i - 1], l);
    }
  }

  /** Whatever the other parts of the dashboard do, whenever resets happen, however often a page
      is asked for and whichever answers fail or are dropped, as long as no answer from before
      a reset counts: a finished list is the list of the server, the first package of each
      identifier kept. */
  lemma FinishedIsComplete(run: seq<System>, i: nat)
    requires Run(run) && i < |run| && run[i].store.hasFinishedFetching
    ensures run[i].store.items == UniqById(Flatten(run[i].pages))
  {
    RunInv(run, i);
    assert run[i].pages[..|run[i].pages|] == run[i].pages;
  }

  // ------------------------------------------------------------- undisturbed

  /** A list that nothing has been asked for yet. */
  predicate Fresh(s: System) {
    && s.pages != [] && s.reached == 0
    && s.store.items == [] && s.store.nextPageToken == ""
    && !s.store.isFetching && !s.store.hasFinishedFetching
  }

  lemma StartIsFresh(pages: Pages)
    requires pages != []
    ensures Fresh(Start(pages)) && Start(pages).token == "" && Enabled(Start(pages), Fetch(Ask(0, 0)))
  {
  }

  lemma ResetIsFresh(s: System, pages: Pages)
    requires pages != []
    ensures var t := Next(s, Reset(pages));
      Fresh(t) && t.token == "" && Enabled(t, Fetch(Ask(s.generation + 1, 0)))
  {
  }

  /** The catalogue copies the token, asks for the page, and the answer comes. */
  function Round(s: System): (t: System)
    requires s.pages != [] && !s.store.isFetching
    ensures t.pages == s.pages && t.generation == s.generation && !t.store.isFetching
  {
    var copied := Next(s, CopyToken);
    var ask := Ask(s.generation, PageOf(copied.token, |s.pages|));
    var asked := Next(copied, Fetch(ask));
    Next(asked, Arrive(ask, Some(PageResponse(s.pages, ask.page))))
  }

  function Rounds(s: System, k: nat): (t: System)
    requires s.pages != [] && !s.store.isFetching
    ensures t.pages == s.pages && t.generation == s.generation && !t.store.isFetching
  {
    if k == 0 then s else Round(Rounds(s, k - 1))
  }

  /** From the start or a reset, with nothing else in between: the list is finished after as
      many rounds as it has pages, and not before, and shows the pages that have come. */
  lemma {:induction false} FinishesAfterAllPages(s: System, k: nat)
    requires Fresh(s) && k <= |s.pages|
    ensures var t := Rounds(s, k);
      && t.store.items == UniqById(Flatten(s.pages[..k]))
      && (t.store.hasFinishedFetching <==> k == |s.pages|)
      && t.store.nextPageToken == TokenOf(k, |s.pages|) && t.reached == k
  {
    if k == 0 {
      assert s.pages[..0] == [];
    } else {
      FinishesAfterAllPages(s, k - 1);
      RoundReceives(Rounds(s, k - 1), k - 1);
      NextToken(s.pages, k - 1);
      AcceptedPage(s.pages, k - 1, k - 1);
    }
  }

  lemma RoundMoves(s: System) returns (copied: System, asked: System)
    requires s.pages != [] && !s.store.isFetching
    ensures Moves(s, copied) && Moves(copied, asked) && Moves(asked, Round(s))
  {
    copied := Next(s, CopyToken);
    var ask := Ask(s.generation, PageOf(copied.token, |s.pages|));
    var fetch, arrive := Fetch(ask), Arrive(ask, Some(PageResponse(s.pages, ask.page)));
    asked := Next(copied, fetch);
    assert Enabled(s, CopyToken) && Timely(s, CopyToken);
    assert Enabled(copied, fetch) && Timely(copied, fetch);
    assert Enabled(asked, arrive) && Timely(asked, arrive);
  }

  lemma RunGrows(run: seq<System>, t: System)
    requires Run(run) && Moves(run[|run| - 1], t)
    ensures Run(run + [t])
  {
    hide Moves;
    var longer := run + [t];
    forall i | 0 <= i < |run| ensures Moves(longer[i], longer[i + 1]) {
      if i < |run| - 1 {
        assert Moves(run[i], run[i + 1]);
      }
    }
  }

  lemma RunGrowsByRound(before: seq<System>) returns (run: seq<System>)
    requires Run(before) && before[|before| - 1].pages != [] && !before[|before| - 1].store.isFetching
    ensures Run(run) && run[|run| - 1] == Round(before[|before| - 1])
  {
    var s := before[|before| - 1];
    var copied, asked := RoundMoves(s);
    var t := Round(s);
    hide Moves, Next, Round, Run;
    RunGrows(before, copied);
    RunGrows(before + [copied], asked);
    run := before + [copied] + [asked] + [t];
    RunGrows(before + [copied] + [asked], t);
  }

  /** These rounds are one of the runs that the guarantees speak of. */
  lemma {:induction false} RoundsAreARun(pages: Pages, k: nat) returns (run: seq<System>)
    requires pages != []
    ensures Run(run) && run[|run| - 1] == Rounds(Start(pages), k)
  {
    hide Moves, Next, Round;
    run := [Start(pages)];
    assert k == 0 ==> Run(run);
    if k > 0 {
      hide Run;
      var before := RoundsAreARun(pages, k - 1);
      run := RunGrowsByRound(before);
    }
  }

  lemma RoundReceives(s: System, k: nat)
    requires k < |s.pages| && !s.store.isFetching && s.store.nextPageToken == TokenOf(k, |s.pages|) && s.reached == k
    ensures var t := Round(s);
      && t.store.items == UniqById(s.store.items + s.pages[k])
      && t.store.nextPageToken == TokenOf(k + 1, |s.pages|) && t.reached == k + 1
      && (t.store.hasFinishedFetching <==> TokenOf(k + 1, |s.pages|) == "")
  {
    hide UniqById, Uniq, PageOf, TokenOf;
    PageOfToken(k, |s.pages|);
    assert Ask(s.generation, k) in s.flight + multiset{Ask(s.generation, k)};
  }

  /** Asking again while a request is out is an error, and the answer to the first request is
      then dropped. */
  lemma SecondFetchDropsAnswer(s: System, ask: Ask, again: Ask, r: Response)
    requires s.store.isFetching && Enabled(s, Fetch(again))
    ensures var t := Next(s, Fetch(again));
      && t.flight == s.flight && !t.store.isFetching && !t.store.hasFinishedFetching
      && (Enabled(t, Arrive(ask, Some(r))) ==> Next(t, Arrive(ask, Some(r))).store == t.store)
  {
  }

  /** Once a new request is out, an answer to an old one is taken for its own. */
  lemma StaleAnswerIsAccepted(s: State, stale: Response, current: Response)
    ensures var t := ReduceAll(s, [RequestSummaries, ResetSummaries, RequestSummaries, ReceiveSummaries(stale),
      ReceiveSummaries(current)]);
      t.items == UniqById(stale.packages) && t.nextPageToken == stale.nextPageToken
  {
    var a, b := ReceiveSummaries(stale), ReceiveSummaries(current);
    var s1 := Reduce(s, RequestSummaries);
    var s2 := Reduce(s1, ResetSummaries);
    var s3 := Reduce(s2, RequestSummaries);
    var rest3, rest2 := [a, b], [RequestSummaries, a, b];
    var rest1 := [ResetSummaries, RequestSummaries, a, b];
    var all := [RequestSummaries, ResetSummaries, RequestSummaries, a, b];
    assert all[1..] == rest1 && rest1[1..] == rest2 && rest2[1..] == rest3;
    assert ReduceAll(s, all) == ReduceAll(s1, rest1);
    assert ReduceAll(s1, rest1) == ReduceAll(s2, rest2);
    assert ReduceAll(s2, rest2) == ReduceAll(s3, rest3);
    assert [] + stale.packages == stale.packages;
    TwoActions(s3, a, b);
  }

  lemma TwoActions(s: State, a: Action, b: Action)
    ensures ReduceAll(s, [a, b]) == Reduce(Reduce(s, a), b)
  {
    assert [a, b][1..] == [b] && [b][1..] == [];
    assert ReduceAll(Reduce(s, a), [b]) == Reduce(Reduce(s, a), b);
  }
}
