/** The catalogue's list of packages in the store, and the requests that fill it page by page. */
module PackagePaging {
  import opened Prelude

  /** A package without a reference has no identifier. */
  datatype Package = Package(id: Option<string>, summary: string)

  datatype Response = Response(packages: seq<Package>, categories: seq<string>, nextPageToken: string)

  datatype State = State(isFetching: bool, hasFinishedFetching: bool, nextPageToken: string,
    items: seq<Package>, categories: seq<string>)

  datatype Action =
    | RequestSummaries
    | ReceiveSummaries(response: Response)
    | ResetSummaries
    | RequestVersions | ReceiveVersions | RequestDetail | ReceiveDetail
    | SetCustomDefaults | ResetDetail | ClearError
    | Error

  const INITIAL := State(false, false, "", [], [])

  // ------------------------------------------------------------- first occurrences

  predicate HasId(s: seq<Package>, id: Option<string>) {
    exists i :: 0 <= i < |s| && s[i].id == id
  }

  function UniqById(s: seq<Package>): seq<Package> {
    if s == [] then []
    else
      var u, last := UniqById(s[..|s| - 1]), s[|s| - 1];
      if HasId(u, last.id) then u else u + [last]
  }

  function Uniq(s: seq<string>): seq<string> {
    if s == [] then []
    else
      var u, last := Uniq(s[..|s| - 1]), s[|s| - 1];
      if last in u then u else u + [last]
  }

  ghost predicate UniqueIds(s: seq<Package>) {
    forall i, j :: 0 <= i < j < |s| ==> s[i].id != s[j].id
  }

  ghost predicate FirstOf(s: seq<Package>, i: int) {
    0 <= i < |s| && forall j :: 0 <= j < i ==> s[j].id != s[i].id
  }

  /** What is kept is the first package of each identifier, once. */
  lemma {:induction false} UniqKeepsFirsts(s: seq<Package>)
    ensures UniqueIds(UniqById(s))
    ensures forall id :: HasId(UniqById(s), id) <==> HasId(s, id)
    ensures forall x :: x in UniqById(s) ==> exists i :: FirstOf(s, i) && s[i] == x
  {
    if s != [] {
      var init, last := s[..|s| - 1], s[|s| - 1];
      UniqKeepsFirsts(init);
      var u := UniqById(init);
      forall id ensures HasId(UniqById(s), id) <==> HasId(s, id) {
        if HasId(init, id) {
          var i :| 0 <= i < |init| && init[i].id == id;
          assert s[i].id == id;
        }
        if HasId(s, id) && id != last.id {
          var i :| 0 <= i < |s| && s[i].id == id;
          assert init[i].id == id;
        }
        if HasId(u, id) && !HasId(u, last.id) {
          var i :| 0 <= i < |u| && u[i].id == id;
          assert (u + [last])[i].id == id;
        }
        if id == last.id {
          assert s[|s| - 1].id == id;
          assert !HasId(u, id) ==> (u + [last])[|u|].id == id;
        }
      }
      forall x | x in UniqById(s) ensures exists i :: FirstOf(s, i) && s[i] == x {
        if x in u {
          var i :| FirstOf(init, i) && init[i] == x;
          assert FirstOf(s, i) && s[i] == x;
        } else {
          assert !HasId(init, last.id);
          assert FirstOf(s, |s| - 1) && s[|s| - 1] == x by {
            forall j | 0 <= j < |s| - 1 ensures s[j].id != last.id {
              assert init[j].id == s[j].id;
            }
          }
        }
      }
    }
  }

  lemma {:induction false} UniqAppend(a: seq<Package>, b: seq<Package>)
    ensures UniqById(UniqById(a) + b) == UniqById(a + b)
    ensures UniqById(a) <= UniqById(a + b)
    decreases |b|
  {
    if b == [] {
      assert a + b == a && UniqById(a) + b == UniqById(a);
      UniqKeepsFirsts(a);
      UniqOfUnique(UniqById(a));
    } else {
      var init := b[..|b| - 1];
      UniqAppend(a, init);
      assert (a + b)[..|a + b| - 1] == a + init;
      assert (UniqById(a) + b)[..|UniqById(a) + b| - 1] == UniqById(a) + init;
    }
  }

  lemma {:induction false} UniqOfUnique(s: seq<Package>)
    requires UniqueIds(s)
    ensures UniqById(s) == s
  {
    if s != [] {
      var init, last := s[..|s| - 1], s[|s| - 1];
      UniqOfUnique(init);
      forall i | 0 <= i < |init| ensures init[i].id != last.id {
        assert init[i] == s[i];
      }
      assert s == init + [last] && !HasId(init, last.id);
    }
  }

  /** Packages whose identifiers are there already add nothing. */
  lemma {:induction false} UniqAbsorbs(s: seq<Package>, b: seq<Package>)
    requires UniqueIds(s) && forall i :: 0 <= i < |b| ==> HasId(s, b[i].id)
    ensures UniqById(s + b) == s
  {
    if b == [] {
      assert s + b == s;
      UniqOfUnique(s);
    } else {
      assert (s + b)[..|s + b| - 1] == s + b[..|b| - 1];
      UniqAbsorbs(s, b[..|b| - 1]);
    }
  }

  // ------------------------------------------------------------- the reducer

  function Reduce(s: State, a: Action): State {
    match a
    case RequestSummaries => s.(isFetching := true)
    case RequestVersions => s.(isFetching := true)
    case ReceiveSummaries(r) =>
      if !s.isFetching then s
      else
        s.(isFetching := false, hasFinishedFetching := r.nextPageToken == "", nextPageToken := r.nextPageToken,
          categories := Uniq(s.categories + r.categories), items := UniqById(s.items + r.packages))
    case ReceiveVersions => s.(isFetching := false)
    case ReceiveDetail => s.(isFetching := false)
    case RequestDetail => s.(isFetching := true)
    case SetCustomDefaults => s
    case ResetSummaries => s.(hasFinishedFetching := false, isFetching := false, items := [], nextPageToken := "")
    case Error => s.(isFetching := false, hasFinishedFetching := false)
    case ResetDetail => s
    case ClearError => s
  }

  function ReduceAll(s: State, actions: seq<Action>): State
    decreases |actions|
  {
    if actions == [] then s else ReduceAll(Reduce(s, actions[0]), actions[1..])
  }

  ghost predicate StateOk(s: State) {
    UniqueIds(s.items) && (s.hasFinishedFetching ==> s.nextPageToken == "")
  }

  lemma OneAction(s: State, a: Action)
    requires StateOk(s)
    ensures StateOk(Reduce(s, a)) && (!a.ResetSummaries? ==> s.items <= Reduce(s, a).items)
  {
    if a.ReceiveSummaries? {
      UniqKeepsFirsts(s.items + a.response.packages);
      UniqAppend(s.items, a.response.packages);
      UniqOfUnique(s.items);
    }
  }

  /** Over any actions whatever, identifiers are unique, a finished list has no next page, and
      without a reset the list only grows at its end. */
  lemma {:induction false} AnyActions(s: State, actions: seq<Action>)
    requires StateOk(s)
    ensures StateOk(ReduceAll(s, actions))
    ensures ResetSummaries !in actions ==> s.items <= ReduceAll(s, actions).items
    decreases |actions|
  {
    if actions != [] {
      OneAction(s, actions[0]);
      assert actions == [actions[0]] + actions[1..];
      AnyActions(Reduce(s, actions[0]), actions[1..]);
    }
  }

  // ------------------------------------------------------------- answers

  /** An answer that is accepted finishes the list just when there is no next page; one that
      nobody waits for changes nothing. */
  lemma AnswerFinishesIff(s: State, r: Response)
    ensures var t := Reduce(s, ReceiveSummaries(r));
      if s.isFetching
      then (t.hasFinishedFetching <==> r.nextPageToken == "") && !t.isFetching && t.nextPageToken == r.nextPageToken
      else t == s
  {
  }

  /** A failure ends the fetching, and the list has to be asked for again. */
  lemma FailureIsUnfinished(s: State)
    ensures var t := Reduce(s, Error);
      !t.isFetching && !t.hasFinishedFetching && t.items == s.items && t.nextPageToken == s.nextPageToken
  {
  }

  // ------------------------------------------------------------- categories

  /** The answers that are accepted on the way. */
  function AcceptedAnswers(s: State, actions: seq<Action>): seq<Response>
    decreases |actions|
  {
    if actions == [] then []
    else
      (if s.isFetching && actions[0].ReceiveSummaries? then [actions[0].response] else [])
      + AcceptedAnswers(Reduce(s, actions[0]), actions[1..])
  }

  function AllCategories(answers: seq<Response>): seq<string> {
    if answers == [] then [] else answers[0].categories + AllCategories(answers[1..])
  }

  lemma {:induction false} UniqOnce(a: seq<string>, b: seq<string>)
    ensures Uniq(Uniq(a) + b) == Uniq(a + b)
    decreases |b|
  {
    if b == [] {
      assert a + b == a && Uniq(a) + b == Uniq(a);
      UniqIsFirsts(a);
      UniqOfDistinct(Uniq(a));
    } else {
      UniqOnce(a, b[..|b| - 1]);
      assert (a + b)[..|a + b| - 1] == a + b[..|b| - 1];
      assert (Uniq(a) + b)[..|Uniq(a) + b| - 1] == Uniq(a) + b[..|b| - 1];
    }
  }

  lemma {:induction false} UniqOfDistinct(s: seq<string>)
    requires Distinct(s)
    ensures Uniq(s) == s
  {
    if s != [] {
      var init, last := s[..|s| - 1], s[|s| - 1];
      UniqOfDistinct(init);
      assert s == init + [last];
      forall i | 0 <= i < |init| ensures init[i] != last {
        assert init[i] == s[i];
      }
    }
  }

  /** The first place of a text that is there. */
  function FirstAt(s: seq<string>, x: string): (i: nat)
    requires x in s
    ensures i < |s| && s[i] == x && x !in s[..i]
  {
    if s[0] == x then 0 else 1 + FirstAt(s[1..], x)
  }

  lemma FirstAtIs(s: seq<string>, x: string, i: nat)
    requires i < |s| && s[i] == x && x !in s[..i]
    ensures FirstAt(s, x) == i
  {
  }

  /** What is kept is each text once, in the order in which the texts first come. */
  lemma {:induction false} UniqIsFirsts(s: seq<string>)
    ensures Distinct(Uniq(s))
    ensures forall x :: x in Uniq(s) <==> x in s
    ensures forall i, j :: 0 <= i < j < |Uniq(s)| ==> FirstAt(s, Uniq(s)[i]) < FirstAt(s, Uniq(s)[j])
  {
    if s != [] {
      var init, last := s[..|s| - 1], s[|s| - 1];
      var u, v := Uniq(init), Uniq(s);
      assert s == init + [last];
      UniqIsFirsts(init);
      forall x | x in init ensures FirstAt(s, x) == FirstAt(init, x) {
        var i := FirstAt(init, x);
        assert s[..i] == init[..i];
        FirstAtIs(s, x, i);
      }
      if last !in u {
        assert s[..|s| - 1] == init;
        FirstAtIs(s, last, |s| - 1);
        forall i | 0 <= i < |u| ensures u[i] in init {
          assert u[i] in u;
        }
      }
    }
  }

  lemma CategoriesOfStep(s: State, a: Action)
    requires Distinct(s.categories)
    ensures var t := Reduce(s, a);
      && t.categories == (if s.isFetching && a.ReceiveSummaries? then Uniq(s.categories + a.response.categories)
                          else s.categories)
      && Distinct(t.categories)
  {
    if a.ReceiveSummaries? {
      UniqIsFirsts(s.categories + a.response.categories);
    }
  }

  lemma FirstCategories(r: Response, rest: seq<Response>)
    ensures AllCategories([r] + rest) == r.categories + AllCategories(rest)
  {
    assert ([r] + rest)[1..] == rest;
  }

  lemma UniqJoined(a: seq<string>, b: seq<string>, c: seq<string>)
    ensures Uniq(Uniq(a + b) + c) == Uniq(a + (b + c))
  {
    UniqOnce(a + b, c);
    assert a + (b + c) == (a + b) + c;
  }

  lemma {:induction false} CategoriesAre(s: State, actions: seq<Action>)
    requires Distinct(s.categories)
    ensures ReduceAll(s, actions).categories == Uniq(s.categories + AllCategories(AcceptedAnswers(s, actions)))
    decreases |actions|
  {
    if actions == [] {
      assert s.categories + [] == s.categories;
      UniqOfDistinct(s.categories);
    } else {
      hide Reduce, Uniq;
      var t, rest := Reduce(s, actions[0]), AcceptedAnswers(Reduce(s, actions[0]), actions[1..]);
      CategoriesOfStep(s, actions[0]);
      CategoriesAre(t, actions[1..]);
      if s.isFetching && actions[0].ReceiveSummaries? {
        FirstCategories(actions[0].response, rest);
        UniqJoined(s.categories, actions[0].response.categories, AllCategories(rest));
      } else {
        assert [] + rest == rest;
      }
    }
  }

  /** The categories are those of all accepted answers, each once, in the order in which they
      first come. */
  lemma CategoriesOfAnswers(actions: seq<Action>)
    ensures var found, all := ReduceAll(INITIAL, actions).categories, AllCategories(AcceptedAnswers(INITIAL, actions));
      && Distinct(found) && (forall x :: x in found <==> x in all)
      && forall i, j :: 0 <= i < j < |found| ==> FirstAt(all, found[i]) < FirstAt(all, found[j])
  {
    var all := AllCategories(AcceptedAnswers(INITIAL, actions));
    CategoriesAre(INITIAL, actions);
    assert [] + all == all;
    UniqIsFirsts(all);
  }
}
