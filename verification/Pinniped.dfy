/** The exchange of a token for a credential, by many connections over one cache. */
module Pinniped {
  import opened Prelude
  import opened PruningCaches

  datatype Credential = Credential(expiration: int, token: Option<string>, certificate: string, key: string)

  datatype Status = Status(credential: Option<Credential>, message: Option<string>)

  datatype Authenticator = Authenticator(name: string, kind: string, apiGroup: string)

  datatype Request = Request(token: Option<string>, authenticator: Authenticator, status: Option<Status>)

  predicate IsExpired(r: Request, now: int) {
    r.status.None? || r.status.value.credential.None? || r.status.value.credential.value.expiration < now
  }

  /** Of the authenticator, only the name tells keys apart. */
  datatype Key = Key(url: string, token: Option<string>, authenticator: string, status: Option<Status>)

  function KeyOf(url: string, r: Request): Key {
    Key(url, r.token, r.authenticator.name, r.status)
  }

  const KEEP: Keep<Key, Request> := (k, v, now) => !IsExpired(v, now)

  lemma ExpiryLasts()
    ensures Lasting(KEEP)
  {
  }

  // ------------------------------------------------------------- the exchange

  const BEARER := "Bearer "

  function AuthToken(authorization: string): string {
    if BEARER <= authorization then authorization[|BEARER|..] else authorization
  }

  function CredData(authorization: string, authenticator: Authenticator): Request {
    Request(Some(AuthToken(authorization)), authenticator, None)
  }

  /** Connections waiting for Pinniped, what it answered for which key, and what has been
      served; the map that is never pruned stands beside the cache. */
  datatype State = State(cache: map<Key, Request>, all: map<Key, Request>, clock: int,
    waiting: multiset<Key>, issued: set<(Key, Request)>, served: seq<Served>)

  datatype Served = Served(key: Key, credential: Request, fromCache: bool, at: int)

  datatype Step =
    | Connect(url: string, authorization: string, now: int)
    | Answered(key: Key, result: Option<Request>, checked: Key -> int, end: int)

  ghost predicate Enabled(s: State, l: Step) {
    match l
    case Connect(_, _, now) => s.clock <= now
    case Answered(key, _, checked, end) =>
      key in s.waiting && s.clock <= end && forall k :: s.clock <= checked(k) <= end
  }

  function Next(conf: Authenticator, s: State, l: Step): State {
    match l
    case Connect(url, authorization, now) =>
      var key := KeyOf(url, CredData(authorization, conf));
      var hit := Lookup(s.cache, KEEP, key, now);
      if hit.Some? then s.(clock := now, served := s.served + [Served(key, hit.value, true, now)])
      else s.(clock := now, waiting := s.waiting + multiset{key})
    case Answered(key, result, checked, end) =>
      var left := s.waiting - multiset{key};
      if result.None? then s.(waiting := left, clock := end)
      else
        s.(cache := Pruned(s.cache[key := result.value], KEEP, checked), all := s.all[key := result.value],
          clock := end, waiting := left, issued := s.issued + {(key, result.value)},
          served := s.served + [Served(key, result.value, false, end)])
  }

  function Start(now: int): State {
    State(map[], map[], now, multiset{}, {}, [])
  }

  // ------------------------------------------------------------- safety

  /** What is served was issued for the same key; out of the cache it is unexpired. */
  ghost predicate Genuine(s: State, x: Served) {
    (x.key, x.credential) in s.issued && (x.fromCache ==> !IsExpired(x.credential, x.at))
  }

  ghost predicate Inv(s: State) {
    && Agrees(s.cache, s.all, KEEP, s.clock)
    && (forall k :: k in s.all ==> (k, s.all[k]) in s.issued)
    && (forall i :: 0 <= i < |s.served| ==> Genuine(s, s.served[i]))
  }

  lemma ConnectKeepsInv(conf: Authenticator, s: State, url: string, authorization: string, now: int)
    requires Inv(s) && s.clock <= now
    ensures Inv(Next(conf, s, Connect(url, authorization, now)))
  {
    ExpiryLasts();
    GetAgrees(s.cache, s.all, KEEP, s.clock, KeyOf(url, CredData(authorization, conf)), now);
  }

  lemma GenuineStill(s: State, t: State, x: Served)
    requires Genuine(s, x) && s.issued <= t.issued
    ensures Genuine(t, x)
  {
  }

  lemma AnswerAgrees(conf: Authenticator, s: State, key: Key, result: Option<Request>, checked: Key -> int, end: int)
    requires Inv(s) && Enabled(s, Answered(key, result, checked, end))
    ensures var t := Next(conf, s, Answered(key, result, checked, end));
      Agrees(t.cache, t.all, KEEP, t.clock)
  {
    ExpiryLasts();
    if result.Some? {
      InsertAgrees(s.cache, s.all, KEEP, s.clock, key, result.value, checked, end);
    } else {
      GetAgrees(s.cache, s.all, KEEP, s.clock, key, end);
    }
  }

  lemma AnswerIsGenuine(conf: Authenticator, s: State, key: Key, result: Option<Request>, checked: Key -> int, end: int)
    requires Inv(s) && Enabled(s, Answered(key, result, checked, end))
    ensures var t := Next(conf, s, Answered(key, result, checked, end));
      forall i :: 0 <= i < |t.served| ==> Genuine(t, t.served[i])
  {
    var t := Next(conf, s, Answered(key, result, checked, end));
    forall i | 0 <= i < |t.served| ensures Genuine(t, t.served[i]) {
      if i < |s.served| {
        assert t.served[i] == s.served[i];
        GenuineStill(s, t, s.served[i]);
      }
    }
  }

  lemma AnswerKeepsInv(conf: Authenticator, s: State, key: Key, result: Option<Request>, checked: Key -> int, end: int)
    requires Inv(s) && Enabled(s, Answered(key, result, checked, end))
    ensures Inv(Next(conf, s, Answered(key, result, checked, end)))
  {
    AnswerAgrees(conf, s, key, result, checked, end);
    AnswerIsGenuine(conf, s, key, result, checked, end);
  }

  lemma StepKeepsInv(conf: Authenticator, s: State, l: Step)
    requires Inv(s) && Enabled(s, l)
    ensures Inv(Next(conf, s, l)) && Next(conf, s, l).clock == if l.Connect? then l.now else l.end
  {
    match l
    case Connect(url, authorization, now) => ConnectKeepsInv(conf, s, url, authorization, now);
    case Answered(key, result, checked, end) => AnswerKeepsInv(conf, s, key, result, checked, end);
  }

  ghost predicate Moves(conf: Authenticator, s: State, t: State) {
    exists l :: Enabled(s, l) && t == Next(conf, s, l)
  }

  ghost predicate Run(conf: Authenticator, run: seq<State>) {
    run != [] && run[0] == Start(run[0].clock) && forall i :: 0 <= i < |run| - 1 ==> Moves(conf, run[i], run[i + 1])
  }

  lemma {:induction false} RunInv(conf: Authenticator, run: seq<State>, i: nat)
    requires Run(conf, run) && i < |run|
    ensures Inv(run[i])
  {
    if i > 0 {
      RunInv(conf, run, i - 1);
      assert Moves(conf, run[i - 1], run[i - 1 + 1]);
      var l :| Enabled(run[i - 1], l) && run[i] == Next(conf, run[i - 1], l);
      StepKeepsInv(conf, run[i - 1], l);
    }
  }

  /** In every run, with any number of connections waiting at once, a connection gets from
      the cache what a map without pruning would give it, and only a credential that Pinniped
      issued for the same API URL and token and that has not expired. */
  lemma ServedIsGenuine(conf: Authenticator, run: seq<State>, i: nat, url: string, authorization: string, now: int)
    requires Run(conf, run) && i < |run| && run[i].clock <= now
    ensures var key := KeyOf(url, CredData(authorization, conf));
      var hit := Lookup(run[i].cache, KEEP, key, now);
      && hit == Lookup(run[i].all, KEEP, key, now)
      && (hit.Some? ==> (key, hit.value) in run[i].issued && !IsExpired(hit.value, now))
    ensures forall j :: 0 <= j < |run[i].served| ==> Genuine(run[i], run[i].served[j])
  {
    RunInv(conf, run, i);
    ExpiryLasts();
    GetAgrees(run[i].cache, run[i].all, KEEP, run[i].clock, KeyOf(url, CredData(authorization, conf)), now);
  }

  predicate SchemeAdded(plain: string, authorization: string) {
    !("Bearer " <= plain) && authorization == "Bearer " + plain
  }

  /** Two connections share a cached credential just when they go to the same API with the
      same header, or with headers that differ in the one scheme that is taken off. */
  lemma SharedIff(conf: Authenticator, url1: string, auth1: string, url2: string, auth2: string)
    ensures KeyOf(url1, CredData(auth1, conf)) == KeyOf(url2, CredData(auth2, conf))
      <==> url1 == url2 && (auth1 == auth2 || SchemeAdded(auth1, auth2) || SchemeAdded(auth2, auth1))
  {
    TokenOf(auth1);
    TokenOf(auth2);
  }

  lemma TokenOf(authorization: string)
    ensures authorization == if BEARER <= authorization then BEARER + AuthToken(authorization)
      else AuthToken(authorization)
    ensures AuthToken(BEARER + authorization) == authorization
  {
    assert BEARER <= authorization ==> authorization == BEARER + authorization[|BEARER|..];
    assert (BEARER + authorization)[|BEARER|..] == authorization;
  }

  // ------------------------------------------------------------- runs step by step

  function Exec(conf: Authenticator, start: int, ls: seq<Step>): State {
    if ls == [] then Start(start) else Next(conf, Exec(conf, start, ls[..|ls| - 1]), ls[|ls| - 1])
  }

  ghost predicate Allowed(conf: Authenticator, start: int, ls: seq<Step>) {
    ls != [] ==>
      && Allowed(conf, start, ls[..|ls| - 1])
      && Enabled(Exec(conf, start, ls[..|ls| - 1]), ls[|ls| - 1])
  }

  /** What Pinniped answered last for a key. */
  function LastAnswer(ls: seq<Step>, key: Key): Option<Request> {
    if ls == [] then None
    else
      var l := ls[|ls| - 1];
      if l.Answered? && l.key == key && l.result.Some? then l.result else LastAnswer(ls[..|ls| - 1], key)
  }

  lemma StepAnswers(conf: Authenticator, s: State, l: Step, key: Key)
    ensures var all := Next(conf, s, l).all;
      if l.Answered? && l.key == key && l.result.Some? then key in all && all[key] == l.result.value
      else (key in all <==> key in s.all) && (key in all ==> all[key] == s.all[key])
  {
  }

  lemma {:induction false} ExecInv(conf: Authenticator, start: int, ls: seq<Step>, key: Key)
    requires Allowed(conf, start, ls)
    ensures var s := Exec(conf, start, ls);
      Inv(s) && LastAnswer(ls, key) == if key in s.all then Some(s.all[key]) else None
  {
    if ls != [] {
      var before, l := ls[..|ls| - 1], ls[|ls| - 1];
      var s := Exec(conf, start, before);
      ExecInv(conf, start, before, key);
      StepKeepsInv(conf, s, l);
      StepAnswers(conf, s, l, key);
    }
  }

  /** `r` holds a credential that expires at `at`. */
  predicate ExpiresAt(r: Request, at: int) {
    match r.status
    case Some(Status(Some(Credential(expiration, _, _, _)), _)) => expiration == at
    case _ => false
  }

  /** After any run, a connection is served at once, with Pinniped's last answer for its API
      and token, while the credential in that answer has not expired, be it at this very
      instant; otherwise it waits for Pinniped. */
  lemma ServedUntilExpiry(conf: Authenticator, start: int, ls: seq<Step>, url: string, token: string, now: int)
    requires Allowed(conf, start, ls) && Exec(conf, start, ls).clock <= now
    ensures var s, key := Exec(conf, start, ls), Key(url, Some(token), conf.name, None);
      var last, t := LastAnswer(ls, key), Next(conf, s, Connect(url, "Bearer " + token, now));
      if last.Some? && exists at :: ExpiresAt(last.value, at) && at >= now
      then t == s.(clock := now, served := s.served + [Served(key, last.value, true, now)])
      else t == s.(clock := now, waiting := s.waiting + multiset{key})
  {
    var s, key := Exec(conf, start, ls), Key(url, Some(token), conf.name, None);
    TokenOf(token);
    ExecInv(conf, start, ls, key);
    ExpiryLasts();
    GetAgrees(s.cache, s.all, KEEP, s.clock, key, now);
    var last := LastAnswer(ls, key);
    if last.Some? && !IsExpired(last.value, now) {
      assert ExpiresAt(last.value, last.value.status.value.credential.value.expiration);
    }
  }

  // ------------------------------------------------------------- every connection is answered

  function Connections(conf: Authenticator, ls: seq<Step>, key: Key): nat {
    if ls == [] then 0
    else
      var l := ls[|ls| - 1];
      Connections(conf, ls[..|ls| - 1], key)
      + if l.Connect? && KeyOf(l.url, CredData(l.authorization, conf)) == key then 1 else 0
  }

  function Failures(ls: seq<Step>, key: Key): nat {
    if ls == [] then 0
    else
      var l := ls[|ls| - 1];
      Failures(ls[..|ls| - 1], key) + if l.Answered? && l.key == key && l.result.None? then 1 else 0
  }

  function ServedTo(served: seq<Served>, key: Key): nat {
    if served == [] then 0
    else ServedTo(served[..|served| - 1], key) + if served[|served| - 1].key == key then 1 else 0
  }

  lemma ServedToMore(served: seq<Served>, x: Served, key: Key)
    ensures ServedTo(served + [x], key) == ServedTo(served, key) + if x.key == key then 1 else 0
  {
    assert (served + [x])[..|served|] == served;
  }

  lemma StepCounts(conf: Authenticator, s: State, l: Step, key: Key)
    requires Enabled(s, l)
    ensures var t := Next(conf, s, l);
      t.waiting[key] + ServedTo(t.served, key) == s.waiting[key] + ServedTo(s.served, key)
      + (if l.Connect? && KeyOf(l.url, CredData(l.authorization, conf)) == key then 1 else 0)
      - if l.Answered? && l.key == key && l.result.None? then 1 else 0
  {
    hide Pruned;
    var t := Next(conf, s, l);
    if |t.served| > |s.served| {
      ServedToMore(s.served, t.served[|s.served|], key);
    }
  }

  /** Each connection is served once, or got an error, or waits. */
  lemma {:induction false} EachConnectionOnce(conf: Authenticator, start: int, ls: seq<Step>, key: Key)
    requires Allowed(conf, start, ls)
    ensures var s := Exec(conf, start, ls);
      Connections(conf, ls, key) == s.waiting[key] + ServedTo(s.served, key) + Failures(ls, key)
  {
    if ls != [] {
      EachConnectionOnce(conf, start, ls[..|ls| - 1], key);
      StepCounts(conf, Exec(conf, start, ls[..|ls| - 1]), ls[|ls| - 1], key);
    }
  }
}
