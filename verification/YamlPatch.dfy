/** Laws of changing a document by path: a set value is read back, nothing else moves, and
    modifications of unrelated paths may be applied in any order. */
module YamlPatch {
  import opened Prelude
  import opened Text
  import opened YamlPath

  /** Neither path is above or below the other. */
  predicate Apart(p: Parts, q: Parts) {
    !(p <= q) && !(q <= p)
  }

  lemma ApartTail(p: Parts, q: Parts)
    requires Apart(p, q)
    ensures p != [] && q != [] && (p[0] == q[0] ==> |p| > 1 && |q| > 1 && Apart(p[1..], q[1..]))
  {
    if p[0] == q[0] {
      assert p == [p[0]] + p[1..] && q == [q[0]] + q[1..];
    }
  }

  // ------------------------------------------------------------- one change

  lemma {:induction false} ChangedIsRead(n: Node, p: Parts, v: Option<Node>)
    requires p != [] && Reaches(n, p)
    ensures GetIn(Change(n, p, v), p) == v
    decreases |p|
  {
    var r := Change(n, p, v);
    if |p| == 1 {
      assert p[1..] == [];
    } else if p[0] in r.entries {
      ChangedIsRead(Child(n, p[0]), p[1..], v);
    }
  }

  lemma {:induction false} OthersAreKept(n: Node, p: Parts, v: Option<Node>, q: Parts)
    requires p != [] && Reaches(n, p) && Apart(p, q)
    ensures GetIn(Change(n, p, v), q) == GetIn(n, q)
    decreases |p|
  {
    ApartTail(p, q);
    if p[0] == q[0] {
      OthersAreKept(Child(n, p[0]), p[1..], v, q[1..]);
    }
  }

  lemma {:induction false} OthersAreReached(n: Node, p: Parts, v: Option<Node>, q: Parts)
    requires p != [] && q != [] && Reaches(n, p) && Reaches(n, q) && Apart(p, q)
    ensures Reaches(Change(n, p, v), q)
    decreases |p|
  {
    ApartTail(p, q);
    if p[0] == q[0] {
      OthersAreReached(Child(n, p[0]), p[1..], v, q[1..]);
    }
  }

  /** The immediate parent of `q` is an explicit null, and `p` leads through it. */
  predicate NullOnTheWay(n: Node, p: Parts, q: Parts) {
    |q| > 1 && q[..|q| - 1] < p && GetIn(n, q[..|q| - 1]) == Some(Null)
  }

  lemma NullBelow(n: Node, p: Parts, q: Parts)
    requires |p| > 1 && |q| > 2 && p[0] == q[0] && n.Mapping? && p[0] in n.entries
    ensures NullOnTheWay(n, p, q) <==> NullOnTheWay(n.entries[p[0]], p[1..], q[1..])
  {
    var parent := q[..|q| - 1];
    assert parent[0] == q[0] && parent[1..] == q[1..][..|q| - 2];
    assert p == [p[0]] + p[1..] && parent == [p[0]] + parent[1..];
    assert parent < p <==> parent[1..] < p[1..];
  }

  lemma NullHere(n: Node, p: Parts, q: Parts)
    requires |p| > 1 && |q| == 2 && p[0] == q[0] && n.Mapping?
    ensures NullOnTheWay(n, p, q) <==> p[0] in n.entries && n.entries[p[0]] == Null
  {
    var parent := q[..1];
    assert parent[0] == p[0] && parent[1..] == [];
    assert p == [p[0]] + p[1..] && parent == [p[0]];
    if p[0] in n.entries {
      assert GetIn(n, parent) == GetIn(n.entries[p[0]], []);
    }
  }

  /** After a change, an unrelated path is reached if it was before, or if an explicit null
      that stopped it has made way for the change, and in no other case. */
  lemma {:induction false} ReachedAfterIff(n: Node, p: Parts, v: Option<Node>, q: Parts)
    requires p != [] && q != [] && Reaches(n, p) && Apart(p, q)
    ensures Reaches(Change(n, p, v), q) <==> Reaches(n, q) || NullOnTheWay(n, p, q)
    decreases |p|
  {
    ApartTail(p, q);
    var k := p[0];
    if k != q[0] {
      FirstKeyOnly(n, p, v, q[0]);
      assert |q| > 1 ==> q[..|q| - 1][0] == q[0];
    } else {
      OneLevel(n, p, v);
      ReachedAfterIff(Child(n, k), p[1..], v, q[1..]);
      if |q| == 2 {
        NullHere(n, p, q);
      } else if k in n.entries {
        NullBelow(n, p, q);
      } else {
        assert q[..|q| - 1][0] == k;
      }
    }
  }

  lemma {:induction false} RemoveFromNothing(p: Parts)
    requires p != []
    ensures Change(NOTHING, p, None) == NOTHING
  {
    assert NOTHING.entries - {p[0]} == map[];
  }

  predicate SameAt(a: Node, b: Node, k: string) {
    && a.Mapping? && b.Mapping? && (k in a.entries <==> k in b.entries)
    && (k in a.entries ==> a.entries[k] == b.entries[k])
  }

  lemma SameEverywhere(a: Node, b: Node)
    requires a.Mapping? && b.Mapping? && forall k :: SameAt(a, b, k)
    ensures a == b
  {
    assert forall k :: k in a.entries ==> SameAt(a, b, k);
    assert forall k :: k in b.entries ==> SameAt(a, b, k);
    assert a.entries == b.entries;
  }

  predicate Gap(n: Node, k: string)
    requires n.Mapping?
  {
    k !in n.entries || n.entries[k] == Null
  }

  /** A change works below the first key of its path, on what stands there, alone. */
  lemma FirstKeyOnly(n: Node, p: Parts, v: Option<Node>, k: string)
    requires p != [] && Reaches(n, p) && k != p[0]
    ensures SameAt(Change(n, p, v), n, k)
  {
  }

  lemma SameAtFirstKey(n: Node, m: Node, p: Parts, v: Option<Node>)
    requires p != [] && Reaches(n, p) && Reaches(m, p) && SameAt(n, m, p[0])
    ensures SameAt(Change(n, p, v), Change(m, p, v), p[0])
  {
  }

  lemma OneLevel(n: Node, p: Parts, v: Option<Node>)
    requires |p| > 1 && Reaches(n, p)
    ensures Reaches(Child(n, p[0]), p[1..])
    ensures var r := Change(n, p, v);
      && (Gap(r, p[0]) <==> p[0] !in r.entries) && (Gap(r, p[0]) <==> v.None? && Gap(n, p[0]))
      && Child(r, p[0]) == Change(Child(n, p[0]), p[1..], v)
  {
    RemoveFromNothing(p[1..]);
  }

  lemma TwoLevels(n: Node, p: Parts, v: Option<Node>, q: Parts, w: Option<Node>)
    requires |p| > 1 && |q| > 1 && p[0] == q[0] && Reaches(n, p)
    requires Reaches(Change(n, p, v), q)
    ensures Reaches(Child(n, p[0]), p[1..]) && Reaches(Change(Child(n, p[0]), p[1..], v), q[1..])
    ensures var r := Change(Change(n, p, v), q, w);
      && (Gap(r, p[0]) <==> p[0] !in r.entries) && (Gap(r, p[0]) <==> w.None? && v.None? && Gap(n, p[0]))
      && Child(r, p[0]) == Change(Change(Child(n, p[0]), p[1..], v), q[1..], w)
  {
    OneLevel(n, p, v);
    OneLevel(Change(n, p, v), q, w);
  }

  /** Changes of unrelated paths commute. */
  lemma {:induction false} ChangesCommute(n: Node, p: Parts, v: Option<Node>, q: Parts, w: Option<Node>)
    requires p != [] && q != [] && Reaches(n, p) && Reaches(n, q) && Apart(p, q)
    requires Reaches(Change(n, p, v), q) && Reaches(Change(n, q, w), p)
    ensures Change(Change(n, p, v), q, w) == Change(Change(n, q, w), p, v)
    decreases |p|
  {
    ApartTail(p, q);
    var pq, qp := Change(Change(n, p, v), q, w), Change(Change(n, q, w), p, v);
    if p[0] == q[0] {
      TwoLevels(n, p, v, q, w);
      TwoLevels(n, q, w, p, v);
      ChangesCommute(Child(n, p[0]), p[1..], v, q[1..], w);
    }
    forall k ensures SameAt(pq, qp, k) {
      if k != p[0] && k != q[0] {
        FirstKeyOnly(n, p, v, k);
        FirstKeyOnly(Change(n, p, v), q, w, k);
        FirstKeyOnly(n, q, w, k);
        FirstKeyOnly(Change(n, q, w), p, v, k);
      } else if p[0] != q[0] {
        AtOneKey(n, p, v, q, w);
        AtOneKey(n, q, w, p, v);
      }
    }
    SameEverywhere(pq, qp);
  }

  lemma AtOneKey(n: Node, p: Parts, v: Option<Node>, q: Parts, w: Option<Node>)
    requires p != [] && q != [] && Reaches(n, p) && Reaches(n, q) && p[0] != q[0]
    requires Reaches(Change(n, p, v), q) && Reaches(Change(n, q, w), p)
    ensures SameAt(Change(Change(n, p, v), q, w), Change(Change(n, q, w), p, v), p[0])
  {
    FirstKeyOnly(Change(n, p, v), q, w, p[0]);
    FirstKeyOnly(n, q, w, p[0]);
    SameAtFirstKey(n, Change(n, q, w), p, v);
  }

  // ------------------------------------------------------------- a list of changes

  datatype Edit = Edit(parts: Parts, value: Option<Node>)

  ghost predicate AllReach(n: Node, edits: seq<Edit>) {
    forall i :: 0 <= i < |edits| ==> edits[i].parts != [] && Reaches(n, edits[i].parts)
  }

  ghost predicate Unrelated(edits: seq<Edit>) {
    forall i, j :: 0 <= i < j < |edits| ==> Apart(edits[i].parts, edits[j].parts)
  }

  lemma {:induction false} StillReach(n: Node, edits: seq<Edit>)
    requires edits != [] && AllReach(n, edits) && Unrelated(edits)
    ensures edits[0].parts != [] && Reaches(n, edits[0].parts) && Unrelated(edits[1..])
    ensures AllReach(Change(n, edits[0].parts, edits[0].value), edits[1..])
  {
    forall i | 0 <= i < |edits[1..]|
      ensures edits[1..][i].parts != [] && Reaches(Change(n, edits[0].parts, edits[0].value), edits[1..][i].parts)
    {
      OthersAreReached(n, edits[0].parts, edits[0].value, edits[i + 1].parts);
    }
  }

  function ApplyAll(n: Node, edits: seq<Edit>): Node
    requires AllReach(n, edits) && Unrelated(edits)
    decreases |edits|
  {
    if edits == [] then n
    else
      StillReach(n, edits);
      ApplyAll(Change(n, edits[0].parts, edits[0].value), edits[1..])
  }

  /** Every edited path ends up as its edit says, and unrelated paths as they were. */
  lemma {:induction false} ApplyAllMeaning(n: Node, edits: seq<Edit>, q: Parts)
    requires AllReach(n, edits) && Unrelated(edits)
    ensures forall i :: 0 <= i < |edits| && edits[i].parts == q ==> GetIn(ApplyAll(n, edits), q) == edits[i].value
    ensures (forall i :: 0 <= i < |edits| ==> Apart(edits[i].parts, q)) ==> GetIn(ApplyAll(n, edits), q) == GetIn(n, q)
    decreases |edits|
  {
    if edits != [] {
      StillReach(n, edits);
      var m := Change(n, edits[0].parts, edits[0].value);
      ApplyAllMeaning(m, edits[1..], q);
      assert forall i :: 0 < i < |edits| ==> edits[1..][i - 1] == edits[i];
      if edits[0].parts == q {
        ChangedIsRead(n, q, edits[0].value);
        assert forall i :: 0 <= i < |edits[1..]| ==> Apart(edits[1..][i].parts, q);
      } else if Apart(edits[0].parts, q) {
        OthersAreKept(n, edits[0].parts, edits[0].value, q);
      }
    }
  }

  lemma UnrelatedSub(a: seq<Edit>, o: Edit, b: seq<Edit>, n: Node)
    requires AllReach(n, a + [o] + b) && Unrelated(a + [o] + b)
    ensures AllReach(n, [o] + (a + b)) && Unrelated([o] + (a + b))
    ensures AllReach(n, a + b) && Unrelated(a + b)
  {
    var s, t := a + [o] + b, [o] + (a + b);
    forall i | 0 <= i < |t| ensures 0 <= Moved(i, |a|) < |s| && t[i] == s[Moved(i, |a|)] {
    }
    forall i, j | 0 <= i < j < |t| ensures Apart(t[i].parts, t[j].parts) {
      var k, l := Moved(i, |a|), Moved(j, |a|);
      assert t[i] == s[k] && t[j] == s[l] && (k < l || l < k);
    }
    forall i | 0 <= i < |a + b| ensures (a + b)[i] == t[i + 1] {
    }
  }

  function Moved(i: int, k: int): int {
    if i == 0 then k else if i <= k then i - 1 else i
  }

  lemma {:induction false} MoveToFront(n: Node, a: seq<Edit>, o: Edit, b: seq<Edit>)
    requires AllReach(n, a + [o] + b) && Unrelated(a + [o] + b)
    requires AllReach(n, [o] + (a + b)) && Unrelated([o] + (a + b))
    ensures ApplyAll(n, a + [o] + b) == ApplyAll(n, [o] + (a + b))
    decreases |a|
  {
    var s := a + [o] + b;
    if a == [] {
      assert s == [o] + (a + b);
    } else {
      var e := a[0];
      assert s[0] == e && s[|a|] == o && s[1..] == a[1..] + [o] + b;
      var m := Change(n, e.parts, e.value);
      StillReach(n, s);
      UnrelatedSub(a[1..], o, b, m);
      MoveToFront(m, a[1..], o, b);
      FrontFirst(m, o, a[1..] + b);
      FrontFirst(n, o, a + b);
      assert a + b == [e] + (a[1..] + b);
      FrontFirst(Change(n, o.parts, o.value), e, a[1..] + b);
      ChangesCommute(n, e.parts, e.value, o.parts, o.value);
    }
  }

  lemma SameRest(s: seq<Edit>, a: seq<Edit>, o: Edit, b: seq<Edit>, t: seq<Edit>)
    requires s != [] && s[0] == o && |a| < |t| && t[..|a|] == a && t[|a|] == o && t[|a| + 1..] == b
    requires multiset(s) == multiset(t)
    ensures t == a + [o] + b && multiset(s[1..]) == multiset(a + b)
  {
    assert s == [o] + s[1..] && t == a + [o] + b;
    SameBag(multiset(s[1..]), multiset(a), multiset(b), o);
  }

  lemma SameBag<T>(rest: multiset<T>, a: multiset<T>, b: multiset<T>, o: T)
    requires multiset{o} + rest == a + multiset{o} + b
    ensures rest == a + b
  {
    assert rest == (multiset{o} + rest) - multiset{o};
    assert a + b == (a + multiset{o} + b) - multiset{o};
  }

  /** The order of unrelated changes does not matter. */
  lemma {:induction false} AnyOrder(n: Node, s: seq<Edit>, t: seq<Edit>)
    requires AllReach(n, s) && Unrelated(s) && AllReach(n, t) && Unrelated(t)
    requires multiset(s) == multiset(t)
    ensures ApplyAll(n, s) == ApplyAll(n, t)
    decreases |s|
  {
    if s == [] {
      assert |multiset(t)| == |t|;
    } else {
      var o := s[0];
      assert o in multiset(t);
      var i :| 0 <= i < |t| && t[i] == o;
      var a, b := t[..i], t[i + 1..];
      SameRest(s, a, o, b, t);
      UnrelatedSub(a, o, b, n);
      MoveToFront(n, a, o, b);
      StillReach(n, s);
      FrontFirst(n, o, a + b);
      AnyOrder(Change(n, o.parts, o.value), s[1..], a + b);
    }
  }

  lemma FrontFirst(n: Node, o: Edit, rest: seq<Edit>)
    requires AllReach(n, [o] + rest) && Unrelated([o] + rest)
    ensures o.parts != [] && Reaches(n, o.parts)
    ensures AllReach(Change(n, o.parts, o.value), rest) && Unrelated(rest)
    ensures ApplyAll(n, [o] + rest) == ApplyAll(Change(n, o.parts, o.value), rest)
  {
    StillReach(n, [o] + rest);
    assert ([o] + rest)[1..] == rest;
  }
}
