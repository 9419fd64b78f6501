/** Versions that are missing and versions that come in: facts about lists alone. */
module MissingVersions {
  import opened Prelude
  import opened Versions
  import opened Catalogue
  import opened OciRegistry

  // ------------------------------------------------------------- the tags that are not stored

  lemma UnsyncedCons(v: Version, rest: seq<Version>, known: seq<Version>)
    ensures Unsynced([v] + rest, known) == (if v in known then [] else [v]) + Unsynced(rest, known)
  {
    assert ([v] + rest)[1..] == rest;
  }

  lemma {:induction false} UnsyncedAre(tags: seq<Version>, known: seq<Version>)
    ensures forall v :: v in Unsynced(tags, known) <==> v in tags && v !in known
  {
    if tags != [] {
      UnsyncedAre(tags[1..], known);
      assert tags == [tags[0]] + tags[1..];
    }
  }

  lemma {:induction false} UnsyncedDescends(tags: seq<Version>, known: seq<Version>)
    requires StrictlyDescending(Self, tags)
    ensures StrictlyDescending(Self, Unsynced(tags, known))
  {
    if tags != [] {
      var rest := Unsynced(tags[1..], known);
      UnsyncedDescends(tags[1..], known);
      UnsyncedAre(tags[1..], known);
      forall j | 0 <= j < |rest| ensures Compare(Self(tags[0]), Self(rest[j])) > 0 {
        assert rest[j] in rest && rest[j] in tags[1..];
        var i :| 0 <= i < |tags[1..]| && tags[1..][i] == rest[j];
        assert tags[i + 1] == rest[j];
      }
    }
  }

  /** What is missing after more versions have come is what they leave of what was missing. */
  lemma {:induction false} UnsyncedTwice(tags: seq<Version>, known: seq<Version>, more: seq<Version>, all: seq<Version>)
    requires forall v :: v in all <==> v in known || v in more
    ensures Unsynced(tags, all) == Unsynced(Unsynced(tags, known), more)
  {
    if tags != [] {
      var rest := Unsynced(tags[1..], known);
      UnsyncedTwice(tags[1..], known, more, all);
      if tags[0] in known {
        assert [] + rest == rest && [] + Unsynced(rest, more) == Unsynced(rest, more);
      } else {
        UnsyncedCons(tags[0], rest, more);
      }
    }
  }

  lemma {:induction false} AllKnown(s: seq<Version>, rest: seq<Version>, known: seq<Version>)
    requires forall v :: v in s ==> v in known
    ensures Unsynced(s + rest, known) == Unsynced(rest, known)
  {
    if s == [] {
      assert s + rest == rest;
    } else {
      AllKnown(s[1..], rest, known);
      assert s + rest == [s[0]] + (s[1..] + rest);
      UnsyncedCons(s[0], s[1..] + rest, known);
    }
  }

  lemma {:induction false} NoneKnown(s: seq<Version>, known: seq<Version>)
    requires forall v :: v in s ==> v !in known
    ensures Unsynced(s, known) == s
  {
    if s != [] {
      NoneKnown(s[1..], known);
      assert s == [s[0]] + s[1..];
    }
  }

  lemma NotInFront(s: seq<Version>, j: nat)
    requires StrictlyDescending(Self, s) && j <= |s|
    ensures forall v :: v in s[j..] ==> v !in s[..j]
  {
    forall v | v in s[j..] ensures v !in s[..j] {
      var k :| 0 <= k < |s[j..]| && s[j..][k] == v;
      assert s[j + k] == v;
      if v in s[..j] {
        var i :| 0 <= i < j && s[i] == v;
        PrecedenceIsTotalPreorder(Self(v), Self(v), Self(v));
      }
    }
  }

  /** When the first versions of a list have come, the others are missing. */
  lemma FrontComes(s: seq<Version>, j: nat)
    requires StrictlyDescending(Self, s) && j <= |s|
    ensures Unsynced(s, s[..j]) == s[j..]
  {
    hide Unsynced, StrictlyDescending;
    var front, rest := s[..j], s[j..];
    NotInFront(s, j);
    AllKnown(front, rest, front);
    NoneKnown(rest, front);
    assert s == front + rest;
  }

  /** The first `k` missing versions come in: the others are missing then. */
  lemma MissingShrinks(tags: seq<Version>, before: seq<Version>, after: seq<Version>, j: nat)
    requires StrictlyDescending(Self, tags) && j <= |Unsynced(tags, before)|
    requires multiset(after) == multiset(before) + multiset(Unsynced(tags, before)[..j])
    ensures Unsynced(tags, after) == Unsynced(tags, before)[j..]
  {
    hide Unsynced, StrictlyDescending;
    var missing := Unsynced(tags, before);
    JoinedAre(before, missing[..j], after);
    UnsyncedTwice(tags, before, missing[..j], after);
    UnsyncedDescends(tags, before);
    FrontComes(missing, j);
  }

  lemma JoinedAre(before: seq<Version>, added: seq<Version>, after: seq<Version>)
    requires multiset(after) == multiset(before) + multiset(added)
    ensures forall v :: v in after <==> v in before || v in added
  {
    forall v ensures v in after <==> v in before || v in added {
      assert v in after <==> v in multiset(after);
    }
  }

  // ------------------------------------------------------------- what comes in

  /** The first `k` of the missing versions have joined the stored ones, and nothing has gone. */
  ghost predicate Gained(stored: seq<Version>, missing: seq<Version>, now: seq<Version>, left: seq<Version>, k: nat) {
    && multiset(now) == multiset(stored) + multiset(missing[..Min(k, |missing|)])
    && left == missing[Min(k, |missing|)..]
    && (Descending(Self, stored) ==> Descending(Self, now))
  }

  lemma NothingGained(stored: seq<Version>, k: nat)
    ensures Gained(stored, [], stored, [], k)
  {
  }

  lemma FrontsMeet(s: seq<Version>, j: nat, k: nat)
    requires j <= k <= |s|
    ensures multiset(s[..j]) + multiset(s[j..][..k - j]) == multiset(s[..k]) && s[j..][k - j..] == s[k..]
  {
    assert s[..k] == s[..j] + s[j..][..k - j];
  }

  lemma GainedTwice(stored: seq<Version>, missing: seq<Version>, mid: seq<Version>, rest: seq<Version>,
      now: seq<Version>, left: seq<Version>, k: nat, l: nat, to: nat)
    requires Gained(stored, missing, mid, rest, k) && Gained(mid, rest, now, left, l) && to == k + l
    ensures Gained(stored, missing, now, left, to)
  {
    var i, j := Min(k, |missing|), Min(to, |missing|);
    assert Min(l, |rest|) == j - i;
    FrontsMeet(missing, i, j);
  }

  /** With a prefix of the versions stored, what comes in makes a longer prefix. */
  lemma PrefixGains(tags: seq<Version>, stored: seq<Version>, now: seq<Version>, left: seq<Version>, m: nat, k: nat)
    requires StrictlyDescending(Self, tags) && stored == tags[..Min(m, |tags|)]
    requires Gained(stored, Unsynced(tags, stored), now, left, k)
    ensures now == tags[..Min(m + k, |tags|)]
  {
    hide Unsynced, StrictlyDescending;
    var i, j := Min(m, |tags|), Min(m + k, |tags|);
    FrontComes(tags, i);
    assert Min(k, |tags[i..]|) == j - i;
    FrontDescends(tags, i);
    FrontDescends(tags, j);
    FrontsMeet(tags, i, j);
    DescendingOrderIsUnique(Self, now, tags[..j]);
  }

  lemma FrontDescends(tags: seq<Version>, j: nat)
    requires StrictlyDescending(Self, tags) && j <= |tags|
    ensures StrictlyDescending(Self, tags[..j]) && Descending(Self, tags[..j])
  {
  }

  // ------------------------------------------------------------- versions of charts

  lemma MapAround<T, U>(f: T -> U, a: seq<T>, x: T, b: seq<T>)
    ensures Map(f, a + [x] + b) == Map(f, a) + [f(x)] + Map(f, b)
  {
    hide Map;
    MapConcat(f, a + [x], b);
    MapConcat(f, a, [x]);
    assert Map(f, [x]) == [f(x)];
  }

  lemma BagAround<T>(a: seq<T>, x: T, b: seq<T>)
    ensures multiset(a + [x] + b) == multiset(a + b) + multiset{x}
  {
  }

  lemma BagOfOne<T, U>(f: T -> U, a: seq<T>, x: T, b: seq<T>)
    ensures multiset(Map(f, a + [x] + b)) == multiset(Map(f, a + b)) + multiset{f(x)}
  {
    hide Map;
    MapAround(f, a, x, b);
    MapConcat(f, a, b);
    BagAround(Map(f, a), f(x), Map(f, b));
  }

  lemma Around<T>(s: seq<T>, i: nat)
    requires i < |s|
    ensures s == s[..i] + [s[i]] + s[i + 1..]
  {
  }

  lemma MapOfOne<T, U>(f: T -> U, s: seq<T>, i: nat)
    requires i < |s|
    ensures multiset(Map(f, s)) == multiset(Map(f, Without(s, i))) + multiset{f(s[i])}
  {
    Around(s, i);
    BagOfOne(f, s[..i], s[i], s[i + 1..]);
  }

  lemma {:induction false} MapKeepsBag<T, U>(f: T -> U, a: seq<T>, b: seq<T>)
    requires multiset(a) == multiset(b)
    ensures multiset(Map(f, a)) == multiset(Map(f, b))
    decreases |a|
  {
    hide Map;
    if a == [] {
      assert |multiset(b)| == 0;
      assert b == [];
    } else {
      assert a[0] in multiset(b);
      var i :| 0 <= i < |b| && b[i] == a[0];
      WithoutOne(a, 0);
      WithoutOne(b, i);
      assert multiset(Without(a, 0)) == multiset(a) - multiset{a[0]} == multiset(Without(b, i));
      MapKeepsBag(f, Without(a, 0), Without(b, i));
      MapOfOne(f, a, 0);
      MapOfOne(f, b, i);
    }
  }

  lemma VersionsTogether(all: seq<ChartVersion>, stored: seq<ChartVersion>, more: seq<ChartVersion>)
    requires multiset(all) == multiset(stored) + multiset(more)
    ensures multiset(Map(VersionOf, all)) == multiset(Map(VersionOf, stored)) + multiset(Map(VersionOf, more))
  {
    MapKeepsBag(VersionOf, all, stored + more);
    MapConcat(VersionOf, stored, more);
  }

  lemma DescendingVersions(versions: seq<ChartVersion>)
    ensures Descending(VersionOf, versions) <==> Descending(Self, Map(VersionOf, versions))
  {
    var vs := Map(VersionOf, versions);
    forall i, j | 0 <= i < j < |versions|
      ensures Compare(VersionOf(versions[i]), VersionOf(versions[j])) == Compare(Self(vs[i]), Self(vs[j]))
    {
    }
  }
}
