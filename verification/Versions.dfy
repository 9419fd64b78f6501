/** Semantic-version precedence (section 11 of Semantic Versioning 2.0.0) and the
    descending sorts that the synchroniser applies to tags and chart versions. */
module Versions {
  import opened Prelude

  datatype Identifier = Numeric(n: nat) | Alpha(s: string)

  datatype Version = Version(major: nat, minor: nat, patch: nat, pre: seq<Identifier>, metadata: string)

  function Sign(x: int): (r: int) {
    if x < 0 then -1 else if x > 0 then 1 else 0
  }

  function CompareText(s: string, t: string): (r: int) {
    if s == [] then (if t == [] then 0 else -1)
    else if t == [] then 1
    else if s[0] != t[0] then Sign(s[0] as int - t[0] as int)
    else CompareText(s[1..], t[1..])
  }

  function CompareIdentifier(a: Identifier, b: Identifier): (r: int) {
    match (a, b)
    case (Numeric(m), Numeric(n)) => Sign(m - n)
    case (Numeric(_), Alpha(_)) => -1
    case (Alpha(_), Numeric(_)) => 1
    case (Alpha(s), Alpha(t)) => CompareText(s, t)
  }

  function CompareIdentifiers(a: seq<Identifier>, b: seq<Identifier>): (r: int) {
    if a == [] then (if b == [] then 0 else -1)
    else if b == [] then 1
    else if CompareIdentifier(a[0], b[0]) != 0 then CompareIdentifier(a[0], b[0])
    else CompareIdentifiers(a[1..], b[1..])
  }

  /** A version with a pre-release part precedes the same version without one. */
  function ComparePre(a: seq<Identifier>, b: seq<Identifier>): (r: int) {
    if a == [] then (if b == [] then 0 else 1)
    else if b == [] then -1
    else CompareIdentifiers(a, b)
  }

  function Compare(a: Version, b: Version): (r: int) {
    if a.major != b.major then Sign(a.major - b.major)
    else if a.minor != b.minor then Sign(a.minor - b.minor)
    else if a.patch != b.patch then Sign(a.patch - b.patch)
    else ComparePre(a.pre, b.pre)
  }

  lemma {:induction false} TextOrder(a: string, b: string, c: string)
    ensures CompareText(a, a) == 0
    ensures CompareText(a, b) == -CompareText(b, a)
    ensures CompareText(a, b) >= 0 && CompareText(b, c) >= 0 ==> CompareText(a, c) >= 0
    ensures CompareText(a, b) == 0 ==> a == b
    decreases |a| + |b| + |c|
  {
    if a != [] {
      var b' := if b == [] then [] else b[1..];
      var c' := if c == [] then [] else c[1..];
      TextOrder(a[1..], b', c');
      if b != [] && a[0] == b[0] && CompareText(a, b) == 0 {
        assert a == [a[0]] + a[1..] && b == [b[0]] + b[1..];
      }
    }
  }

  lemma IdentifierOrder(a: Identifier, b: Identifier, c: Identifier)
    ensures CompareIdentifier(a, a) == 0
    ensures CompareIdentifier(a, b) == -CompareIdentifier(b, a)
    ensures CompareIdentifier(a, b) >= 0 && CompareIdentifier(b, c) >= 0 ==> CompareIdentifier(a, c) >= 0
    ensures CompareIdentifier(a, b) == 0 ==> a == b
  {
    var x := if a.Alpha? then a.s else [];
    var y := if b.Alpha? then b.s else [];
    var z := if c.Alpha? then c.s else [];
    TextOrder(x, y, z);
  }

  lemma {:induction false} IdentifiersOrder(a: seq<Identifier>, b: seq<Identifier>, c: seq<Identifier>)
    ensures CompareIdentifiers(a, a) == 0
    ensures CompareIdentifiers(a, b) == -CompareIdentifiers(b, a)
    ensures CompareIdentifiers(a, b) >= 0 && CompareIdentifiers(b, c) >= 0 ==> CompareIdentifiers(a, c) >= 0
    decreases |a| + |b| + |c|
  {
    if a != [] {
      var b' := if b == [] then [] else b[1..];
      var c' := if c == [] then [] else c[1..];
      IdentifiersOrder(a[1..], b', c');
      IdentifierOrder(a[0], if b == [] then a[0] else b[0], if c == [] then a[0] else c[0]);
      if b != [] && c != [] {
        IdentifierOrder(c[0], a[0], b[0]);
        IdentifierOrder(b[0], c[0], a[0]);
      }
    }
  }

  /** Precedence is a total preorder. */
  lemma PrecedenceIsTotalPreorder(a: Version, b: Version, c: Version)
    ensures Compare(a, a) == 0
    ensures Compare(a, b) == -Compare(b, a)
    ensures Compare(a, b) >= 0 && Compare(b, c) >= 0 ==> Compare(a, c) >= 0
    ensures Compare(a, b) > 0 && Compare(b, c) > 0 ==> Compare(a, c) > 0
  {
    IdentifiersOrder(a.pre, b.pre, c.pre);
    IdentifiersOrder(c.pre, a.pre, b.pre);
    IdentifiersOrder(b.pre, c.pre, a.pre);
  }

  // ---------------------------------------------------------------- sorting

  ghost predicate Descending<T>(key: T -> Version, s: seq<T>) {
    forall i, j :: 0 <= i < j < |s| ==> Compare(key(s[i]), key(s[j])) >= 0
  }

  ghost predicate StrictlyDescending<T>(key: T -> Version, s: seq<T>) {
    forall i, j :: 0 <= i < j < |s| ==> Compare(key(s[i]), key(s[j])) > 0
  }

  ghost predicate DistinctPrecedence<T>(key: T -> Version, s: seq<T>) {
    forall i, j :: 0 <= i < j < |s| ==> Compare(key(s[i]), key(s[j])) != 0
  }

  function Insert<T>(key: T -> Version, x: T, s: seq<T>): (r: seq<T>)
    ensures multiset(r) == multiset(s) + multiset{x}
    ensures |r| == |s| + 1
  {
    if s == [] || Compare(key(x), key(s[0])) >= 0 then [x] + s
    else
      assert s == [s[0]] + s[1..];
      [s[0]] + Insert(key, x, s[1..])
  }

  function SortDescending<T>(key: T -> Version, s: seq<T>): (r: seq<T>)
    ensures multiset(r) == multiset(s) && |r| == |s|
  {
    if s == [] then [] else
      assert s == [s[0]] + s[1..];
      Insert(key, s[0], SortDescending(key, s[1..]))
  }

  lemma {:induction false} InsertDescending<T>(key: T -> Version, x: T, s: seq<T>)
    requires Descending(key, s)
    ensures Descending(key, Insert(key, x, s))
  {
    var r := Insert(key, x, s);
    if s == [] || Compare(key(x), key(s[0])) >= 0 {
      forall j | 0 <= j < |s| ensures Compare(key(x), key(s[j])) >= 0 {
        PrecedenceIsTotalPreorder(key(x), key(s[0]), key(s[j]));
        PrecedenceIsTotalPreorder(key(s[j]), key(s[j]), key(s[j]));
      }
    } else {
      InsertDescending(key, x, s[1..]);
      var t := Insert(key, x, s[1..]);
      forall j | 0 <= j < |t| ensures Compare(key(s[0]), key(t[j])) >= 0 {
        assert t[j] in multiset(t);
        assert t[j] == x || t[j] in s[1..];
        PrecedenceIsTotalPreorder(key(x), key(s[0]), key(x));
      }
    }
  }

  lemma {:induction false} SortIsDescending<T>(key: T -> Version, s: seq<T>)
    ensures Descending(key, SortDescending(key, s))
  {
    if s != [] {
      SortIsDescending(key, s[1..]);
      InsertDescending(key, s[0], SortDescending(key, s[1..]));
    }
  }

  /** With distinct precedences there is only one descending order, so any correct
      sort gives the result of SortDescending. */
  lemma {:induction false} DescendingOrderIsUnique<T>(key: T -> Version, a: seq<T>, b: seq<T>)
    requires Descending(key, a) && StrictlyDescending(key, b)
    requires multiset(a) == multiset(b)
    ensures a == b
  {
    assert |multiset(a)| == |a| && |multiset(b)| == |b|;
    if a != [] {
      SameFirst(key, a, b);
      TailMultiset(a);
      TailMultiset(b);
      DescendingOrderIsUnique(key, a[1..], b[1..]);
    }
  }

  lemma SameFirst<T>(key: T -> Version, a: seq<T>, b: seq<T>)
    requires Descending(key, a) && StrictlyDescending(key, b)
    requires multiset(a) == multiset(b) && a != [] && b != []
    ensures a[0] == b[0]
  {
    assert a[0] in multiset(b) && b[0] in multiset(a);
    var i :| 0 <= i < |b| && b[i] == a[0];
    var j :| 0 <= j < |a| && a[j] == b[0];
    if i > 0 && j > 0 {
      assert Compare(key(b[0]), key(b[i])) > 0;
      assert Compare(key(a[0]), key(a[j])) >= 0;
      PrecedenceIsTotalPreorder(key(a[0]), key(b[0]), key(a[0]));
    }
  }

  lemma TailMultiset<T>(s: seq<T>)
    requires s != []
    ensures multiset(s[1..]) == multiset(s) - multiset{s[0]}
  {
    assert s == [s[0]] + s[1..];
  }

  lemma SortOfDistinct<T>(key: T -> Version, s: seq<T>)
    requires DistinctPrecedence(key, s)
    ensures StrictlyDescending(key, SortDescending(key, s))
  {
    var r := SortDescending(key, s);
    SortIsDescending(key, s);
    forall i, j | 0 <= i < j < |r| ensures Compare(key(r[i]), key(r[j])) > 0 {
      if Compare(key(r[i]), key(r[j])) == 0 {
        TwoOccurrences(r, i, j);
        assert multiset{r[i], r[j]} <= multiset(s);
        var p, q := FindTwo(s, r[i], r[j]);
        PrecedenceIsTotalPreorder(key(r[i]), key(r[j]), key(r[i]));
      }
    }
  }

  lemma TwoOccurrences<T>(s: seq<T>, i: nat, j: nat)
    requires i < j < |s|
    ensures multiset{s[i], s[j]} <= multiset(s)
  {
    assert s == s[..i] + [s[i]] + s[i+1..j] + [s[j]] + s[j+1..];
  }

  /** A sequence without one of its elements. */
  function Without<T>(s: seq<T>, i: nat): seq<T>
    requires i < |s|
  {
    s[..i] + s[i + 1..]
  }

  lemma WithoutOne<T>(s: seq<T>, i: nat)
    requires i < |s|
    ensures multiset(s) == multiset(Without(s, i)) + multiset{s[i]}
  {
    assert s == s[..i] + [s[i]] + s[i + 1..];
  }

  lemma SecondStays<T>(all: multiset<T>, rest: multiset<T>, x: T, y: T)
    requires multiset{x, y} <= all && all == rest + multiset{x}
    ensures y in rest
  {
    assert multiset{x, y}[y] <= all[y];
  }

  lemma FindTwo<T>(s: seq<T>, x: T, y: T) returns (p: nat, q: nat)
    requires multiset{x, y} <= multiset(s)
    ensures p < q < |s| && ((s[p] == x && s[q] == y) || (s[p] == y && s[q] == x))
  {
    assert x in multiset(s);
    var i :| 0 <= i < |s| && s[i] == x;
    var rest := Without(s, i);
    WithoutOne(s, i);
    SecondStays(multiset(s), multiset(rest), x, y);
    var k :| 0 <= k < |rest| && rest[k] == y;
    if k < i {
      p, q := k, i;
    } else {
      p, q := i, k + 1;
    }
  }
}
