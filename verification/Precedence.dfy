/** Precedence as section 11 of Semantic Versioning 2.0.0 states it, on the fields of versions,
    and that the comparison used throughout is it. */
module Precedence {
  import opened Versions

  /** The first differing character decides, or else the end of the shorter text. */
  ghost predicate TextBelow(s: string, t: string) {
    || s < t
    || exists i :: DiffersFirstAt(s, t, i) && s[i] < t[i]
  }

  ghost predicate DiffersFirstAt<T>(s: seq<T>, t: seq<T>, i: int) {
    0 <= i < |s| && i < |t| && s[..i] == t[..i] && s[i] != t[i]
  }

  /** Numbers are compared by value and come before texts. */
  ghost predicate IdentifierBelow(a: Identifier, b: Identifier) {
    match (a, b)
    case (Numeric(m), Numeric(n)) => m < n
    case (Numeric(_), Alpha(_)) => true
    case (Alpha(_), Numeric(_)) => false
    case (Alpha(s), Alpha(t)) => TextBelow(s, t)
  }

  /** The first differing identifier decides, or else the longer list is newer. */
  ghost predicate PreBelow(a: seq<Identifier>, b: seq<Identifier>) {
    || a < b
    || exists i :: DiffersFirstAt(a, b, i) && IdentifierBelow(a[i], b[i])
  }

  predicate SameNumbers(a: Version, b: Version) {
    a.major == b.major && a.minor == b.minor && a.patch == b.patch
  }

  /** `a` has the higher precedence. */
  ghost predicate Newer(a: Version, b: Version) {
    || a.major > b.major
    || (a.major == b.major && a.minor > b.minor)
    || (a.major == b.major && a.minor == b.minor && a.patch > b.patch)
    || (SameNumbers(a, b) && a.pre == [] && b.pre != [])
    || (SameNumbers(a, b) && a.pre != [] && b.pre != [] && PreBelow(b.pre, a.pre))
  }

  // ------------------------------------------------------------- one place further on

  lemma DiffersLater<T>(s: seq<T>, t: seq<T>, i: nat)
    requires s != [] && t != [] && s[0] == t[0]
    ensures DiffersFirstAt(s[1..], t[1..], i) <==> DiffersFirstAt(s, t, i + 1)
  {
    if i < |s| - 1 && i < |t| - 1 {
      assert s[..i + 1] == [s[0]] + s[1..][..i] && t[..i + 1] == [t[0]] + t[1..][..i];
      assert s[1..][..i] == s[..i + 1][1..] && t[1..][..i] == t[..i + 1][1..];
    }
  }

  lemma PrefixLater<T>(s: seq<T>, t: seq<T>)
    requires s != [] && t != [] && s[0] == t[0]
    ensures s[1..] < t[1..] <==> s < t
  {
    assert s == [s[0]] + s[1..] && t == [t[0]] + t[1..];
  }

  lemma DiffersAtOnce<T>(s: seq<T>, t: seq<T>, i: int)
    requires s != [] && t != [] && s[0] != t[0]
    ensures DiffersFirstAt(s, t, i) <==> i == 0
  {
    if 0 < i < |s| && i < |t| {
      assert s[..i][0] != t[..i][0];
    }
  }

  // ------------------------------------------------------------- the comparison

  lemma {:induction false} TextIs(s: string, t: string)
    ensures CompareText(s, t) < 0 <==> TextBelow(s, t)
    ensures CompareText(s, t) == 0 <==> s == t
  {
    if s != [] && t != [] {
      if s[0] != t[0] {
        assert DiffersFirstAt(s, t, 0);
        forall i {
          DiffersAtOnce(s, t, i);
        }
      } else {
        TextIs(s[1..], t[1..]);
        TextLater(s, t);
        assert s == [s[0]] + s[1..] && t == [t[0]] + t[1..];
      }
    }
  }

  lemma TextLater(s: string, t: string)
    requires s != [] && t != [] && s[0] == t[0]
    ensures TextBelow(s[1..], t[1..]) <==> TextBelow(s, t)
  {
    PrefixLater(s, t);
    if i :| DiffersFirstAt(s[1..], t[1..], i) && s[1..][i] < t[1..][i] {
      DiffersLater(s, t, i);
      assert s[i + 1] < t[i + 1];
    }
    if i :| DiffersFirstAt(s, t, i) && s[i] < t[i] {
      DiffersLater(s, t, i - 1);
      assert s[1..][i - 1] < t[1..][i - 1];
    }
  }

  lemma IdentifierIs(a: Identifier, b: Identifier)
    ensures CompareIdentifier(a, b) < 0 <==> IdentifierBelow(a, b)
    ensures CompareIdentifier(a, b) == 0 <==> a == b
  {
    if a.Alpha? && b.Alpha? {
      TextIs(a.s, b.s);
    }
  }

  lemma {:induction false} IdentifiersAre(a: seq<Identifier>, b: seq<Identifier>)
    ensures CompareIdentifiers(a, b) < 0 <==> PreBelow(a, b)
    ensures CompareIdentifiers(a, b) == 0 <==> a == b
  {
    if a != [] && b != [] {
      IdentifierIs(a[0], b[0]);
      if a[0] != b[0] {
        assert DiffersFirstAt(a, b, 0);
        forall i {
          DiffersAtOnce(a, b, i);
        }
      } else {
        IdentifiersAre(a[1..], b[1..]);
        PreLater(a, b);
        assert a == [a[0]] + a[1..] && b == [b[0]] + b[1..];
      }
    }
  }

  lemma PreLater(a: seq<Identifier>, b: seq<Identifier>)
    requires a != [] && b != [] && a[0] == b[0]
    ensures PreBelow(a[1..], b[1..]) <==> PreBelow(a, b)
  {
    PrefixLater(a, b);
    if i :| DiffersFirstAt(a[1..], b[1..], i) && IdentifierBelow(a[1..][i], b[1..][i]) {
      DiffersLater(a, b, i);
      assert IdentifierBelow(a[i + 1], b[i + 1]);
    }
    if i :| DiffersFirstAt(a, b, i) && IdentifierBelow(a[i], b[i]) {
      DiffersLater(a, b, i - 1);
      assert IdentifierBelow(a[1..][i - 1], b[1..][i - 1]);
    }
  }

  /** The comparison is positive just for the newer version, and zero just for versions that
      agree in everything but their metadata. */
  lemma ComparesPrecedence(a: Version, b: Version)
    ensures Compare(a, b) > 0 <==> Newer(a, b)
    ensures Compare(a, b) < 0 <==> Newer(b, a)
    ensures Compare(a, b) == 0 <==> SameNumbers(a, b) && a.pre == b.pre
  {
    IdentifiersAre(a.pre, b.pre);
    IdentifiersAre(b.pre, a.pre);
    PrecedenceIsTotalPreorder(a, b, a);
  }

  /** A sorted list has no version after a lower one. */
  lemma SortedIsNewestFirst<T>(key: T -> Version, s: seq<T>, i: nat, j: nat)
    requires i < j < |s|
    ensures !Newer(key(SortDescending(key, s)[j]), key(SortDescending(key, s)[i]))
  {
    var r := SortDescending(key, s);
    SortIsDescending(key, s);
    ComparesPrecedence(key(r[i]), key(r[j]));
    assert Compare(key(r[i]), key(r[j])) >= 0;
  }
}
