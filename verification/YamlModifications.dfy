/** The modifications of an upgraded release, replayed on the text of its values. */
module YamlModifications {
  import opened Prelude
  import opened Text
  import opened YamlPath
  import opened YamlPatch

  /** Without a value the modification is a removal. */
  datatype Modification = Modification(path: string, value: Option<Node>)

  function ApplyOne(m: Modification, values: Doc): Option<Doc> {
    if m.value.None? then DeleteValue(values, m.path) else SetValue(values, m.path, m.value.value)
  }

  function Replay(mods: seq<Modification>, values: Doc): Option<Doc> {
    if mods == [] then Some(values)
    else
      var r := ApplyOne(mods[0], values);
      if r.None? then None else Replay(mods[1..], r.value)
  }

  method ApplyModifications(mods: seq<Modification>, values: Doc) returns (r: Option<Doc>)
    ensures r == Replay(mods, values)
  {
    var current := values;
    for i := 0 to |mods|
      invariant Replay(mods, values) == Replay(mods[i..], current)
    {
      var next := ApplyOne(mods[i], current);
      if next.None? {
        return None;
      }
      current := next.value;
    }
    return Some(current);
  }

  // ------------------------------------------------------------- a document in place

  class YamlDocument {
    var contents: Doc

    constructor (contents: Doc)
      ensures this.contents == contents
    {
      this.contents := contents;
    }

    /** A failure leaves the document as it was. */
    method SetPathValue(path: string, newValue: Node) returns (ok: bool)
      modifies this
      ensures ok == SetValue(old(contents), path, newValue).Some?
      ensures contents == if ok then SetValue(old(contents), path, newValue).value else old(contents)
    {
      if contents.Empty? {
        contents := Doc(Nest(Split(WithoutSlash(path), '.'), newValue));
        return true;
      }
      var split, value := SplitPathBySlash(path), newValue;
      var parents := split[..|split| - 1];
      if GetIn(contents.root, parents).None? {
        var definedPath := GetDefinedPath(parents, contents.root);
        value := Rest(split[|definedPath| + 1..], newValue);
        split := split[..|definedPath| + 1];
      } else {
        assert split[..|split|] == split;
      }
      var r := SetIn(contents.root, split, value);
      if r.None? {
        return false;
      }
      contents := Doc(r.value);
      return true;
    }

    method DeletePath(path: string) returns (ok: bool)
      modifies this
      ensures ok == DeleteValue(old(contents), path).Some?
      ensures contents == if ok then DeleteValue(old(contents), path).value else old(contents)
    {
      if contents.Empty? {
        return true;
      }
      var split := SplitPathBySlash(path);
      var parents := split[..|split| - 1];
      if GetIn(contents.root, parents).None? {
        var definedPath := GetDefinedPath(parents, contents.root);
        split := split[..|definedPath| + 1];
      } else {
        assert split[..|split|] == split;
      }
      var r := DeleteIn(contents.root, split);
      if r.None? {
        return false;
      }
      contents := if r.value.Mapping? && r.value.entries != map[] then Doc(r.value) else Empty;
      return true;
    }
  }

  // ------------------------------------------------------------- one modification

  /** Setting gets through just when the path can be reached; the value is then read back and
      every path neither above nor below is as it was. */
  lemma SetThenGet(root: Node, parts: Parts, v: Node, q: Parts)
    requires parts != [] && NoSlash(parts) && NoDot(parts)
    ensures SetValue(Doc(root), PathOf(parts), v).Some? <==> Reaches(root, parts)
    ensures Reaches(root, parts) ==>
      var d := SetValue(Doc(root), PathOf(parts), v).value;
      d.Doc? && GetIn(d.root, parts) == Some(v) && (Apart(parts, q) ==> GetIn(d.root, q) == GetIn(root, q))
  {
    SplitPathOf(parts);
    SetPartsIsChange(root, parts, v);
    if Reaches(root, parts) {
      ChangedIsRead(root, parts, Some(v));
      if Apart(parts, q) {
        OthersAreKept(root, parts, Some(v), q);
      }
    }
  }

  lemma DeleteThenGet(root: Node, parts: Parts, q: Parts)
    requires parts != [] && NoSlash(parts)
    ensures DeleteValue(Doc(root), PathOf(parts)).Some? <==> Reaches(root, parts)
    ensures Reaches(root, parts) ==>
      var d := DeleteValue(Doc(root), PathOf(parts)).value;
      && (d.Empty? <==> Change(root, parts, None) == NOTHING)
      && (d.Doc? ==> GetIn(d.root, parts) == None && (Apart(parts, q) ==> GetIn(d.root, q) == GetIn(root, q)))
  {
    SplitPathOf(parts);
    DeletePartsIsChange(root, parts);
    if Reaches(root, parts) {
      ChangedIsRead(root, parts, None);
      if Apart(parts, q) {
        OthersAreKept(root, parts, None, q);
      }
    }
  }

  /** In an empty document the whole path becomes one key, so that only a path of one part
      is read back. */
  lemma SetInEmptyDocument(parts: Parts, v: Node)
    requires parts != [] && NoDot(parts)
    ensures SetValue(Empty, PathOf(parts), v) == Some(Doc(LiteralKey(parts, v)))
    ensures GetIn(LiteralKey(parts, v), parts) == Some(v) <==> |parts| == 1
  {
    var key := Join(parts, "/");
    assert WithoutSlash(PathOf(parts)) == key;
    NoDotInJoin(parts);
    SplitOne(key, '.');
    NestOne(key, v);
    LiteralKeyRead(parts, v);
  }

  function LiteralKey(parts: Parts, v: Node): Node {
    Mapping(map[Join(parts, "/") := v])
  }

  lemma NestOne(key: string, v: Node)
    ensures Nest([key], v) == Mapping(map[key := v])
  {
    assert [key][1..] == [];
  }

  lemma LiteralKeyRead(parts: Parts, v: Node)
    requires parts != []
    ensures GetIn(LiteralKey(parts, v), parts) == Some(v) <==> |parts| == 1
  {
    var key := Join(parts, "/");
    if |parts| == 1 {
      assert parts[1..] == [];
    } else {
      assert key == parts[0] + "/" + Join(parts[1..], "/");
      assert |key| > |parts[0]|;
    }
  }

  lemma {:induction false} NoDotInJoin(parts: Parts)
    requires NoDot(parts)
    ensures '.' !in Join(parts, "/")
  {
    if |parts| > 1 {
      NoDotInJoin(parts[1..]);
    }
  }

  // ------------------------------------------------------------- all modifications

  ghost predicate Plain(edits: seq<Edit>) {
    forall i :: 0 <= i < |edits| ==> edits[i].parts != [] && NoSlash(edits[i].parts) && NoDot(edits[i].parts)
  }

  predicate KeepsKey(n: Node, e: Edit, k: string)
    requires n.Mapping? && k in n.entries
  {
    e.value.None? && e.parts != [] && e.parts[0] == k ==> |e.parts| > 1 && n.entries[k].Mapping?
  }

  /** A key at the top that no removal takes away. */
  ghost predicate Stays(n: Node, edits: seq<Edit>, k: string) {
    && n.Mapping? && k in n.entries
    && (forall i :: 0 <= i < |edits| ==> KeepsKey(n, edits[i], k))
  }

  ghost predicate OnlySets(edits: seq<Edit>) {
    forall i :: 0 <= i < |edits| ==> edits[i].value.Some?
  }

  /** The document never becomes empty. */
  ghost predicate NeverEmpty(n: Node, edits: seq<Edit>) {
    OnlySets(edits) || exists k :: Stays(n, edits, k)
  }

  ghost predicate Ready(n: Node, edits: seq<Edit>) {
    Plain(edits) && AllReach(n, edits) && Unrelated(edits) && NeverEmpty(n, edits)
  }

  function ToModification(e: Edit): Modification {
    Modification(PathOf(e.parts), e.value)
  }

  lemma KeyStays(n: Node, p: Parts, v: Option<Node>, k: string)
    requires p != [] && Reaches(n, p) && n.Mapping? && k in n.entries
    requires p[0] == k && v.None? ==> |p| > 1 && n.entries[k].Mapping?
    ensures var r := Change(n, p, v);
      k in r.entries && (n.entries[k].Mapping? && (p[0] != k || |p| > 1) ==> r.entries[k].Mapping?)
  {
    if p[0] != k {
      FirstKeyOnly(n, p, v, k);
    }
  }

  lemma StillStays(n: Node, edits: seq<Edit>, k: string)
    requires edits != [] && AllReach(n, edits) && Unrelated(edits) && Stays(n, edits, k)
    ensures edits[0].parts != [] && Reaches(n, edits[0].parts)
    ensures Stays(Change(n, edits[0].parts, edits[0].value), edits[1..], k)
  {
    StillReach(n, edits);
    var e := edits[0];
    var r := Change(n, e.parts, e.value);
    assert KeepsKey(n, e, k);
    KeyStays(n, e.parts, e.value, k);
    forall i | 0 <= i < |edits[1..]| ensures KeepsKey(r, edits[1..][i], k) {
      assert edits[1..][i] == edits[i + 1] && KeepsKey(n, edits[i + 1], k);
      assert Apart(e.parts, edits[i + 1].parts);
      ApartTail(e.parts, edits[i + 1].parts);
    }
  }

  lemma StillReady(n: Node, edits: seq<Edit>)
    requires edits != [] && Ready(n, edits)
    ensures edits[0].parts != [] && Reaches(n, edits[0].parts) && !Empties(n, edits[0])
    ensures Ready(Change(n, edits[0].parts, edits[0].value), edits[1..])
  {
    var e := edits[0];
    StillReach(n, edits);
    if !OnlySets(edits) {
      var k :| Stays(n, edits, k);
      StillStays(n, edits, k);
      assert KeepsKey(n, e, k);
      KeyStays(n, e.parts, e.value, k);
    }
  }

  /** A removal that leaves no entries. */
  predicate Empties(n: Node, e: Edit)
    requires e.parts != []
  {
    e.value.None? && Reaches(n, e.parts) && Change(n, e.parts, None) == NOTHING
  }

  /** One modification of a document with contents. */
  lemma OneStepIs(n: Node, e: Edit)
    requires e.parts != [] && NoSlash(e.parts) && NoDot(e.parts)
    ensures ApplyOne(ToModification(e), Doc(n))
      == if !Reaches(n, e.parts) then None
         else if Empties(n, e) then Some(Empty)
         else Some(Doc(Change(n, e.parts, e.value)))
  {
    SplitPathOf(e.parts);
    if e.value.Some? {
      SetPartsIsChange(n, e.parts, e.value.value);
    } else {
      DeletePartsIsChange(n, e.parts);
    }
  }

  /** Replaying the modifications is applying the changes to the tree, one by one. */
  lemma {:induction false} ReplayIsApplyAll(n: Node, edits: seq<Edit>)
    requires Ready(n, edits)
    ensures Replay(Map(ToModification, edits), Doc(n)) == Some(Doc(ApplyAll(n, edits)))
    decreases |edits|
  {
    if edits != [] {
      StillReady(n, edits);
      OneStepIs(n, edits[0]);
      ReplayIsApplyAll(Change(n, edits[0].parts, edits[0].value), edits[1..]);
    }
  }

  lemma {:induction false} TwiceInPermutation(s: seq<Edit>, t: seq<Edit>, i: nat, j: nat)
    requires multiset(s) == multiset(t) && i < j < |t| && t[i] == t[j]
    ensures exists k, l :: 0 <= k < l < |s| && s[k] == s[l] == t[i]
  {
    var e := t[i];
    assert t == t[..j] + t[j..];
    assert t[..j][i] == e && t[j..][0] == e;
    assert multiset(t)[e] == multiset(t[..j])[e] + multiset(t[j..])[e] >= 2;
    assert e in multiset(s);
    var k :| 0 <= k < |s| && s[k] == e;
    assert s == s[..k] + [e] + s[k + 1..];
    assert multiset(s)[e] == multiset(s[..k])[e] + 1 + multiset(s[k + 1..])[e];
    if e in s[..k] {
      var l :| 0 <= l < k && s[l] == e;
    } else {
      assert e in s[k + 1..];
      var l :| 0 <= l < |s[k + 1..]| && s[k + 1..][l] == e;
      assert s[k + 1 + l] == e;
    }
  }

  lemma PermutedAre(s: seq<Edit>, t: seq<Edit>)
    requires multiset(s) == multiset(t)
    ensures forall i :: 0 <= i < |t| ==> t[i] in s
  {
    forall i | 0 <= i < |t| ensures t[i] in s {
      assert t[i] in multiset(s);
    }
  }

  lemma PermutedReady(n: Node, s: seq<Edit>, t: seq<Edit>)
    requires Ready(n, s) && multiset(s) == multiset(t)
    ensures Ready(n, t)
  {
    PermutedAre(s, t);
    forall i, j | 0 <= i < j < |t| ensures Apart(t[i].parts, t[j].parts) {
      if t[i] == t[j] {
        TwiceInPermutation(s, t, i, j);
      }
      var a :| 0 <= a < |s| && s[a] == t[i];
      var b :| 0 <= b < |s| && s[b] == t[j];
    }
    if !OnlySets(s) {
      var k :| Stays(n, s, k);
      assert Stays(n, t, k);
    }
  }

  /** Modifications of unrelated paths give the same values in every order, and what each
      of them says is then read at its path. */
  lemma ModificationsInAnyOrder(n: Node, s: seq<Edit>, t: seq<Edit>)
    requires Ready(n, s) && multiset(s) == multiset(t)
    ensures Replay(Map(ToModification, s), Doc(n)) == Replay(Map(ToModification, t), Doc(n))
    ensures var d := Replay(Map(ToModification, s), Doc(n));
      d.Some? && d.value.Doc? && forall i :: 0 <= i < |s| ==> GetIn(d.value.root, s[i].parts) == s[i].value
  {
    PermutedReady(n, s, t);
    ReplayIsApplyAll(n, s);
    ReplayIsApplyAll(n, t);
    AnyOrder(n, s, t);
    forall i | 0 <= i < |s| ensures GetIn(ApplyAll(n, s), s[i].parts) == s[i].value {
      ApplyAllMeaning(n, s, s[i].parts);
    }
  }

  // ------------------------------------------------------------- when the order matters

  /** A path that is reached has no null as its immediate parent. */
  lemma {:induction false} ReachedHasNoNull(n: Node, p: Parts, q: Parts)
    requires q != [] && Reaches(n, q)
    ensures !NullOnTheWay(n, p, q)
    decreases |q|
  {
    if NullOnTheWay(n, p, q) {
      var parent := q[..|q| - 1];
      assert parent[0] == q[0] && p[0] == q[0];
      if |q| == 2 {
        NullHere(n, p, q);
      } else {
        NullBelow(n, p, q);
        ReachedHasNoNull(n.entries[q[0]], p[1..], q[1..]);
      }
    }
  }

  lemma ReplayTwo(m1: Modification, m2: Modification, d: Doc)
    ensures Replay([m1, m2], d) == var r := ApplyOne(m1, d); if r.None? then None else ApplyOne(m2, r.value)
  {
    assert [m1, m2][1..] == [m2] && [m2][1..] == [];
    var r := ApplyOne(m1, d);
    if r.Some? {
      assert Replay([m2], r.value) == ApplyOne(m2, r.value);
    }
  }

  /** Two modifications, one after the other: where the first leaves nothing, setting the second
      makes one key of its path. */
  function TwoSteps(n: Node, d: Edit, e: Edit): Option<Doc>
    requires d.parts != [] && e.parts != []
  {
    if !Reaches(n, d.parts) then None
    else if Empties(n, d) then Some(if e.value.None? then Empty else Doc(LiteralKey(e.parts, e.value.value)))
    else
      var m := Change(n, d.parts, d.value);
      if !Reaches(m, e.parts) then None
      else if Empties(m, e) then Some(Empty)
      else Some(Doc(Change(m, e.parts, e.value)))
  }

  lemma TwoStepsAre(n: Node, d: Edit, e: Edit)
    requires Plain([d, e])
    ensures d.parts != [] && e.parts != []
    ensures Replay([ToModification(d), ToModification(e)], Doc(n)) == TwoSteps(n, d, e)
  {
    assert [d, e][0] == d && [d, e][1] == e;
    ReplayTwo(ToModification(d), ToModification(e), Doc(n));
    OneStepIs(n, d);
    if Reaches(n, d.parts) {
      if !Empties(n, d) {
        OneStepIs(Change(n, d.parts, d.value), e);
      } else if e.value.Some? {
        SetInEmptyDocument(e.parts, e.value.value);
      }
    }
  }

  /** What a removal that empties the document leaves of another path: all of it, unless the
      immediate parent of that path is an explicit null that the removal leads through. */
  lemma EmptiedIsReached(n: Node, d: Edit, q: Parts)
    requires d.parts != [] && q != [] && Apart(d.parts, q) && Empties(n, d)
    ensures Reaches(n, q) || NullOnTheWay(n, d.parts, q)
  {
    ApartTail(d.parts, q);
    ReachedAfterIff(n, d.parts, None, q);
    assert Reaches(NOTHING, q);
  }

  lemma LiteralIsNest(parts: Parts, v: Node)
    requires parts != []
    ensures LiteralKey(parts, v) == Nest(parts, v) <==> |parts| == 1
  {
    LiteralKeyRead(parts, v);
    ChangeNothing(parts, v);
    ChangedIsRead(NOTHING, parts, Some(v));
    if |parts| == 1 {
      NestOne(parts[0], v);
      assert parts == [parts[0]];
    }
  }

  /** Emptying the document on the way changes the outcome: the path set afterwards becomes
      one key, and set before it is a nested mapping. */
  lemma EmptyingNeedsOrder(n: Node, d: Edit, e: Edit)
    requires Plain([d, e]) && Apart(d.parts, e.parts)
    requires d.parts != [] && Empties(n, d) && e.value.Some? && e.parts != [] && Reaches(n, e.parts)
    ensures Replay([ToModification(d), ToModification(e)], Doc(n)) == Some(Doc(LiteralKey(e.parts, e.value.value)))
    ensures Replay([ToModification(e), ToModification(d)], Doc(n)) == Some(Doc(Nest(e.parts, e.value.value)))
  {
    assert [d, e][0] == [e, d][1] == d && [d, e][1] == [e, d][0] == e;
    TwoStepsAre(n, d, e);
    TwoStepsAre(n, e, d);
    ReachedAfterIff(n, e.parts, e.value, d.parts);
    ChangesCommute(n, d.parts, d.value, e.parts, e.value);
    ChangeNothing(e.parts, e.value.value);
    ChangedIsRead(NOTHING, e.parts, e.value);
  }

  lemma BothReach(n: Node, d: Edit, e: Edit)
    requires d.parts != [] && e.parts != [] && Apart(d.parts, e.parts)
    requires Reaches(n, d.parts) && Reaches(n, e.parts) && !Empties(n, d) && !Empties(n, e)
    ensures TwoSteps(n, d, e) == TwoSteps(n, e, d)
  {
    ReachedAfterIff(n, d.parts, d.value, e.parts);
    ReachedAfterIff(n, e.parts, e.value, d.parts);
    ChangesCommute(n, d.parts, d.value, e.parts, e.value);
    var r := Change(Change(n, d.parts, d.value), e.parts, e.value);
    if r == NOTHING {
      SetsAreThere(Change(n, d.parts, d.value), e);
      SetsAreThere(Change(n, e.parts, e.value), d);
    }
  }

  lemma SetsAreThere(n: Node, e: Edit)
    requires e.parts != [] && Reaches(n, e.parts)
    ensures Change(n, e.parts, e.value) == NOTHING ==> e.value.None?
  {
    ChangedIsRead(n, e.parts, e.value);
  }

  lemma OneEmpties(n: Node, d: Edit, e: Edit)
    requires Plain([d, e]) && Apart(d.parts, e.parts) && d.parts != [] && e.parts != []
    requires Empties(n, d) && Reaches(n, e.parts)
    ensures TwoSteps(n, d, e) != TwoSteps(n, e, d) <==> e.value.Some? && |e.parts| > 1
  {
    assert [d, e][0] == [e, d][1] == d && [d, e][1] == [e, d][0] == e;
    if e.value.Some? {
      EmptyingNeedsOrder(n, d, e);
      TwoStepsAre(n, d, e);
      TwoStepsAre(n, e, d);
      LiteralIsNest(e.parts, e.value.value);
    } else {
      ReachedAfterIff(n, e.parts, None, d.parts);
      ChangesCommute(n, d.parts, None, e.parts, None);
      RemoveFromNothing(e.parts);
    }
  }

  /** What `d` does first changes what becomes of `e`. */
  predicate Disturbs(n: Node, d: Edit, e: Edit)
    requires d.parts != [] && e.parts != []
  {
    || (Reaches(n, d.parts) && NullOnTheWay(n, d.parts, e.parts))
    || (Empties(n, d) && e.value.Some? && |e.parts| > 1)
  }

  lemma BothReachIff(n: Node, d: Edit, e: Edit)
    requires Plain([d, e]) && Apart(d.parts, e.parts) && d.parts != [] && e.parts != []
    requires Reaches(n, d.parts) && Reaches(n, e.parts)
    ensures TwoSteps(n, d, e) != TwoSteps(n, e, d) <==> Disturbs(n, d, e) || Disturbs(n, e, d)
  {
    assert [d, e][0] == [e, d][1] == d && [d, e][1] == [e, d][0] == e;
    ReachedHasNoNull(n, d.parts, e.parts);
    ReachedHasNoNull(n, e.parts, d.parts);
    if Empties(n, d) {
      OneEmpties(n, d, e);
    } else if Empties(n, e) {
      OneEmpties(n, e, d);
    } else {
      BothReach(n, d, e);
    }
  }

  lemma OneReaches(n: Node, d: Edit, e: Edit)
    requires d.parts != [] && e.parts != [] && Apart(d.parts, e.parts) && !Reaches(n, e.parts)
    ensures TwoSteps(n, e, d).None? && (TwoSteps(n, d, e).Some? <==> Disturbs(n, d, e))
  {
    if Reaches(n, d.parts) {
      ReachedAfterIff(n, d.parts, d.value, e.parts);
      if Empties(n, d) {
        EmptiedIsReached(n, d, e.parts);
      }
    }
  }

  /** The order of two modifications of unrelated paths matters just when one of them gets
      through and leads through the explicit null that is the immediate parent of the other,
      or is a removal that empties the document while the other sets a path of several parts. */
  lemma OrderMattersIff(n: Node, d: Edit, e: Edit)
    requires Plain([d, e]) && Apart(d.parts, e.parts)
    ensures d.parts != [] && e.parts != []
    ensures
      Replay([ToModification(d), ToModification(e)], Doc(n)) != Replay([ToModification(e), ToModification(d)], Doc(n))
      <==> Disturbs(n, d, e) || Disturbs(n, e, d)
  {
    assert [d, e][0] == [e, d][1] == d && [d, e][1] == [e, d][0] == e;
    TwoStepsAre(n, d, e);
    TwoStepsAre(n, e, d);
    if Reaches(n, d.parts) && Reaches(n, e.parts) {
      BothReachIff(n, d, e);
    } else if Reaches(n, d.parts) {
      OneReaches(n, d, e);
    } else if Reaches(n, e.parts) {
      OneReaches(n, e, d);
    }
  }

  // ------------------------------------------------------------- from an empty document

  lemma JoinHasSlash(parts: Parts)
    requires |parts| > 1
    ensures '/' in Join(parts, "/")
  {
    assert Join(parts, "/") == parts[0] + "/" + Join(parts[1..], "/");
    assert Join(parts, "/")[|parts[0]|] == '/';
  }

  /** The one key that an empty document gets is no key of an unrelated path. */
  lemma LiteralIsApart(p: Parts, q: Parts)
    requires NoSlash(p) && NoSlash(q) && Apart(p, q)
    ensures p != [] && q != [] && Join(p, "/") != q[0] && Join(p, "/") != Join(q, "/")
  {
    ApartTail(p, q);
    SplitPathOf(p);
    SplitPathOf(q);
    if |p| == 1 {
      assert Join(p, "/") == p[0];
    } else {
      JoinHasSlash(p);
      assert '/' !in q[0];
    }
  }

  /** Two modifications of an empty document. */
  function FromEmpty(d: Edit, e: Edit): Doc
    requires d.parts != [] && e.parts != []
  {
    if d.value.None? then if e.value.None? then Empty else Doc(LiteralKey(e.parts, e.value.value))
    else if e.value.None? then Doc(LiteralKey(d.parts, d.value.value))
    else Doc(Mapping(map[Join(d.parts, "/") := d.value.value, e.parts[0] := Nest(e.parts[1..], e.value.value)]))
  }

  lemma FromEmptyAre(d: Edit, e: Edit)
    requires Plain([d, e]) && Apart(d.parts, e.parts)
    ensures d.parts != [] && e.parts != []
    ensures Replay([ToModification(d), ToModification(e)], Empty) == Some(FromEmpty(d, e))
  {
    assert [d, e][0] == d && [d, e][1] == e;
    ReplayTwo(ToModification(d), ToModification(e), Empty);
    if d.value.None? {
      if e.value.Some? {
        SetInEmptyDocument(e.parts, e.value.value);
      }
    } else {
      var root := LiteralKey(d.parts, d.value.value);
      SetInEmptyDocument(d.parts, d.value.value);
      LiteralIsApart(d.parts, e.parts);
      OneStepIs(root, e);
      if e.value.Some? {
        if |e.parts| > 1 {
          ChangeNothing(e.parts[1..], e.value.value);
        } else {
          assert e.parts[1..] == [];
        }
      } else {
        assert root.entries - {e.parts[0]} == root.entries;
        assert Change(root, e.parts, None) == root && Join(d.parts, "/") in root.entries;
      }
    }
  }

  /** From an empty document the order matters just when both set a value and one of the paths
      has several parts. */
  lemma OrderMattersInEmptyIff(d: Edit, e: Edit)
    requires Plain([d, e]) && Apart(d.parts, e.parts)
    ensures
      Replay([ToModification(d), ToModification(e)], Empty) != Replay([ToModification(e), ToModification(d)], Empty)
      <==> d.value.Some? && e.value.Some? && (|d.parts| > 1 || |e.parts| > 1)
  {
    assert [d, e][0] == [e, d][1] == d && [d, e][1] == [e, d][0] == e;
    FromEmptyAre(d, e);
    FromEmptyAre(e, d);
    if d.value.Some? && e.value.Some? {
      SetsFromEmpty(d, e);
      SetsFromEmpty(e, d);
      if |d.parts| == |e.parts| == 1 {
        assert d.parts[1..] == e.parts[1..] == [];
        assert Join(d.parts, "/") == d.parts[0] && Join(e.parts, "/") == e.parts[0];
        LiteralIsApart(d.parts, e.parts);
        assert FromEmpty(d, e).root.entries == FromEmpty(e, d).root.entries;
      }
    }
  }

  lemma SetsFromEmpty(d: Edit, e: Edit)
    requires Plain([d, e]) && Apart(d.parts, e.parts) && d.value.Some? && e.value.Some?
    requires d.parts != [] && e.parts != []
    ensures |d.parts| > 1 ==> FromEmpty(d, e) != FromEmpty(e, d)
  {
    assert [d, e][0] == d && [d, e][1] == e;
    if |d.parts| > 1 {
      LiteralIsApart(d.parts, e.parts);
      JoinHasSlash(d.parts);
      assert Join(d.parts, "/") != d.parts[0];
      assert Join(d.parts, "/") in FromEmpty(d, e).root.entries;
      assert Join(d.parts, "/") !in FromEmpty(e, d).root.entries;
    }
  }
}
