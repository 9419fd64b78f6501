/** Reading, setting and deleting values of a YAML document by path, and applying a list of
    modifications, on document trees. */
module YamlPath {
  import opened Prelude
  import opened Text

  /** A sequence behaves as a leaf for the paths considered here, whose parts are no indices. */
  datatype Node = Null | Leaf(value: string) | Mapping(entries: map<string, Node>)

  /** A text without contents is no document root at all. */
  datatype Doc = Empty | Doc(root: Node)

  type Parts = seq<string>

  // ------------------------------------------------------------- the YAML library

  /** None is `undefined`, which an explicit null is not. */
  function GetIn(n: Node, path: Parts): Option<Node> {
    if path == [] then Some(n)
    else if n.Mapping? && path[0] in n.entries then GetIn(n.entries[path[0]], path[1..])
    else None
  }

  /** `set({}, key, value)`, with the keys of a path split already. */
  function Nest(path: Parts, v: Node): Node {
    if path == [] then v else Mapping(map[path[0] := Nest(path[1..], v)])
  }

  /** None is the error of a parent that is no collection. */
  function SetIn(n: Node, path: Parts, v: Node): Option<Node>
    requires path != []
  {
    if !n.Mapping? then None
    else if |path| == 1 then Some(Mapping(n.entries[path[0] := v]))
    else if path[0] !in n.entries then Some(Mapping(n.entries[path[0] := Nest(path[1..], v)]))
    else
      var child := SetIn(n.entries[path[0]], path[1..], v);
      if child.None? then None else Some(Mapping(n.entries[path[0] := child.value]))
  }

  lemma {:induction false} NestIsRead(path: Parts, v: Node)
    ensures GetIn(Nest(path, v), path) == Some(v)
  {
    if path != [] {
      NestIsRead(path[1..], v);
    }
  }

  /** What the library sets it reads back, for any path. */
  lemma {:induction false} SetInIsRead(n: Node, path: Parts, v: Node)
    requires path != [] && SetIn(n, path, v).Some?
    ensures GetIn(SetIn(n, path, v).value, path) == Some(v)
    decreases |path|
  {
    if |path| > 1 {
      if path[0] in n.entries {
        SetInIsRead(n.entries[path[0]], path[1..], v);
      } else {
        NestIsRead(path[1..], v);
      }
    } else {
      assert path[1..] == [];
    }
  }

  function DeleteIn(n: Node, path: Parts): Option<Node>
    requires path != []
  {
    if !n.Mapping? then None
    else if |path| == 1 then Some(Mapping(n.entries - {path[0]}))
    else if path[0] !in n.entries then None
    else
      var child := DeleteIn(n.entries[path[0]], path[1..]);
      if child.None? then None else Some(Mapping(n.entries[path[0] := child.value]))
  }

  // ------------------------------------------------------------- paths

  function WithoutSlash(path: string): string {
    if path != "" && path[0] == '/' then path[1..] else path
  }

  function SplitPathBySlash(path: string): (r: Parts)
    ensures r != []
  {
    Split(WithoutSlash(path), '/')
  }

  function PathOf(parts: Parts): string {
    "/" + Join(parts, "/")
  }

  ghost predicate NoSlash(parts: Parts) {
    forall i :: 0 <= i < |parts| ==> '/' !in parts[i]
  }

  ghost predicate NoDot(parts: Parts) {
    forall i :: 0 <= i < |parts| ==> '.' !in parts[i]
  }

  lemma SplitPathOf(parts: Parts)
    requires parts != [] && NoSlash(parts)
    ensures SplitPathBySlash(PathOf(parts)) == parts
  {
    assert WithoutSlash(PathOf(parts)) == Join(parts, "/");
    SplitJoin(parts, '/');
  }

  /** How many leading parts lead to something that is neither undefined nor null. */
  function Depth(n: Node, path: Parts): (d: nat)
    ensures d <= |path|
  {
    if path != [] && n.Mapping? && path[0] in n.entries && n.entries[path[0]] != Null
    then 1 + Depth(n.entries[path[0]], path[1..])
    else 0
  }

  lemma {:induction false} DepthIsDefined(n: Node, path: Parts, i: nat)
    requires 0 < i <= |path|
    ensures i <= Depth(n, path) ==> GetIn(n, path[..i]).Some? && GetIn(n, path[..i]).value != Null
    ensures i == Depth(n, path) + 1 ==> GetIn(n, path[..i]).None? || GetIn(n, path[..i]).value == Null
  {
    assert path[..i][0] == path[0] && path[..i][1..] == path[1..][..i - 1];
    if i > 1 && n.Mapping? && path[0] in n.entries {
      DepthIsDefined(n.entries[path[0]], path[1..], i - 1);
    }
  }

  method GetDefinedPath(parents: Parts, n: Node) returns (currentPath: Parts)
    ensures currentPath == parents[..Depth(n, parents)]
  {
    currentPath := [];
    var foundUndefined := false;
    for i := 0 to |parents|
      invariant !foundUndefined ==> currentPath == parents[..i] && i <= Depth(n, parents)
      invariant foundUndefined ==> currentPath == parents[..Depth(n, parents)]
    {
      if !foundUndefined {
        var pathToEvaluate := currentPath + [parents[i]];
        assert pathToEvaluate == parents[..i + 1];
        DepthIsDefined(n, parents, i + 1);
        var elem := GetIn(n, pathToEvaluate);
        if elem.None? || elem.value == Null {
          foundUndefined := true;
        } else {
          currentPath := pathToEvaluate;
        }
      }
    }
  }

  /** How many parts of a path are set: all, or those up to the first missing parent. */
  function Target(n: Node, parts: Parts): (t: nat)
    requires parts != []
    ensures 0 < t <= |parts|
  {
    var parents := parts[..|parts| - 1];
    if GetIn(n, parents).None? then Depth(n, parents) + 1 else |parts|
  }

  /** The rest of the path goes through a text in which '.' separates the keys. */
  function Rest(parts: Parts, v: Node): Node {
    if parts == [] then v else Nest(Split(Join(parts, "."), '.'), v)
  }

  lemma RestIsNest(parts: Parts, v: Node)
    requires NoDot(parts)
    ensures Rest(parts, v) == Nest(parts, v)
  {
    if parts != [] {
      SplitJoin(parts, '.');
    }
  }

  function SetParts(n: Node, parts: Parts, v: Node): Option<Node>
    requires parts != []
  {
    var t := Target(n, parts);
    SetIn(n, parts[..t], Rest(parts[t..], v))
  }

  function DeleteParts(n: Node, parts: Parts): Option<Node>
    requires parts != []
  {
    DeleteIn(n, parts[..Target(n, parts)])
  }

  function SetValue(doc: Doc, path: string, v: Node): Option<Doc> {
    if doc.Empty? then Some(Doc(Nest(Split(WithoutSlash(path), '.'), v)))
    else
      var r := SetParts(doc.root, SplitPathBySlash(path), v);
      if r.None? then None else Some(Doc(r.value))
  }

  /** A document left without entries becomes the empty text. */
  function DeleteValue(doc: Doc, path: string): Option<Doc> {
    if doc.Empty? then Some(Empty)
    else
      var r := DeleteParts(doc.root, SplitPathBySlash(path));
      if r.None? then None
      else if r.value.Mapping? && r.value.entries != map[] then Some(Doc(r.value))
      else Some(Empty)
  }

  // ------------------------------------------------------------- the meaning of a change

  /** When a change gets through: mappings along the path, a null only if it is not the
      immediate parent. */
  predicate Reaches(n: Node, path: Parts)
    requires path != []
  {
    n.Mapping? && (|path| == 1 || path[0] !in n.entries
      || if n.entries[path[0]] == Null then |path| > 2 else Reaches(n.entries[path[0]], path[1..]))
  }

  const NOTHING := Mapping(map[])

  function Child(n: Node, k: string): Node
    requires n.Mapping?
  {
    if k in n.entries && n.entries[k] != Null then n.entries[k] else NOTHING
  }

  /** Puts a value at a path, or takes it away. */
  function Change(n: Node, path: Parts, v: Option<Node>): (r: Node)
    requires path != [] && Reaches(n, path)
    ensures r.Mapping?
    decreases |path|
  {
    var k := path[0];
    if |path| == 1 then
      Mapping(if v.Some? then n.entries[k := v.value] else n.entries - {k})
    else if v.None? && (k !in n.entries || n.entries[k] == Null) then
      Mapping(n.entries - {k})
    else
      Mapping(n.entries[k := Change(Child(n, k), path[1..], v)])
  }

  lemma {:induction false} ChangeNothing(path: Parts, v: Node)
    requires path != []
    ensures Change(NOTHING, path, Some(v)) == Nest(path, v)
    decreases |path|
  {
    if |path| > 1 {
      ChangeNothing(path[1..], v);
    }
  }

  lemma TargetStep(n: Node, parts: Parts)
    requires |parts| > 1 && n.Mapping? && parts[0] in n.entries && n.entries[parts[0]] != Null
    requires |parts| > 2 || n.entries[parts[0]].Mapping?
    ensures Target(n, parts) == 1 + Target(n.entries[parts[0]], parts[1..])
  {
    assert parts[..|parts| - 1][1..] == parts[1..][..|parts| - 2];
  }

  lemma TargetAtGap(n: Node, parts: Parts)
    requires |parts| > 1 && n.Mapping? && (parts[0] !in n.entries || n.entries[parts[0]] == Null)
    ensures Target(n, parts) == if parts[0] in n.entries && |parts| == 2 then 2 else 1
  {
    var parents := parts[..|parts| - 1];
    if parts[0] in n.entries {
      BelowPlain(n, parents);
    }
  }

  lemma TargetAtLeaf(n: Node, parts: Parts)
    requires |parts| > 1 && n.Mapping? && parts[0] in n.entries && n.entries[parts[0]].Leaf?
    ensures Target(n, parts) == 2
  {
    BelowPlain(n, parts[..|parts| - 1]);
  }

  /** Nothing is defined below a leaf or a null. */
  lemma BelowPlain(n: Node, path: Parts)
    requires path != [] && n.Mapping? && path[0] in n.entries && !n.entries[path[0]].Mapping?
    ensures GetIn(n, path) == if |path| == 1 then Some(n.entries[path[0]]) else None
    ensures Depth(n, path) == if n.entries[path[0]] == Null then 0 else 1
  {
    var child, rest := n.entries[path[0]], path[1..];
    assert GetIn(child, rest) == if rest == [] then Some(child) else None;
    assert Depth(child, rest) == 0;
  }

  lemma Blocked(n: Node, path: Parts, v: Node)
    requires |path| == 2 && n.Mapping? && path[0] in n.entries && !n.entries[path[0]].Mapping?
    ensures SetIn(n, path, v).None? && DeleteIn(n, path).None?
  {
    assert SetIn(n.entries[path[0]], path[1..], v).None?;
    assert DeleteIn(n.entries[path[0]], path[1..]).None?;
  }

  lemma Slices(parts: Parts, t: nat)
    requires 1 < t <= |parts|
    ensures parts[..t] != [] && parts[..t][0] == parts[0] && parts[..t][1..] == parts[1..][..t - 1]
    ensures parts[t..] == parts[1..][t - 1..]
  {
  }

  /** The walk over the defined part of the path, and the nesting of what is missing, change
      the tree as the plain recursion does, and fail just when it cannot get through. */
  lemma {:induction false} SetPartsIsChange(n: Node, parts: Parts, v: Node)
    requires parts != [] && NoDot(parts)
    ensures SetParts(n, parts, v) == if Reaches(n, parts) then Some(Change(n, parts, Some(v))) else None
    decreases |parts|
  {
    var t := Target(n, parts);
    RestIsNest(parts[t..], v);
    if n.Mapping? && |parts| > 1 {
      var k := parts[0];
      var parents := parts[..|parts| - 1];
      if k in n.entries && n.entries[k].Mapping? {
        TargetStep(n, parts);
        Slices(parts, t);
        SetPartsIsChange(n.entries[k], parts[1..], v);
        RestIsNest(parts[1..][t - 1..], v);
      } else if k in n.entries && n.entries[k].Leaf? {
        TargetAtLeaf(n, parts);
        Blocked(n, parts[..t], Rest(parts[t..], v));
      } else {
        TargetAtGap(n, parts);
        if t == 2 {
          Blocked(n, parts[..t], Rest(parts[t..], v));
        }
        ChangeNothing(parts[1..], v);
      }
    }
  }

  lemma {:induction false} DeletePartsIsChange(n: Node, parts: Parts)
    requires parts != []
    ensures DeleteParts(n, parts) == if Reaches(n, parts) then Some(Change(n, parts, None)) else None
    decreases |parts|
  {
    var t := Target(n, parts);
    if n.Mapping? && |parts| > 1 {
      var k := parts[0];
      if k in n.entries && n.entries[k].Mapping? {
        TargetStep(n, parts);
        Slices(parts, t);
        DeletePartsIsChange(n.entries[k], parts[1..]);
      } else if k in n.entries && n.entries[k].Leaf? {
        TargetAtLeaf(n, parts);
        Blocked(n, parts[..t], Null);
      } else {
        TargetAtGap(n, parts);
        if t == 2 {
          Blocked(n, parts[..t], Null);
        }
      }
    }
  }
}
