/** The form parameters built from a values schema, and the update of one of them by key. */
module BasicForm {
  import opened Prelude
  import opened Text
  import opened YamlPath

  datatype Property = Property(name: string, schema: Schema)

  /** A schema with `properties`, be they none, is no leaf. */
  datatype Schema = Plain(byDefault: Option<Node>) | Object(properties: seq<Property>)

  /** `OwnParams` is a reference to the parameter's own list of parameters. */
  datatype Value = Blank | Given(value: Option<Node>) | OwnParams

  /** `Keyless` is an entry that holds a current value and nothing else. */
  datatype Param =
    | Field(key: string, deployed: Value, byDefault: Value, current: Value)
    | Section(key: string, current: Value, params: seq<Param>)
    | Keyless(current: Value)

  // ------------------------------------------------------------- building

  datatype Sources = Sources(current: Doc, package: Doc, deployed: Option<Doc>)

  function ValueAt(values: Doc, path: string): Option<Node> {
    if values.Empty? then None else GetIn(values.root, SplitPathBySlash(path))
  }

  function ValueOrDefault(values: Doc, path: string, byDefault: Option<Node>): Option<Node> {
    var v := ValueAt(values, path);
    if v.None? || v.value == Null then byDefault else v
  }

  function MakeParam(src: Sources, p: Property, parent: string): Param
    decreases p
  {
    var key := parent + p.name;
    match p.schema
    case Plain(byDefault) =>
      Field(key, if src.deployed.Some? then Given(ValueAt(src.deployed.value, key)) else Blank,
        Given(ValueOrDefault(src.package, key, byDefault)), Given(ValueOrDefault(src.current, key, byDefault)))
    case Object(_) => Section(key, Blank, RetrieveBasicFormParams(src, p.schema, key + "/"))
  }

  function RetrieveBasicFormParams(src: Sources, schema: Schema, parent: string): seq<Param>
    decreases schema
  {
    if schema.Plain? then []
    else
      seq(|schema.properties|, i requires 0 <= i < |schema.properties| => MakeParam(src, schema.properties[i], parent))
  }

  // ------------------------------------------------------------- updating

  predicate HasKey(p: Param, key: string) {
    !p.Keyless? && p.key == key
  }

  /** -1 if there is none. */
  function FindIndex(l: seq<Param>, key: string): (i: int)
    ensures -1 <= i < |l|
    ensures i >= 0 ==> HasKey(l[i], key)
    ensures i < 0 ==> forall j :: 0 <= j < |l| ==> !HasKey(l[j], key)
  {
    if l == [] then -1
    else if HasKey(l[0], key) then 0
    else
      var i := FindIndex(l[1..], key);
      if i < 0 then -1 else i + 1
  }

  function KeyPrefix(key: string, depth: nat): string {
    var parts := Split(key, '/');
    Join(parts[..Min(depth, |parts|)], "/")
  }

  /** The list of a group after the update: a key that is not there replaces the last entry. */
  function Updated(g: Param, key: string, v: Value, depth: nat): seq<Param>
    requires g.Section?
    decreases g
  {
    var l := g.params;
    var leaf := FindIndex(l, key);
    var index := FindIndex(l, KeyPrefix(key, depth));
    if leaf >= 0 then l[leaf := l[leaf].(current := v)]
    else if index >= 0 && l[index].Section? then
      l[index := Section(l[index].key, OwnParams, Updated(l[index], key, v, depth + 1))]
    else if l == [] then [Keyless(v)]
    else l[|l| - 1 := Keyless(v)]
  }

  function UpdateCurrentConfigByKey(params: seq<Param>, key: string, v: Value): seq<Param> {
    Updated(Section("", Blank, params), key, v, 1)
  }

  // ------------------------------------------------------------- well-keyed trees

  ghost predicate PlainNames(schema: Schema)
    decreases schema
  {
    schema.Object? ==>
      && (forall i :: 0 <= i < |schema.properties| ==>
            '/' !in schema.properties[i].name && PlainNames(schema.properties[i].schema))
      && (forall i, j :: 0 <= i < j < |schema.properties| ==> schema.properties[i].name != schema.properties[j].name)
  }

  /** The text of a path of names; at the top it is empty. */
  function KeyOf(path: seq<string>): string {
    Join(path, "/")
  }

  function Last(path: seq<string>): string
    requires path != []
  {
    path[|path| - 1]
  }

  /** The names on the way to a parameter, read off its key. */
  function NamesOf(p: Param): seq<string>
    requires !p.Keyless?
  {
    Split(p.key, '/')
  }

  /** `p` stands at `path`: so does its key say, and likewise for all below it. */
  ghost predicate KeyedAt(p: Param, path: seq<string>)
    decreases p
  {
    && !p.Keyless? && path != [] && NoSlash(path) && p.key == KeyOf(path)
    && (p.Section? ==> ChildrenKeyed(p, path))
  }

  ghost predicate ChildrenKeyed(g: Param, path: seq<string>)
    requires g.Section?
    decreases g, 0
  {
    && NoSlash(path)
    && (forall i :: 0 <= i < |g.params| ==> !g.params[i].Keyless? && NamesOf(g.params[i]) != [])
    && (forall i :: 0 <= i < |g.params| ==> KeyedAt(g.params[i], path + [Last(NamesOf(g.params[i]))]))
    && (forall i, j :: 0 <= i < j < |g.params| ==> g.params[i].key != g.params[j].key)
  }

  lemma {:induction false} JoinSnoc(path: seq<string>, name: string)
    ensures KeyOf(path + [name]) == (if path == [] then "" else KeyOf(path) + "/") + name
  {
    var t := path + [name];
    if path == [] {
      assert t == [name];
    } else {
      JoinSnoc(path[1..], name);
      assert t[1..] == path[1..] + [name];
      if |path| == 1 {
        assert path[1..] == [];
      }
    }
  }

  lemma NamesOfKey(path: seq<string>)
    requires path != [] && NoSlash(path)
    ensures Split(KeyOf(path), '/') == path
  {
    SplitJoin(path, '/');
  }

  function ParentText(path: seq<string>): string {
    if path == [] then "" else KeyOf(path) + "/"
  }

  /** What is built from a schema whose names have no '/' is keyed by the paths of names. */
  lemma {:induction false} BuiltIsKeyed(src: Sources, schema: Schema, path: seq<string>)
    requires schema.Object? && PlainNames(schema) && NoSlash(path)
    ensures ChildrenKeyed(Section(KeyOf(path), Blank, RetrieveBasicFormParams(src, schema, ParentText(path))), path)
    decreases schema
  {
    var g := Section(KeyOf(path), Blank, RetrieveBasicFormParams(src, schema, ParentText(path)));
    forall i | 0 <= i < |g.params|
      ensures !g.params[i].Keyless? && NamesOf(g.params[i]) == path + [schema.properties[i].name]
      ensures KeyedAt(g.params[i], path + [schema.properties[i].name])
    {
      var p := schema.properties[i];
      var here := path + [p.name];
      JoinSnoc(path, p.name);
      NamesOfKey(here);
      if p.schema.Object? {
        BuiltIsKeyed(src, p.schema, here);
      }
    }
    forall i, j | 0 <= i < j < |g.params| ensures g.params[i].key != g.params[j].key {
      assert Last(NamesOf(g.params[i])) == schema.properties[i].name;
      assert Last(NamesOf(g.params[j])) == schema.properties[j].name;
    }
  }

  // ------------------------------------------------------------- keys

  function Keys(p: Param): seq<string>
    decreases p, 1
  {
    match p
    case Field(key, _, _, _) => [key]
    case Section(key, _, _) => [key] + KeysBelow(p, 0)
    case Keyless(_) => []
  }

  /** The keys below a group, from its i-th entry on. */
  function KeysBelow(g: Param, i: nat): seq<string>
    requires g.Section? && i <= |g.params|
    decreases g, 0, |g.params| - i
  {
    if i == |g.params| then [] else Keys(g.params[i]) + KeysBelow(g, i + 1)
  }

  lemma ChildNames(g: Param, path: seq<string>, i: nat)
    requires g.Section? && ChildrenKeyed(g, path) && i < |g.params|
    ensures NamesOf(g.params[i]) == path + [Last(NamesOf(g.params[i]))]
  {
    NamesOfKey(path + [Last(NamesOf(g.params[i]))]);
  }

  /** Every key below a parameter spells a path through it. */
  lemma {:induction false} KeysPassThrough(p: Param, path: seq<string>, k: string)
    requires KeyedAt(p, path) && k in Keys(p)
    ensures path <= Split(k, '/')
    ensures k != p.key ==> path != Split(k, '/')
    decreases p, 1
  {
    NamesOfKey(path);
    if k != p.key {
      KeysPassBelow(p, path, 0, k);
    }
  }

  lemma {:induction false} KeysPassBelow(g: Param, path: seq<string>, i: nat, k: string)
    requires g.Section? && ChildrenKeyed(g, path) && i <= |g.params| && k in KeysBelow(g, i)
    ensures exists j :: i <= j < |g.params| && NamesOf(g.params[j]) <= Split(k, '/') && k in Keys(g.params[j])
    ensures path < Split(k, '/')
    decreases g, 0, |g.params| - i
  {
    if k in Keys(g.params[i]) {
      ChildNames(g, path, i);
      KeysPassThrough(g.params[i], NamesOf(g.params[i]), k);
    } else {
      KeysPassBelow(g, path, i + 1, k);
    }
  }

  /** Of the entries of one list, only one can lead to a key. */
  lemma OnlyWay(g: Param, path: seq<string>, i: nat, j: nat, key: string)
    requires g.Section? && ChildrenKeyed(g, path) && i < |g.params| && j < |g.params|
    requires key in Keys(g.params[i]) && key in Keys(g.params[j])
    ensures i == j
  {
    ChildNames(g, path, i);
    ChildNames(g, path, j);
    KeysPassThrough(g.params[i], NamesOf(g.params[i]), key);
    KeysPassThrough(g.params[j], NamesOf(g.params[j]), key);
    var n := |path| + 1;
    assert NamesOf(g.params[i]) == Split(key, '/')[..n] == NamesOf(g.params[j]);
    JoinSplit(g.params[i].key, '/');
    JoinSplit(g.params[j].key, '/');
  }

  lemma {:induction false} KeysAreUnique(p: Param, path: seq<string>)
    requires KeyedAt(p, path)
    ensures Distinct(Keys(p))
    decreases p, 1
  {
    if p.Section? {
      KeysBelowAreUnique(p, path, 0);
      if p.key in KeysBelow(p, 0) {
        NamesOfKey(path);
        KeysPassBelow(p, path, 0, p.key);
      }
    }
  }

  /** No two parameters below a group share a key. */
  lemma {:induction false} KeysBelowAreUnique(g: Param, path: seq<string>, i: nat)
    requires g.Section? && ChildrenKeyed(g, path) && i <= |g.params|
    ensures Distinct(KeysBelow(g, i))
    decreases g, 0, |g.params| - i
  {
    if i < |g.params| {
      ChildNames(g, path, i);
      KeysAreUnique(g.params[i], NamesOf(g.params[i]));
      KeysBelowAreUnique(g, path, i + 1);
      forall k | k in Keys(g.params[i]) ensures k !in KeysBelow(g, i + 1) {
        if k in KeysBelow(g, i + 1) {
          KeysPassBelow(g, path, i + 1, k);
          var j :| i + 1 <= j < |g.params| && NamesOf(g.params[j]) <= Split(k, '/') && k in Keys(g.params[j]);
          OnlyWay(g, path, i, j, k);
        }
      }
      DistinctConcat(Keys(g.params[i]), KeysBelow(g, i + 1));
    }
  }

  lemma DistinctConcat(a: seq<string>, b: seq<string>)
    requires Distinct(a) && Distinct(b) && forall x :: x in a ==> x !in b
    ensures Distinct(a + b)
  {
    var s := a + b;
    forall i, j | 0 <= i < j < |s| ensures s[i] != s[j] {
      if i < |a| <= j {
        assert s[i] in a && s[j] == b[j - |a|];
      }
    }
  }
}
