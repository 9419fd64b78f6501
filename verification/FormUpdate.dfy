/** Updating a form parameter by its key changes that parameter and nothing else. */
module FormUpdate {
  import opened Prelude
  import opened Text
  import opened YamlPath
  import opened YamlPatch
  import opened BasicForm

  /** The tree without the current values of its sections, which only refer to their lists. */
  function Strip(p: Param): Param
    decreases p
  {
    if p.Section? then Section(p.key, Blank, seq(|p.params|, i requires 0 <= i < |p.params| => Strip(p.params[i])))
    else p
  }

  /** Sets the current value of the fields with a key, wherever they are. */
  function SetField(p: Param, key: string, v: Value): Param
    decreases p
  {
    match p
    case Field(k, deployed, byDefault, _) => if k == key then Field(k, deployed, byDefault, v) else p
    case Section(k, current, params) =>
      Section(k, current, seq(|params|, i requires 0 <= i < |params| => SetField(params[i], key, v)))
    case Keyless(_) => p
  }

  /** No entry has lost its key. */
  predicate Tidy(p: Param)
    decreases p
  {
    !p.Keyless? && (p.Section? ==> forall i :: 0 <= i < |p.params| ==> Tidy(p.params[i]))
  }

  // ------------------------------------------------------------- trees of a schema

  /** Every key below a list starts with the text that the list hands down. */
  ghost predicate Spelt(g: Param, parent: string)
    requires g.Section?
    decreases g, 0
  {
    forall i :: 0 <= i < |g.params| ==> SpeltAt(g.params[i], parent)
  }

  ghost predicate SpeltAt(p: Param, parent: string)
    decreases p, 1
  {
    !p.Keyless? && parent <= p.key && (p.Section? ==> Spelt(p, p.key + "/"))
  }

  /** No section with entries has a '/' in its name. */
  ghost predicate PlainSections(g: Param, parent: string)
    requires g.Section?
    decreases g, 0
  {
    forall i :: 0 <= i < |g.params| ==> PlainAt(g.params[i], parent)
  }

  ghost predicate PlainAt(p: Param, parent: string)
    decreases p, 1
  {
    p.Section? && p.params != [] ==> parent <= p.key && '/' !in p.key[|parent|..] && PlainSections(p, p.key + "/")
  }

  ghost predicate PlainSectionNames(schema: Schema)
    decreases schema
  {
    schema.Object? ==>
      forall i :: 0 <= i < |schema.properties| ==>
        var p := schema.properties[i];
        p.schema.Object? && p.schema.properties != [] ==> '/' !in p.name && PlainSectionNames(p.schema)
  }

  lemma {:induction false} BuiltIsSpelt(src: Sources, schema: Schema, key: string, parent: string)
    requires schema.Object?
    ensures var g := Section(key, Blank, RetrieveBasicFormParams(src, schema, parent));
      Spelt(g, parent) && (PlainSections(g, parent) <==> PlainSectionNames(schema))
    decreases schema
  {
    var g := Section(key, Blank, RetrieveBasicFormParams(src, schema, parent));
    forall i | 0 <= i < |g.params|
      ensures SpeltAt(g.params[i], parent)
      ensures PlainAt(g.params[i], parent) <==> NamePlain(schema.properties[i])
    {
      var p := schema.properties[i];
      assert g.params[i] == MakeParam(src, p, parent);
      assert (parent + p.name)[|parent|..] == p.name;
      if p.schema.Object? {
        BuiltIsSpelt(src, p.schema, parent + p.name, parent + p.name + "/");
      }
    }
    assert PlainSectionNames(schema) <==> forall i :: 0 <= i < |schema.properties| ==> NamePlain(schema.properties[i]);
  }

  ghost predicate NamePlain(p: Property) {
    p.schema.Object? && p.schema.properties != [] ==> '/' !in p.name && PlainSectionNames(p.schema)
  }

  lemma {:induction false} SpeltIsTidy(g: Param, parent: string)
    requires g.Section? && Spelt(g, parent)
    ensures Tidy(g)
    decreases g
  {
    forall i | 0 <= i < |g.params| ensures Tidy(g.params[i]) {
      assert SpeltAt(g.params[i], parent);
      if g.params[i].Section? {
        SpeltIsTidy(g.params[i], g.params[i].key + "/");
      }
    }
  }

  // ------------------------------------------------------------- what keeps keys

  /** The same keys in the same places. */
  ghost predicate SameKeys(p: Param, q: Param)
    decreases p
  {
    && p.Keyless? == q.Keyless? && p.Section? == q.Section? && (!p.Keyless? ==> p.key == q.key)
    && (p.Section? ==>
          |p.params| == |q.params| && forall i :: 0 <= i < |p.params| ==> SameKeys(p.params[i], q.params[i]))
  }

  lemma {:induction false} StripKeepsKeys(p: Param)
    ensures SameKeys(p, Strip(p))
    decreases p
  {
    if p.Section? {
      forall i | 0 <= i < |p.params| ensures SameKeys(p.params[i], Strip(p).params[i]) {
        StripKeepsKeys(p.params[i]);
      }
    }
  }

  lemma {:induction false} SetFieldKeepsKeys(p: Param, key: string, v: Value)
    ensures SameKeys(p, SetField(p, key, v))
    decreases p
  {
    if p.Section? {
      forall i | 0 <= i < |p.params| ensures SameKeys(p.params[i], SetField(p, key, v).params[i]) {
        SetFieldKeepsKeys(p.params[i], key, v);
      }
    }
  }

  lemma {:induction false} SameKeysBelow(p: Param, q: Param, i: nat)
    requires SameKeys(p, q) && p.Section? && i <= |p.params|
    ensures KeysBelow(p, i) == KeysBelow(q, i)
    decreases p, |p.params| - i
  {
    if i < |p.params| {
      SameKeysOf(p.params[i], q.params[i]);
      SameKeysBelow(p, q, i + 1);
    }
  }

  lemma {:induction false} SameKeysOf(p: Param, q: Param)
    requires SameKeys(p, q)
    ensures Keys(p) == Keys(q)
    decreases p
  {
    if p.Section? {
      SameKeysBelow(p, q, 0);
    }
  }

  lemma {:induction false} SameSpelling(p: Param, q: Param, parent: string)
    requires SameKeys(p, q) && p.Section?
    ensures (Spelt(p, parent) <==> Spelt(q, parent)) && (PlainSections(p, parent) <==> PlainSections(q, parent))
    decreases p
  {
    forall i | 0 <= i < |p.params|
      ensures (SpeltAt(p.params[i], parent) <==> SpeltAt(q.params[i], parent))
      ensures (PlainAt(p.params[i], parent) <==> PlainAt(q.params[i], parent))
    {
      assert SameKeys(p.params[i], q.params[i]);
      if p.params[i].Section? {
        SameSpelling(p.params[i], q.params[i], p.params[i].key + "/");
      }
    }
  }

  lemma {:induction false} SameTidy(p: Param, q: Param)
    requires SameKeys(p, q)
    ensures Tidy(p) <==> Tidy(q)
    decreases p
  {
    if p.Section? {
      forall i | 0 <= i < |p.params| ensures Tidy(p.params[i]) <==> Tidy(q.params[i]) {
        SameTidy(p.params[i], q.params[i]);
      }
    }
  }

  lemma {:induction false} SameKeysBoth(p: Param, q: Param, r: Param)
    requires SameKeys(p, r) && SameKeys(q, r)
    ensures SameKeys(p, q)
    decreases p
  {
    if p.Section? {
      forall i | 0 <= i < |p.params| ensures SameKeys(p.params[i], q.params[i]) {
        SameKeysBoth(p.params[i], q.params[i], r.params[i]);
      }
    }
  }

  // ------------------------------------------------------------- keys of a list

  lemma {:induction false} NoSuchField(p: Param, key: string, v: Value)
    requires key !in Keys(p)
    ensures SetField(p, key, v) == p
    decreases p
  {
    if p.Section? {
      forall i | 0 <= i < |p.params| ensures SetField(p.params[i], key, v) == p.params[i] {
        if key in Keys(p.params[i]) {
          InKeysBelow(p, 0, i, key);
        }
        NoSuchField(p.params[i], key, v);
      }
      assert SetField(p, key, v).params == p.params;
    }
  }

  lemma {:induction false} InKeysBelow(g: Param, i: nat, j: nat, key: string)
    requires g.Section? && i <= j < |g.params| && key in Keys(g.params[j])
    ensures key in KeysBelow(g, i)
    decreases j - i
  {
    if i < j {
      InKeysBelow(g, i + 1, j, key);
    }
  }

  lemma {:induction false} EntryWithKey(g: Param, i: nat, key: string) returns (j: nat)
    requires g.Section? && i <= |g.params| && key in KeysBelow(g, i)
    ensures i <= j < |g.params| && key in Keys(g.params[j])
    decreases |g.params| - i
  {
    if key in Keys(g.params[i]) {
      j := i;
    } else {
      j := EntryWithKey(g, i + 1, key);
    }
  }

  lemma DistinctHalves(a: seq<string>, b: seq<string>)
    requires Distinct(a + b)
    ensures Distinct(a) && Distinct(b) && forall x :: x in a ==> x !in b
  {
    var s := a + b;
    assert forall i :: 0 <= i < |a| ==> s[i] == a[i];
    assert forall i :: 0 <= i < |b| ==> s[|a| + i] == b[i];
  }

  lemma {:induction false} DistinctFrom(g: Param, i: nat, j: nat)
    requires g.Section? && i <= j < |g.params| && Distinct(KeysBelow(g, i))
    ensures Distinct(Keys(g.params[j])) && Distinct(KeysBelow(g, j))
    ensures forall key :: key in Keys(g.params[j]) ==> key !in KeysBelow(g, j + 1)
    decreases j - i
  {
    DistinctHalves(Keys(g.params[i]), KeysBelow(g, i + 1));
    if i < j {
      DistinctFrom(g, i + 1, j);
    }
  }

  /** Of the entries of one list, only one can lead to a key. */
  lemma OnlyEntry(g: Param, i: nat, j: nat, key: string)
    requires g.Section? && Distinct(KeysBelow(g, 0)) && i < |g.params| && j < |g.params|
    requires key in Keys(g.params[i]) && key in Keys(g.params[j])
    ensures i == j
  {
    var first, second := Min(i, j), if i <= j then j else i;
    DistinctFrom(g, 0, first);
    if first < second {
      InKeysBelow(g, first + 1, second, key);
    }
  }

  /** The keys below a section are its own, the '/', and more. */
  lemma {:induction false} KeysStartWith(g: Param, parent: string, i: nat, key: string)
    requires g.Section? && Spelt(g, parent) && i <= |g.params| && key in KeysBelow(g, i)
    ensures parent <= key
    decreases g, |g.params| - i
  {
    var p := g.params[i];
    assert SpeltAt(p, parent);
    if key in Keys(p) {
      if key != p.key {
        KeysStartWith(p, p.key + "/", 0, key);
        assert key[..|p.key|] == (p.key + "/")[..|p.key|] == p.key;
        Prefixes(parent, p.key, key);
      }
    } else {
      KeysStartWith(g, parent, i + 1, key);
    }
  }

  lemma Prefixes(a: string, b: string, c: string)
    requires a <= b && b <= c
    ensures a <= c
  {
  }

  /** A section's own key is none of those below it. */
  lemma OwnKeyIsNotBelow(p: Param)
    requires p.Section? && Distinct(Keys(p))
    ensures p.key !in KeysBelow(p, 0) && Distinct(KeysBelow(p, 0))
  {
    DistinctHalves([p.key], KeysBelow(p, 0));
  }

  // ------------------------------------------------------------- finding the way

  /** Text that ends a level of a key. */
  predicate EndsLevel(parent: string) {
    parent == "" || parent[|parent| - 1] == '/'
  }

  function Depth(parent: string): nat {
    |Split(parent, '/')|
  }

  lemma SplitChar(c: char, s: string)
    ensures Split([c] + s, '/')
      == if c == '/' then [""] + Split(s, '/') else [[c] + Split(s, '/')[0]] + Split(s, '/')[1..]
  {
    assert ([c] + s)[1..] == s;
  }

  lemma HeadOfBoth(t: seq<string>, r: seq<string>, c: char)
    requires t != []
    ensures [[c] + (t + r)[0]] + (t + r)[1..] == ([[c] + t[0]] + t[1..]) + r
    ensures [""] + (t + r) == ([""] + t) + r
  {
  }

  lemma {:induction false} SplitAfterSlash(q: string, rest: string)
    ensures Split(q + "/" + rest, '/') == Split(q, '/') + Split(rest, '/')
  {
    if q == "" {
      SplitChar('/', rest);
      assert q + "/" + rest == ['/'] + rest;
    } else {
      var tail := q[1..] + "/" + rest;
      SplitAfterSlash(q[1..], rest);
      SplitChar(q[0], tail);
      SplitChar(q[0], q[1..]);
      assert q + "/" + rest == [q[0]] + tail && q == [q[0]] + q[1..];
      HeadOfBoth(Split(q[1..], '/'), Split(rest, '/'), q[0]);
    }
  }

  /** The prefix of a key at the depth of a list: what the list hands down and the text up to
      the next '/'. */
  lemma PrefixAtDepth(parent: string, rest: string)
    requires EndsLevel(parent)
    ensures KeyPrefix(parent + rest, Depth(parent)) == parent + Split(rest, '/')[0]
  {
    var first := Split(rest, '/')[0];
    if parent == "" {
      assert parent + rest == rest && Split(rest, '/')[..1] == [first];
    } else {
      var q := parent[..|parent| - 1];
      assert parent == q + "/" && parent + rest == q + "/" + rest;
      DepthAfterSlash(q);
      PrefixAfterSlash(q, rest);
    }
  }

  lemma DepthAfterSlash(q: string)
    ensures Depth(q + "/") == |Split(q, '/')| + 1
  {
    SplitAfterSlash(q, "");
    assert q + "/" + "" == q + "/";
  }

  lemma JoinedFront(q: string, last: string)
    ensures Join(Split(q, '/') + [last], "/") == q + "/" + last
  {
    JoinConcat(Split(q, '/'), [last], "/");
    JoinSplit(q, '/');
  }

  lemma FirstOfRest(front: seq<string>, rest: seq<string>)
    requires rest != []
    ensures (front + rest)[..Min(|front| + 1, |front + rest|)] == front + [rest[0]]
  {
  }

  lemma PrefixAfterSlash(q: string, rest: string)
    ensures KeyPrefix(q + "/" + rest, |Split(q, '/')| + 1) == q + "/" + Split(rest, '/')[0]
  {
    SplitAfterSlash(q, rest);
    FirstOfRest(Split(q, '/'), Split(rest, '/'));
    JoinedFront(q, Split(rest, '/')[0]);
  }

  lemma NextDepth(parent: string, name: string)
    requires EndsLevel(parent) && '/' !in name
    ensures EndsLevel(parent + name + "/") && Depth(parent + name + "/") == Depth(parent) + 1
  {
    SplitOne(name, '/');
    SplitAfterSlash(name, "");
    assert name + "/" + "" == name + "/";
    if parent == "" {
      assert parent + name + "/" == name + "/";
    } else {
      var q := parent[..|parent| - 1];
      assert parent + name + "/" == q + "/" + (name + "/") && parent == q + "/" + "";
      SplitAfterSlash(q, name + "/");
      SplitAfterSlash(q, "");
    }
  }

  lemma {:induction false} SlashMakesParts(name: string)
    requires '/' in name
    ensures |Split(name, '/')| > 1
  {
    if name[0] != '/' {
      SlashMakesParts(name[1..]);
    }
  }

  lemma FirstPart(name: string, more: string)
    ensures Split(name + "/" + more, '/')[0] == Split(name, '/')[0]
    ensures if '/' in name then |Split(name, '/')[0]| < |name| else Split(name, '/')[0] == name
  {
    SplitAfterSlash(name, more);
    if '/' in name {
      var parts := Split(name, '/');
      SlashMakesParts(name);
      JoinSplit(name, '/');
      assert Join(parts, "/") == parts[0] + "/" + Join(parts[1..], "/");
    } else {
      SplitOne(name, '/');
    }
  }

  /** On the way to a key below a section, the prefix of the key is the section's key, unless
      there is a '/' in the section's name: then it is shorter. */
  lemma PrefixBelow(s: Param, parent: string, key: string)
    requires s.Section? && SpeltAt(s, parent) && EndsLevel(parent) && key in KeysBelow(s, 0)
    ensures var a := KeyPrefix(key, Depth(parent));
      if '/' in s.key[|parent|..] then |a| < |s.key| else a == s.key
    ensures |key| > |s.key|
  {
    KeysStartWith(s, s.key + "/", 0, key);
    var name, more := s.key[|parent|..], key[|s.key| + 1..];
    assert s.key == parent + name;
    assert key == parent + (name + "/" + more) by {
      assert key == key[..|s.key| + 1] + more;
    }
    PrefixAtDepth(parent, name + "/" + more);
    FirstPart(name, more);
  }

  // ------------------------------------------------------------- the update

  /** Changing the one entry that leads to the key changes the list as a whole does. */
  lemma OneEntry(g: Param, j: nat, entry: Param, key: string, v: Value)
    requires g.Section? && Distinct(KeysBelow(g, 0)) && j < |g.params| && key in Keys(g.params[j])
    requires Strip(entry) == SetField(Strip(g.params[j]), key, v)
    ensures Strip(Section(g.key, g.current, g.params[j := entry])) == SetField(Strip(g), key, v)
  {
    var l, r := Strip(Section(g.key, g.current, g.params[j := entry])), SetField(Strip(g), key, v);
    forall i | 0 <= i < |g.params| ensures l.params[i] == r.params[i] {
      if i != j {
        if key in Keys(g.params[i]) {
          OnlyEntry(g, i, j, key);
        }
        StripKeepsKeys(g.params[i]);
        SameKeysOf(g.params[i], Strip(g.params[i]));
        NoSuchField(Strip(g.params[i]), key, v);
      }
    }
    assert l.params == r.params;
  }

  /** The entry with the key itself. */
  lemma EntryItself(p: Param, v: Value)
    requires !p.Keyless? && Distinct(Keys(p))
    ensures Strip(p.(current := v)) == SetField(Strip(p), p.key, v)
  {
    if p.Section? {
      var q := Strip(p);
      OwnKeyIsNotBelow(p);
      StripKeepsKeys(p);
      SameKeysBelow(p, q, 0);
      forall i | 0 <= i < |q.params| ensures SetField(q.params[i], p.key, v) == q.params[i] {
        if p.key in Keys(q.params[i]) {
          InKeysBelow(q, 0, i, p.key);
        }
        NoSuchField(q.params[i], p.key, v);
      }
      assert SetField(q, p.key, v).params == q.params;
    }
  }

  function After(g: Param, depth: nat, key: string, v: Value): Param
    requires g.Section?
  {
    Section(g.key, g.current, Updated(g, key, v, depth))
  }

  /** The update sets the field of the key, or the section's current value, and no other. */
  predicate Sets(g: Param, depth: nat, key: string, v: Value)
    requires g.Section?
  {
    Strip(After(g, depth, key, v)) == SetField(Strip(g), key, v)
  }

  /** With a key that is not in the tree, some entry loses its key and all else it holds. */
  lemma {:induction false} MissingKeyDestroys(g: Param, depth: nat, key: string, v: Value)
    requires g.Section? && key !in KeysBelow(g, 0)
    ensures !Tidy(After(g, depth, key, v))
    decreases g
  {
    var l, d := g.params, After(g, depth, key, v);
    var leaf, index := FindIndex(l, key), FindIndex(l, KeyPrefix(key, depth));
    if leaf >= 0 {
      InKeysBelow(g, 0, leaf, key);
    } else if index >= 0 && l[index].Section? {
      if key in KeysBelow(l[index], 0) {
        InKeysBelow(g, 0, index, key);
      }
      MissingKeyDestroys(l[index], depth + 1, key, v);
      DestroyedBelow(g, depth, index, key, v);
    } else {
      assert Destroyed(d, if l == [] then 0 else |l| - 1);
    }
  }

  predicate Destroyed(d: Param, i: nat)
    requires d.Section?
  {
    i < |d.params| && !Tidy(d.params[i])
  }

  lemma DestroyedBelow(g: Param, depth: nat, index: nat, key: string, v: Value)
    requires g.Section? && index < |g.params| && g.params[index].Section?
    requires FindIndex(g.params, key) < 0 && index == FindIndex(g.params, KeyPrefix(key, depth))
    requires !Tidy(After(g.params[index], depth + 1, key, v))
    ensures !Tidy(After(g, depth, key, v))
  {
    var below := Updated(g.params[index], key, v, depth + 1);
    var entry := Section(g.params[index].key, OwnParams, below);
    assert !Tidy(entry);
    assert Destroyed(After(g, depth, key, v), index);
  }

  /** The key of an entry finds that entry. */
  lemma FindsIt(g: Param, j: nat)
    requires g.Section? && Distinct(KeysBelow(g, 0)) && j < |g.params| && !g.params[j].Keyless?
    ensures FindIndex(g.params, g.params[j].key) == j
  {
    var key := g.params[j].key;
    assert HasKey(g.params[j], key);
    OnlyEntry(g, FindIndex(g.params, key), j, key);
  }

  /** A key below an entry is no entry's own key. */
  lemma NoEntryItself(g: Param, j: nat, key: string)
    requires g.Section? && Distinct(KeysBelow(g, 0)) && j < |g.params|
    requires g.params[j].Section? && key in KeysBelow(g.params[j], 0)
    ensures FindIndex(g.params, key) < 0
  {
    var i := FindIndex(g.params, key);
    if i >= 0 {
      OnlyEntry(g, i, j, key);
      DistinctFrom(g, 0, j);
      OwnKeyIsNotBelow(g.params[j]);
    }
  }

  /** The update of a key below a section whose name has no '/' goes through that section. */
  lemma GoesThrough(g: Param, parent: string, j: nat, key: string)
    requires g.Section? && Spelt(g, parent) && EndsLevel(parent) && Distinct(KeysBelow(g, 0)) && j < |g.params|
    requires var s := g.params[j]; s.Section? && key in KeysBelow(s, 0) && parent <= s.key && '/' !in s.key[|parent|..]
    ensures FindIndex(g.params, key) < 0 && FindIndex(g.params, KeyPrefix(key, Depth(parent))) == j
    ensures Distinct(KeysBelow(g.params[j], 0)) && SpeltAt(g.params[j], parent)
    ensures EndsLevel(g.params[j].key + "/") && Depth(g.params[j].key + "/") == Depth(parent) + 1
  {
    var s := g.params[j];
    assert SpeltAt(s, parent);
    NoEntryItself(g, j, key);
    PrefixBelow(s, parent, key);
    FindsIt(g, j);
    DistinctFrom(g, 0, j);
    OwnKeyIsNotBelow(s);
    NextDepth(parent, s.key[|parent|..]);
    assert parent + s.key[|parent|..] == s.key;
  }

  lemma OwnKeySets(g: Param, depth: nat, j: nat, v: Value)
    requires g.Section? && Distinct(KeysBelow(g, 0)) && j < |g.params| && !g.params[j].Keyless?
    ensures Sets(g, depth, g.params[j].key, v)
  {
    var p := g.params[j];
    DistinctFrom(g, 0, j);
    FindsIt(g, j);
    EntryItself(p, v);
    OneEntry(g, j, p.(current := v), p.key, v);
  }

  /** With distinct keys and no '/' in the name of a section that has entries, the update of
      every key of the tree sets just that parameter. */
  lemma {:induction false} EveryKeySets(g: Param, parent: string, key: string, v: Value)
    requires g.Section? && Spelt(g, parent) && PlainSections(g, parent) && EndsLevel(parent)
    requires Distinct(KeysBelow(g, 0)) && key in KeysBelow(g, 0)
    ensures Sets(g, Depth(parent), key, v)
    decreases g
  {
    var j := EntryWithKey(g, 0, key);
    var p := g.params[j];
    assert SpeltAt(p, parent) && PlainAt(p, parent);
    if key == p.key {
      OwnKeySets(g, Depth(parent), j, v);
    } else {
      GoesThrough(g, parent, j, key);
      EveryKeySets(p, p.key + "/", key, v);
      SetsThrough(g, Depth(parent), j, key, v);
    }
  }

  lemma SetsThrough(g: Param, depth: nat, j: nat, key: string, v: Value)
    requires g.Section? && Distinct(KeysBelow(g, 0)) && j < |g.params| && g.params[j].Section?
    requires key in KeysBelow(g.params[j], 0) && Sets(g.params[j], depth + 1, key, v)
    requires FindIndex(g.params, key) < 0 && FindIndex(g.params, KeyPrefix(key, depth)) == j
    ensures Sets(g, depth, key, v)
  {
    var s := g.params[j];
    var entry := Section(s.key, OwnParams, Updated(s, key, v, depth + 1));
    assert Strip(entry) == Strip(After(s, depth + 1, key, v));
    OneEntry(g, j, entry, key, v);
  }

  /** Otherwise the update of some key destroys an entry. */
  lemma {:induction false} SomeKeyDestroys(g: Param, parent: string, v: Value) returns (key: string)
    requires g.Section? && Spelt(g, parent) && !PlainSections(g, parent) && EndsLevel(parent)
      && Distinct(KeysBelow(g, 0))
    ensures key in KeysBelow(g, 0) && !Tidy(After(g, Depth(parent), key, v))
    decreases g
  {
    hide After, Tidy, KeysBelow;
    var j :| 0 <= j < |g.params| && !PlainAt(g.params[j], parent);
    var s := g.params[j];
    assert SpeltAt(s, parent);
    if '/' in s.key[|parent|..] {
      key := SlashDestroys(g, parent, j, v);
    } else {
      DistinctFrom(g, 0, j);
      OwnKeyIsNotBelow(s);
      NextDepth(parent, s.key[|parent|..]);
      assert parent + s.key[|parent|..] == s.key;
      key := SomeKeyDestroys(s, s.key + "/", v);
      InKeysBelow(g, 0, j, key);
      GoesThrough(g, parent, j, key);
      DestroyedBelow(g, Depth(parent), j, key, v);
    }
  }

  lemma SlashDestroys(g: Param, parent: string, j: nat, v: Value) returns (key: string)
    requires g.Section? && Spelt(g, parent) && EndsLevel(parent) && Distinct(KeysBelow(g, 0)) && j < |g.params|
    requires var s := g.params[j]; s.Section? && s.params != [] && parent <= s.key && '/' in s.key[|parent|..]
    ensures key in KeysBelow(g, 0) && !Tidy(After(g, Depth(parent), key, v))
  {
    hide Tidy, After, KeysBelow, Distinct, KeyPrefix;
    var s, depth := g.params[j], Depth(parent);
    assert SpeltAt(s, parent);
    assert Spelt(s, s.key + "/");
    assert SpeltAt(s.params[0], s.key + "/");
    key := s.params[0].key;
    InKeysBelow(s, 0, 0, key);
    InKeysBelow(g, 0, j, key);
    NoEntryItself(g, j, key);
    PrefixBelow(s, parent, key);
    var index := FindIndex(g.params, KeyPrefix(key, depth));
    if index >= 0 && g.params[index].Section? {
      if key in KeysBelow(g.params[index], 0) {
        OnlyEntry(g, index, j, key);
      }
      MissingKeyDestroys(g.params[index], depth + 1, key, v);
      DestroyedBelow(g, depth, index, key, v);
    } else {
      LastDestroyed(g, depth, key, v);
    }
  }

  lemma LastDestroyed(g: Param, depth: nat, key: string, v: Value)
    requires g.Section? && g.params != [] && FindIndex(g.params, key) < 0
    requires var i := FindIndex(g.params, KeyPrefix(key, depth)); i >= 0 ==> !g.params[i].Section?
    ensures !Tidy(After(g, depth, key, v))
  {
    assert Destroyed(After(g, depth, key, v), |g.params| - 1);
  }

  lemma SetsMeansTidy(g: Param, depth: nat, key: string, v: Value)
    requires g.Section? && Tidy(g) && Sets(g, depth, key, v)
    ensures Tidy(After(g, depth, key, v))
  {
    var d := After(g, depth, key, v);
    StripKeepsKeys(d);
    StripKeepsKeys(g);
    SetFieldKeepsKeys(Strip(g), key, v);
    SameTidy(d, Strip(d));
    SameTidy(g, Strip(g));
    SameTidy(Strip(g), Strip(d));
  }

  // ------------------------------------------------------------- whole forms

  datatype Input = Input(key: string, value: Value)

  function Root(params: seq<Param>): Param {
    Section("", Blank, params)
  }

  /** The form that is built from a schema. */
  function Form(src: Sources, schema: Schema): Param {
    Root(RetrieveBasicFormParams(src, schema, ""))
  }

  /** A form whose keys are distinct takes an input for every one of its keys just when no
      section that has entries has a '/' in its name. */
  lemma EveryKeyWorksIff(src: Sources, schema: Schema, v: Value)
    requires schema.Object? && Distinct(KeysBelow(Form(src, schema), 0))
    ensures (forall key :: key in KeysBelow(Form(src, schema), 0) ==> Sets(Form(src, schema), 1, key, v))
      <==> PlainSectionNames(schema)
  {
    var g := Form(src, schema);
    BuiltIsSpelt(src, schema, "", "");
    SpeltIsTidy(g, "");
    if PlainSectionNames(schema) {
      forall key | key in KeysBelow(g, 0) ensures Sets(g, 1, key, v) {
        EveryKeySets(g, "", key, v);
      }
    } else {
      var key := SomeKeyDestroys(g, "", v);
      if Sets(g, 1, key, v) {
        SetsMeansTidy(g, 1, key, v);
      }
    }
  }

  /** The form of a schema whose names have no '/': its keys are unique, an input for one of
      them sets that field alone, and an input for any other key destroys an entry. */
  lemma FormUpdateIff(src: Sources, schema: Schema, key: string, v: Value)
    requires schema.Object? && PlainNames(schema)
    ensures var g := Form(src, schema);
      && Distinct(KeysBelow(g, 0)) && Tidy(g)
      && if key in KeysBelow(g, 0) then Sets(g, 1, key, v) else !Tidy(After(g, 1, key, v))
  {
    var g := Form(src, schema);
    BuiltIsKeyed(src, schema, []);
    KeysBelowAreUnique(g, [], 0);
    BuiltIsSpelt(src, schema, "", "");
    SpeltIsTidy(g, "");
    PlainNamesArePlain(schema);
    if key in KeysBelow(g, 0) {
      EveryKeySets(g, "", key, v);
    } else {
      MissingKeyDestroys(g, 1, key, v);
    }
  }

  lemma {:induction false} PlainNamesArePlain(schema: Schema)
    requires PlainNames(schema)
    ensures PlainSectionNames(schema)
    decreases schema
  {
    if schema.Object? {
      forall i | 0 <= i < |schema.properties| ensures PlainSectionNames(schema.properties[i].schema) {
        PlainNamesArePlain(schema.properties[i].schema);
      }
    }
  }

  function UpdateAll(params: seq<Param>, inputs: seq<Input>): seq<Param>
    decreases |inputs|
  {
    if inputs == [] then params
    else UpdateAll(UpdateCurrentConfigByKey(params, inputs[0].key, inputs[0].value), inputs[1..])
  }

  function SetAll(p: Param, inputs: seq<Input>): Param
    decreases |inputs|
  {
    if inputs == [] then p else SetAll(SetField(p, inputs[0].key, inputs[0].value), inputs[1..])
  }

  /** A tree in which the update of every key works. */
  ghost predicate Sound(g: Param)
    requires g.Section?
  {
    Spelt(g, "") && PlainSections(g, "") && Distinct(KeysBelow(g, 0))
  }

  lemma UpdateKeepsSound(params: seq<Param>, key: string, v: Value)
    requires Sound(Root(params)) && key in KeysBelow(Root(params), 0)
    ensures var next := Root(UpdateCurrentConfigByKey(params, key, v));
      && Strip(next) == SetField(Strip(Root(params)), key, v)
      && Sound(next) && KeysBelow(next, 0) == KeysBelow(Root(params), 0)
  {
    var g, next := Root(params), Root(UpdateCurrentConfigByKey(params, key, v));
    EveryKeySets(g, "", key, v);
    assert next == After(g, 1, key, v);
    StripKeepsKeys(g);
    StripKeepsKeys(next);
    SetFieldKeepsKeys(Strip(g), key, v);
    SameKeysBoth(next, Strip(g), Strip(next));
    SameKeysBoth(next, g, Strip(g));
    SameSpelling(next, g, "");
    SameKeysBelow(next, g, 0);
  }

  /** Any run of inputs for keys of the form sets those fields, one after the other, and
      leaves the keys, their order and every other field alone. */
  lemma {:induction false} InputsSetTheirFields(params: seq<Param>, inputs: seq<Input>)
    requires Sound(Root(params))
    requires forall i :: 0 <= i < |inputs| ==> inputs[i].key in KeysBelow(Root(params), 0)
    ensures Strip(Root(UpdateAll(params, inputs))) == SetAll(Strip(Root(params)), inputs)
    ensures KeysBelow(Root(UpdateAll(params, inputs)), 0) == KeysBelow(Root(params), 0)
    decreases |inputs|
  {
    if inputs != [] {
      UpdateKeepsSound(params, inputs[0].key, inputs[0].value);
      InputsSetTheirFields(UpdateCurrentConfigByKey(params, inputs[0].key, inputs[0].value), inputs[1..]);
    }
  }

  /** What a form shows of `found`. */
  function Shown(found: Option<Node>, byDefault: Option<Node>): Value {
    Given(if found == None || found == Some(Null) then byDefault else found)
  }

  /** Each part of a field follows one of the three documents, at the path that its key
      spells. */
  lemma FieldFollowsDocuments(src: Sources, p: Property, parent: seq<string>, doc: Doc)
    requires p.schema.Plain? && NoSlash(parent + [p.name]) && (parent + [p.name])[0] != "" && doc.Doc?
    ensures var f, found := MakeParam(src, p, ParentText(parent)), GetIn(doc.root, parent + [p.name]);
      var shown := Shown(found, p.schema.byDefault);
      && f.Field? && f.key == KeyOf(parent + [p.name])
      && MakeParam(src.(current := doc), p, ParentText(parent)) == Field(f.key, f.deployed, f.byDefault, shown)
      && MakeParam(src.(package := doc), p, ParentText(parent)) == Field(f.key, f.deployed, shown, f.current)
      && MakeParam(src.(deployed := Some(doc)), p, ParentText(parent))
         == Field(f.key, Given(found), f.byDefault, f.current)
      && MakeParam(src.(deployed := None), p, ParentText(parent)) == Field(f.key, Blank, f.byDefault, f.current)
  {
    JoinSnoc(parent, p.name);
    SplitJoin(parent + [p.name], '/');
  }

  lemma SetIsRead(root: Node, path: seq<string>, v: Node)
    requires path != [] && NoSlash(path) && NoDot(path) && path[0] != "" && Reaches(root, path)
    ensures var d := SetValue(Doc(root), KeyOf(path), v);
      d.Some? && d.value.Doc? && GetIn(d.value.root, path) == Some(v)
  {
    var key := KeyOf(path);
    assert key[0] == path[0][0];
    assert WithoutSlash(key) == key;
    SplitJoin(path, '/');
    SetPartsIsChange(root, path, v);
    ChangedIsRead(root, path, Some(v));
  }

  /** A value written to the document under the key of a field is what a form built anew
      shows for it; null stands for the default. */
  lemma FormShowsWhatWasSet(src: Sources, p: Property, parent: seq<string>, v: Node)
    requires p.schema.Plain? && src.current.Doc? && NoSlash(parent + [p.name]) && NoDot(parent + [p.name])
    requires (parent + [p.name])[0] != "" && Reaches(src.current.root, parent + [p.name])
    ensures var f, d := MakeParam(src, p, ParentText(parent)), SetValue(src.current, KeyOf(parent + [p.name]), v);
      && d.Some? && f.Field?
      && MakeParam(src.(current := d.value), p, ParentText(parent))
         == Field(f.key, f.deployed, f.byDefault, Given(if v == Null then p.schema.byDefault else Some(v)))
  {
    SetIsRead(src.current.root, parent + [p.name], v);
    var d := SetValue(src.current, KeyOf(parent + [p.name]), v);
    hide SetValue, GetIn, Reaches;
    FieldFollowsDocuments(src, p, parent, d.value);
  }
}
