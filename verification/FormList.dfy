/** The lists of form parameters as the update changes them: in place, each section owning a
    list of its own. */
module FormList {
  import opened Prelude
  import opened BasicForm
  import opened FormUpdate

  datatype Entry =
    | FieldEntry(key: string, deployed: Value, byDefault: Value, current: Value)
    | SectionEntry(key: string, current: Value, params: ParamList)
    | KeylessEntry(current: Value)

  lemma {:induction false} FirstWithKey(l: seq<Param>, key: string, i: nat)
    requires i <= |l| && forall j :: 0 <= j < i ==> !HasKey(l[j], key)
    ensures i < |l| && HasKey(l[i], key) ==> FindIndex(l, key) == i
    ensures i == |l| ==> FindIndex(l, key) == -1
  {
    if i > 0 {
      assert forall j :: 0 <= j < i - 1 ==> l[1..][j] == l[j + 1];
      FirstWithKey(l[1..], key, i - 1);
    }
  }

  lemma SameParams(g: Param, h: Param, key: string, v: Value, depth: nat)
    requires g.Section? && h.Section? && g.params == h.params
    ensures Updated(g, key, v, depth) == Updated(h, key, v, depth)
  {
  }

  class ParamList {
    var entries: seq<Entry>
    ghost var Repr: set<object>

    /** The objects of a section's list; other entries have none. */
    static ghost function Owned(e: Entry): set<object>
      reads if e.SectionEntry? then {e.params} else {}
    {
      if e.SectionEntry? then e.params.Repr else {}
    }

    static ghost predicate EntryValid(e: Entry)
      reads if e.SectionEntry? then {e.params} + e.params.Repr else {}
      decreases Owned(e), 1
    {
      e.SectionEntry? ==> e.params.Valid()
    }

    ghost predicate Valid()
      reads this, Repr
      ensures Valid() ==> this in Repr
      decreases Repr, 0
    {
      && this in Repr
      && (forall i :: 0 <= i < |entries| ==> Fits(entries[i]))
      && (forall i, j :: 0 <= i < |entries| && 0 <= j < |entries| && i != j ==> Owned(entries[i]) !! Owned(entries[j]))
    }

    ghost predicate Fits(e: Entry)
      requires this in Repr
      reads this, Repr
      decreases Repr, 0, 0
    {
      (e.SectionEntry? ==> e.params in Repr) && Owned(e) < Repr && this !in Owned(e) && EntryValid(e)
    }

    static ghost function EntryView(e: Entry): Param
      requires EntryValid(e)
      reads if e.SectionEntry? then {e.params} + e.params.Repr else {}
      decreases Owned(e), 2
    {
      match e
      case FieldEntry(key, deployed, byDefault, current) => Field(key, deployed, byDefault, current)
      case SectionEntry(key, current, params) => Section(key, current, params.View())
      case KeylessEntry(current) => Keyless(current)
    }

    /** An entry none of whose objects changed is as it was. */
    static twostate lemma Untouched(e: Entry)
      requires old(EntryValid(e)) && forall o :: o in old(Owned(e)) ==> unchanged(o)
      ensures Owned(e) == old(Owned(e)) && EntryValid(e) && EntryView(e) == old(EntryView(e))
    {
      assert e.SectionEntry? ==> e.params in old(Owned(e)) && e.params.Repr == old(e.params.Repr);
    }

    /** The tree that the list stands for. */
    ghost function View(): (r: seq<Param>)
      requires Valid()
      reads this, Repr
      ensures |r| == |entries|
      ensures forall i :: 0 <= i < |r| ==> Fits(entries[i]) && r[i] == EntryView(entries[i])
      decreases Repr, 1
    {
      seq(|entries|, i requires 0 <= i < |entries| && Valid() reads this, Repr =>
        assert Fits(entries[i]); EntryView(entries[i]))
    }

    constructor ()
      ensures Valid() && fresh(Repr) && View() == []
    {
      entries := [];
      Repr := {this};
    }

    method Append(e: Entry)
      requires Valid() && EntryValid(e) && Repr !! Owned(e)
      modifies this
      ensures Valid() && Repr == old(Repr) + Owned(e) && EntryValid(e)
      ensures View() == old(View()) + [EntryView(e)]
    {
      ghost var was, before := entries, View();
      entries := entries + [e];
      Repr := Repr + Owned(e);
      forall i | 0 <= i < |was| ensures Fits(was[i]) && EntryView(was[i]) == before[i] {
        assert old(Fits(was[i])) && before[i] == old(EntryView(was[i]));
      }
      assert Fits(e) by {
        assert this in Repr && this !in Owned(e);
      }
      assert forall i :: 0 <= i < |entries| ==> Fits(entries[i]);
    }

    method IndexOf(key: string) returns (index: int)
      requires Valid()
      ensures index == FindIndex(View(), key)
    {
      index := 0;
      while index < |entries|
        invariant 0 <= index <= |entries|
        invariant forall j :: 0 <= j < index ==> !HasKey(View()[j], key)
      {
        var e := entries[index];
        if !e.KeylessEntry? && e.key == key {
          FirstWithKey(View(), key, index);
          return;
        }
        index := index + 1;
      }
      FirstWithKey(View(), key, index);
      return -1;
    }

    /** Replaces an entry by one that owns no more. */
    method Replace(index: nat, e: Entry)
      requires Valid() && index < |entries|
      requires e.SectionEntry? ==> entries[index].SectionEntry? && e.params == entries[index].params
      modifies this`entries
      ensures Valid() && entries == old(entries)[index := e] && EntryValid(e)
      ensures View() == old(View())[index := EntryView(e)]
    {
      ghost var was, before := entries, View();
      assert Fits(was[index]);
      entries := entries[index := e];
      forall i | 0 <= i < |was| ensures Fits(was[i]) && EntryView(was[i]) == before[i] {
        assert old(Fits(was[i])) && before[i] == old(EntryView(was[i]));
      }
      assert Fits(e) by {
        assert e.SectionEntry? ==> Owned(e) == Owned(was[index]) && EntryValid(was[index]);
        assert !e.SectionEntry? ==> Owned(e) == {} && this in Repr;
      }
      assert forall i :: 0 <= i < |entries| ==> Fits(entries[i]);
    }

    /** `updateCurrentConfigByKey` on this list. */
    method Update(key: string, v: Value, depth: nat)
      requires Valid()
      modifies Repr
      ensures Valid() && Repr == old(Repr)
      ensures View() == Updated(Section("", Blank, old(View())), key, v, depth)
      decreases Repr, 2
    {
      var leaf := IndexOf(key);
      if leaf >= 0 {
        SetCurrent(leaf, v);
        return;
      }
      var index := IndexOf(KeyPrefix(key, depth));
      if index >= 0 && entries[index].SectionEntry? {
        UpdateEntry(index, key, v, depth);
      } else {
        ClobberLast(v);
      }
    }

    method SetCurrent(index: nat, v: Value)
      requires Valid() && index < |entries|
      modifies this`entries
      ensures Valid() && View() == old(View())[index := old(View()[index]).(current := v)]
    {
      var e := entries[index];
      assert Fits(e);
      Replace(index, e.(current := v));
      assert e.SectionEntry? ==> e.params.View() == old(e.params.View());
    }

    /** `splice(-1, 1, …)` with an entry that holds nothing but a value. */
    method ClobberLast(v: Value)
      requires Valid()
      modifies this`entries
      ensures Valid()
      ensures View() == if old(entries) == [] then [Keyless(v)] else old(View())[|old(View())| - 1 := Keyless(v)]
    {
      if entries == [] {
        entries := [KeylessEntry(v)];
        assert View() == [Keyless(v)];
      } else {
        Replace(|entries| - 1, KeylessEntry(v));
      }
    }

    /** A section is updated, and its current value then refers to its own list. */
    method UpdateEntry(index: nat, key: string, v: Value, depth: nat)
      requires Valid() && index < |entries| && entries[index].SectionEntry?
      modifies Repr
      ensures Valid() && Repr == old(Repr) && old(View()[index]).Section?
      ensures View() == old(View())[index :=
        Section(old(entries[index].key), OwnParams, Updated(old(View()[index]), key, v, depth + 1))]
      decreases Repr, 1
    {
      var e := entries[index];
      ghost var before := View();
      assert Fits(e) && before[index] == EntryView(e);
      SameParams(Section("", Blank, e.params.View()), before[index], key, v, depth + 1);
      UpdateSection(index, key, v, depth);
      Replace(index, SectionEntry(e.key, OwnParams, e.params));
    }

    /** The update of a section's own list, seen from the list around it. */
    method UpdateSection(index: nat, key: string, v: Value, depth: nat)
      requires Valid() && index < |entries| && entries[index].SectionEntry? && EntryValid(entries[index])
      modifies entries[index].params.Repr
      ensures Valid() && Repr == old(Repr) && entries == old(entries)
      ensures EntryValid(entries[index])
      ensures entries[index].params.View()
        == Updated(Section("", Blank, old(entries[index].params.View())), key, v, depth + 1)
      ensures View() == old(View())[index := EntryView(entries[index])]
      decreases Repr, 0
    {
      ghost var before := View();
      var e := entries[index];
      assert Fits(e);
      e.params.Update(key, v, depth + 1);
      assert Fits(e) && Owned(e) == old(Owned(e));
      forall i | 0 <= i < |entries|
        ensures Fits(entries[i]) && Owned(entries[i]) == old(Owned(entries[i]))
        ensures i != index ==> EntryView(entries[i]) == before[i]
      {
        if i != index {
          assert old(Fits(entries[i])) && before[i] == old(EntryView(entries[i]));
          Untouched(entries[i]);
        }
      }
      assert Valid();
      assert View() == before[index := EntryView(e)];
    }
  }

  /** The lists of a form as it is built. */
  method Build(g: Param) returns (l: ParamList)
    requires g.Section?
    ensures fresh(l.Repr) && l.Valid() && l.View() == g.params
    decreases g
  {
    l := new ParamList();
    for i := 0 to |g.params|
      invariant fresh(l.Repr) && l.Valid() && l.View() == g.params[..i]
    {
      assert g.params[..i + 1] == g.params[..i] + [g.params[i]];
      match g.params[i]
      case Field(key, deployed, byDefault, current) => l.Append(FieldEntry(key, deployed, byDefault, current));
      case Keyless(current) => l.Append(KeylessEntry(current));
      case Section(key, current, _) =>
        var s := Build(g.params[i]);
        l.Append(SectionEntry(key, current, s));
    }
    assert g.params[..|g.params|] == g.params;
  }

  /** Filling in a form, input by input, on its lists: each input sets its own field, and the
      keys, their order and every other field stay. */
  method FillForm(src: Sources, schema: Schema, inputs: seq<Input>) returns (l: ParamList)
    requires schema.Object? && PlainSectionNames(schema) && Distinct(KeysBelow(Form(src, schema), 0))
    requires forall i :: 0 <= i < |inputs| ==> inputs[i].key in KeysBelow(Form(src, schema), 0)
    ensures l.Valid()
    ensures Strip(Root(l.View())) == SetAll(Strip(Form(src, schema)), inputs)
    ensures KeysBelow(Root(l.View()), 0) == KeysBelow(Form(src, schema), 0)
  {
    var params := RetrieveBasicFormParams(src, schema, "");
    BuiltIsSpelt(src, schema, "", "");
    InputsSetTheirFields(params, inputs);
    l := Build(Root(params));
    assert inputs[0..] == inputs;
    for i := 0 to |inputs|
      invariant fresh(l.Repr) && l.Valid()
      invariant UpdateAll(l.View(), inputs[i..]) == UpdateAll(params, inputs)
    {
      assert inputs[i..][0] == inputs[i] && inputs[i..][1..] == inputs[i + 1..];
      l.Update(inputs[i].key, inputs[i].value, 1);
    }
  }
}
