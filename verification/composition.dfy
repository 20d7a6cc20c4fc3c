/**
 What composition merging keeps (src/ref_resolver.rs:93-166, 232-339): the names a schema requires, the
 property a name resolves to, and, over a whole resolution, the demand a schema makes on its instances.
 */
module Composition {
  import opened Json
  import opened RefResolver
  import opened Sequences

  /** An instance with these keys has every name listed in `required`. */
  predicate Met(required: seq<Json>, keys: set<string>) {
    StringSet(required) <= keys
  }

  // ----- the list operations, item by item -----

  lemma {:induction false} InAppendNew(acc: seq<Json>, items: seq<Json>, x: Json)
    ensures x in AppendNew(acc, items) <==> x in acc || x in items
  {
    if items != [] {
      InAppendNew(acc, items[..|items| - 1], x);
      assert items == items[..|items| - 1] + [items[|items| - 1]];
    }
  }

  lemma {:induction false} AppendNewKeepsOrder(acc: seq<Json>, items: seq<Json>)
    requires NoRepeats(acc)
    ensures NoRepeats(AppendNew(acc, items)) && acc <= AppendNew(acc, items)
  {
    if items != [] {
      AppendNewKeepsOrder(acc, items[..|items| - 1]);
    }
  }

  lemma {:induction false} InUnionRequired(parent: seq<Json>, branches: seq<Json>, x: Json)
    ensures x in UnionRequired(parent, branches) <==>
            x in parent || exists b :: b in branches && x in RequiredOf(b)
  {
    hide RequiredOf;
    if branches == [] {
      InAppendNew([], parent, x);
    } else {
      var init, last := branches[..|branches| - 1], branches[|branches| - 1];
      InUnionRequired(parent, init, x);
      InAppendNew(UnionRequired(parent, init), RequiredOf(last), x);
      assert branches == init + [last];
    }
  }

  lemma {:induction false} UnionRequiredKeepsOrder(parent: seq<Json>, branches: seq<Json>)
    ensures NoRepeats(UnionRequired(parent, branches))
    ensures AppendNew([], parent) <= UnionRequired(parent, branches)
  {
    hide RequiredOf;
    if branches == [] {
      AppendNewKeepsOrder([], parent);
    } else {
      var init := branches[..|branches| - 1];
      UnionRequiredKeepsOrder(parent, init);
      AppendNewKeepsOrder(UnionRequired(parent, init), RequiredOf(branches[|branches| - 1]));
    }
  }

  lemma {:induction false} InStringSet(items: seq<Json>, s: string)
    ensures s in StringSet(items) <==> Str(s) in items
  {
    if items != [] {
      var init, last := items[..|items| - 1], items[|items| - 1];
      InStringSet(init, s);
      assert items == init + [last];
    }
  }

  lemma InAsStrings(names: seq<string>, s: string)
    ensures Str(s) in AsStrings(names) <==> s in names
  {
    if s in names {
      var i :| 0 <= i < |names| && names[i] == s;
      assert AsStrings(names)[i] == Str(s);
    }
  }

  lemma {:induction false} InKeepIn(items: seq<Json>, names: set<string>, s: string)
    ensures Str(s) in KeepIn(items, names) <==> Str(s) in items && s in names
  {
    if items != [] {
      var init, last := items[..|items| - 1], items[|items| - 1];
      InKeepIn(init, names, s);
      assert items == init + [last];
    }
  }

  lemma {:induction false} InIntersection(branches: seq<Json>, s: string)
    requires branches != []
    ensures s in Intersection(branches) <==> forall b :: b in branches ==> s in StringSet(RequiredOf(b))
  {
    hide RequiredOf, StringSet;
    var init, last := branches[..|branches| - 1], branches[|branches| - 1];
    assert branches == init + [last];
    if init != [] {
      InIntersection(init, s);
    }
  }

  lemma InSharedRequired(branches: seq<Json>, s: string)
    requires branches != []
    ensures s in StringSet(SharedRequired(branches)) <==> forall b :: b in branches ==> s in StringSet(RequiredOf(b))
  {
    hide RequiredOf, StringSet, Strings, KeepIn, AppendNew, Intersection;
    var names := Strings(RequiredOf(branches[0]));
    InStringSet(SharedRequired(branches), s);
    InKeepIn(AppendNew([], AsStrings(names)), Intersection(branches), s);
    InAppendNew([], AsStrings(names), Str(s));
    InAsStrings(names, s);
    InIntersection(branches, s);
    InStrings(RequiredOf(branches[0]), s);
  }

  lemma InStrings(items: seq<Json>, s: string)
    ensures s in StringSet(items) <==> s in Strings(items)
  {
  }

  lemma InCombineRequired(parent: Option<Json>, shared: seq<Json>, s: string)
    ensures s in StringSet(CombineRequired(parent, shared)) <==>
            s in StringSet(ItemsOf(parent)) || s in StringSet(shared)
  {
    if parent.Some? && parent.value.Arr? {
      var names := Strings(parent.value.items);
      InStringSet(CombineRequired(parent, shared), s);
      InAppendNew([], AsStrings(names) + shared, Str(s));
      InAsStrings(names, s);
      InStringSet(shared, s);
    }
  }

  // ----- the merged object -----

  lemma {:induction false} CarryOverLookup(result: seq<Field>, obj: seq<Field>, keyword: string, k: string)
    requires DistinctKeys(obj)
    ensures Lookup(CarryOver(result, obj, keyword), k) ==
            if Has(result, k) then Lookup(result, k) else if k == keyword then None else Lookup(obj, k)
  {
    if obj != [] {
      var init, last := obj[..|obj| - 1], obj[|obj| - 1];
      CarryOverLookup(result, init, keyword, k);
      CarryOverLookup(result, init, keyword, last.key);
      LookupIsMember(init, last.key);
      LookupPut(CarryOver(result, init, keyword), last.key, last.value, k);
    }
  }

  /** Where each member of the merged object comes from. */
  lemma MergedMembers(keyword: string, obj: seq<Field>, branches: seq<Json>, k: string)
    requires DistinctKeys(obj) && keyword != "properties" && keyword != "required"
    ensures PropsOf(Merged(keyword, obj, branches)) == MergedProps(obj, branches)
    ensures RequiredOf(Merged(keyword, obj, branches)) == MergedRequired(keyword, obj, branches)
    ensures k != "properties" && k != "required" ==>
              Lookup(Merged(keyword, obj, branches).fields, k) == if k == keyword then None else Lookup(obj, k)
  {
    hide MergedProps, MergedRequired, CarryOver;
    var first := [Field("properties", Obj(MergedProps(obj, branches))),
                  Field("required", Arr(MergedRequired(keyword, obj, branches)))];
    assert first[..1] == [first[0]] && first[..1][..0] == [];
    assert Lookup(first, "required") == Some(first[1].value);
    assert Lookup(first, "properties") == Lookup(first[..1], "properties") == Some(first[0].value);
    assert k != "properties" && k != "required" ==> Lookup(first[..1], k) == Lookup(first[..1][..0], k) == None;
    CarryOverLookup(first, obj, keyword, "properties");
    CarryOverLookup(first, obj, keyword, "required");
    CarryOverLookup(first, obj, keyword, k);
  }

  /** Branch `i` is the last one that declares the property. */
  predicate LastToDeclare(branches: seq<Json>, i: nat, k: string) {
    && i < |branches| && Has(PropsOf(branches[i]), k)
    && forall j :: i < j < |branches| ==> !Has(PropsOf(branches[j]), k)
  }

  predicate NoneDeclares(branches: seq<Json>, k: string) {
    forall i :: 0 <= i < |branches| ==> !Has(PropsOf(branches[i]), k)
  }

  /** If any branch declares the property, one is the last to do so. */
  lemma {:induction false} SomeIsLast(branches: seq<Json>, k: string) returns (i: nat)
    requires !NoneDeclares(branches, k)
    ensures LastToDeclare(branches, i, k)
  {
    hide PropsOf;
    var n := |branches| - 1;
    if Has(PropsOf(branches[n]), k) {
      i := n;
    } else {
      assert forall j :: 0 <= j < n ==> branches[..n][j] == branches[j];
      i := SomeIsLast(branches[..n], k);
    }
  }

  lemma {:induction false} UnionPropsLookup(branches: seq<Json>, k: string, i: nat)
    ensures NoneDeclares(branches, k) ==> !Has(UnionProps(branches), k)
    ensures LastToDeclare(branches, i, k) ==>
              Has(UnionProps(branches), k) && Lookup(UnionProps(branches), k) == Lookup(PropsOf(branches[i]), k)
  {
    hide PropsOf;
    if branches != [] {
      var init, last := branches[..|branches| - 1], branches[|branches| - 1];
      UnionPropsLookup(init, k, i);
      LookupPutAll(UnionProps(init), PropsOf(last), k);
      assert forall j :: 0 <= j < |init| ==> init[j] == branches[j];
    }
  }

  /** A property is the one of the last branch that declares it; the parent's own properties fill the gaps. */
  lemma PropertyLookup(keyword: string, obj: seq<Field>, branches: seq<Json>, k: string, i: nat)
    requires DistinctKeys(obj) && DistinctKeys(PropsOf(Obj(obj))) && keyword != "properties" && keyword != "required"
    ensures LastToDeclare(branches, i, k) ==>
              Lookup(PropsOf(Merged(keyword, obj, branches)), k) == Lookup(PropsOf(branches[i]), k)
    ensures NoneDeclares(branches, k) ==>
              Lookup(PropsOf(Merged(keyword, obj, branches)), k) == Lookup(PropsOf(Obj(obj)), k)
  {
    hide UnionProps, FillGaps;
    MergedMembers(keyword, obj, branches, k);
    UnionPropsLookup(branches, k, i);
    LookupFillGaps(UnionProps(branches), PropsOf(Obj(obj)), k);
  }

  // ----- `required` -----

  /** allOf demands what the parent and every branch demand; its list repeats nothing and starts with the parent's. */
  lemma AllOfRequired(obj: seq<Field>, branches: seq<Json>, keys: set<string>)
    requires DistinctKeys(obj)
    ensures Met(RequiredOf(Merged("allOf", obj, branches)), keys) <==>
            Met(RequiredOf(Obj(obj)), keys) && forall b :: b in branches ==> Met(RequiredOf(b), keys)
    ensures NoRepeats(RequiredOf(Merged("allOf", obj, branches)))
    ensures AppendNew([], RequiredOf(Obj(obj))) <= RequiredOf(Merged("allOf", obj, branches))
  {
    hide Merged, StringSet, UnionRequired;
    MergedMembers("allOf", obj, branches, "");
    var parent := RequiredOf(Obj(obj));
    var out := UnionRequired(parent, branches);
    UnionRequiredKeepsOrder(parent, branches);
    forall s
      ensures s in StringSet(out) <==>
              s in StringSet(parent) || exists b :: b in branches && s in StringSet(RequiredOf(b))
    {
      InStringSet(out, s);
      InStringSet(parent, s);
      InUnionRequired(parent, branches, Str(s));
      forall b { InStringSet(RequiredOf(b), s); }
    }
  }

  ghost predicate SomeBranchMet(branches: seq<Json>, keys: set<string>) {
    exists b :: b in branches && Met(RequiredOf(b), keys)
  }

  lemma AnyOfNames(keyword: string, obj: seq<Field>, branches: seq<Json>, s: string)
    requires DistinctKeys(obj) && (keyword == "anyOf" || keyword == "oneOf") && branches != []
    ensures s in StringSet(RequiredOf(Merged(keyword, obj, branches))) <==>
            s in StringSet(RequiredOf(Obj(obj))) || forall b :: b in branches ==> s in StringSet(RequiredOf(b))
  {
    hide Merged, StringSet, SharedRequired, CombineRequired;
    MergedMembers(keyword, obj, branches, "");
    InCombineRequired(Lookup(obj, "required"), SharedRequired(branches), s);
    InSharedRequired(branches, s);
  }

  /** anyOf and oneOf never demand a name that some instance of the parent and a branch may lack. */
  lemma AnyOfRequired(keyword: string, obj: seq<Field>, branches: seq<Json>, keys: set<string>)
    requires DistinctKeys(obj) && (keyword == "anyOf" || keyword == "oneOf")
    requires Met(RequiredOf(Obj(obj)), keys) && (branches == [] || SomeBranchMet(branches, keys))
    ensures Met(RequiredOf(Merged(keyword, obj, branches)), keys)
  {
    hide Merged, StringSet, RequiredOf;
    forall s | s in StringSet(RequiredOf(Merged(keyword, obj, branches)))
      ensures s in keys
    {
      if branches == [] {
        NoBranches(keyword, obj, s);
      } else {
        AnyOfNames(keyword, obj, branches, s);
      }
    }
  }

  lemma NoBranches(keyword: string, obj: seq<Field>, s: string)
    requires DistinctKeys(obj) && (keyword == "anyOf" || keyword == "oneOf")
    ensures s in StringSet(RequiredOf(Merged(keyword, obj, []))) <==> s in StringSet(RequiredOf(Obj(obj)))
  {
    hide Merged;
    MergedMembers(keyword, obj, [], "");
    InCombineRequired(Lookup(obj, "required"), [], s);
  }

  /** And they demand as much as that allows: no larger set of names is safe for the parent with every branch. */
  lemma AnyOfRequiredIsLargest(keyword: string, obj: seq<Field>, branches: seq<Json>, names: set<string>)
    requires DistinctKeys(obj) && (keyword == "anyOf" || keyword == "oneOf") && branches != []
    requires forall keys :: Met(RequiredOf(Obj(obj)), keys) && SomeBranchMet(branches, keys) ==> names <= keys
    ensures names <= StringSet(RequiredOf(Merged(keyword, obj, branches)))
  {
    hide Merged, StringSet, RequiredOf;
    var parent := StringSet(RequiredOf(Obj(obj)));
    forall s | s in names
      ensures s in StringSet(RequiredOf(Merged(keyword, obj, branches)))
    {
      forall b | b in branches && s !in parent
        ensures s in StringSet(RequiredOf(b))
      {
        var keys := parent + StringSet(RequiredOf(b));
        assert Met(RequiredOf(Obj(obj)), keys) && Met(RequiredOf(b), keys);
        assert SomeBranchMet(branches, keys);
      }
      AnyOfNames(keyword, obj, branches, s);
    }
  }
}
