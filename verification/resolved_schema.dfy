/**
 What holds of a resolved schema as a whole: it demands of its instances what the unresolved one did,
 and a schema with nothing to inline is untouched.
 */
module ResolvedSchema {
  import opened Json
  import opened RefResolver
  import opened RefSubstitution
  import opened Composition
  import Text

  ghost predicate AllWellFormed(defs: seq<Field>) {
    forall f | f in defs :: WellFormed(f.value)
  }

  lemma PartsWellFormed(node: Json)
    requires WellFormed(node) && ShapeOf(node).Inner?
    ensures DistinctKeys(node.fields)
    ensures forall x | x in ShapeOf(node).parts :: WellFormed(x)
  {
    match KeywordOf(node.fields)
    case Some(keyword) => LookupIsMember(node.fields, keyword);
    case None =>
  }

  lemma TargetWellFormed(defs: seq<Field>, path: string)
    requires AllWellFormed(defs) && Target(defs, path).Some?
    ensures WellFormed(Target(defs, path).value)
  {
    LookupIsMember(defs, Text.LastSegment(path));
  }

  /** A member of a rebuilt object is the expansion of the member it came from. */
  lemma {:induction false} RebuildLookup(fs: seq<Field>, defs: seq<Field>, budget: nat, k: string)
    requires ExpandItems(Values(fs), defs, budget).Some?
    ensures var r := Lookup(Rebuild(fs, ExpandItems(Values(fs), defs, budget).value), k);
            if Has(fs, k) then r.Some? && r == Expand(Lookup(fs, k).value, defs, budget) else r.None?
  {
    hide Expand;
    if fs != [] {
      var init, last := fs[..|fs| - 1], fs[|fs| - 1];
      var values := ExpandItems(Values(fs), defs, budget).value;
      assert Values(fs)[..|fs| - 1] == Values(init);
      assert values[..|fs| - 1] == ExpandItems(Values(init), defs, budget).value;
      RebuildLookup(init, defs, budget, k);
      LookupPut(Rebuild(init, values[..|fs| - 1]), last.key, values[|fs| - 1], k);
    }
  }

  // ----- the demand of a schema, before and after -----

  /** The array that a value is or, through references, stands for. */
  function ListBehind(v: Json, defs: seq<Field>, budget: nat): seq<Json>
    decreases budget
  {
    match ShapeOf(v)
    case Leaf => ItemsOf(Some(v))
    case Ref(path) =>
      if budget > 0 && Target(defs, path).Some? then ListBehind(Target(defs, path).value, defs, budget - 1) else []
    case Inner(_, _) => []
  }

  /** A schema node's own `required`; only a composition reads it without following references. */
  function OwnRequired(node: Json, defs: seq<Field>, budget: nat): seq<Json>
    requires ShapeOf(node).Inner?
  {
    if KeywordOf(node.fields).None? && Has(node.fields, "required")
    then ListBehind(Lookup(node.fields, "required").value, defs, budget)
    else RequiredOf(node)
  }

  /**
   The keys an instance must have according to the unresolved schema: its own `required`, and the
   demands of all branches of an allOf or of some branch of an anyOf/oneOf, through references.
   */
  ghost predicate Accepts(node: Json, defs: seq<Field>, budget: nat, keys: set<string>)
    decreases budget, Size(node), 1
  {
    match ShapeOf(node)
    case Leaf => true
    case Ref(path) =>
      budget > 0 && Target(defs, path).Some? ==> Accepts(Target(defs, path).value, defs, budget - 1, keys)
    case Inner(step, parts) =>
      && Met(OwnRequired(node, defs, budget), keys)
      && match KeywordOf(node.fields)
         case None => true
         case Some(keyword) =>
           if keyword == "allOf" then AllAccept(parts, defs, Less(budget, step), keys)
           else parts == [] || SomeAccepts(parts, defs, Less(budget, step), keys)
  }

  ghost predicate AllAccept(items: seq<Json>, defs: seq<Field>, budget: nat, keys: set<string>)
    decreases budget, SizeItems(items), 2
  {
    items != [] ==>
      && AllAccept(items[..|items| - 1], defs, budget, keys)
      && Accepts(items[|items| - 1], defs, budget, keys)
  }

  ghost predicate SomeAccepts(items: seq<Json>, defs: seq<Field>, budget: nat, keys: set<string>)
    decreases budget, SizeItems(items), 2
  {
    && items != []
    && (SomeAccepts(items[..|items| - 1], defs, budget, keys) || Accepts(items[|items| - 1], defs, budget, keys))
  }

  /** Every composition that `Accepts` reaches is an allOf. */
  ghost predicate OnlyAllOf(node: Json, defs: seq<Field>, budget: nat)
    decreases budget, Size(node), 1
  {
    match ShapeOf(node)
    case Leaf => true
    case Ref(path) =>
      budget > 0 && Target(defs, path).Some? ==> OnlyAllOf(Target(defs, path).value, defs, budget - 1)
    case Inner(step, parts) =>
      match KeywordOf(node.fields)
      case None => true
      case Some(keyword) => keyword == "allOf" && OnlyAllOfInItems(parts, defs, Less(budget, step))
  }

  ghost predicate OnlyAllOfInItems(items: seq<Json>, defs: seq<Field>, budget: nat)
    decreases budget, SizeItems(items), 2
  {
    items != [] ==>
      && OnlyAllOfInItems(items[..|items| - 1], defs, budget)
      && OnlyAllOf(items[|items| - 1], defs, budget)
  }

  lemma {:induction false} ListKept(v: Json, defs: seq<Field>, budget: nat)
    requires Expand(v, defs, budget).Some?
    ensures ItemsOf(Expand(v, defs, budget)) == ListBehind(v, defs, budget)
    decreases budget
  {
    hide Target, ExpandItems, Merged, Rebuild;
    var shape := ShapeOf(v);
    if shape.Ref? {
      ListKept(Target(defs, shape.path).value, defs, budget - 1);
    }
  }

  lemma PlainRequired(node: Json, defs: seq<Field>, budget: nat)
    requires ShapeOf(node).Inner? && KeywordOf(node.fields).None? && Expand(node, defs, budget).Some?
    ensures RequiredOf(Expand(node, defs, budget).value) == OwnRequired(node, defs, budget)
  {
    hide Target, ExpandItems, Rebuild, ListBehind;
    RebuildLookup(node.fields, defs, budget, "required");
    if Has(node.fields, "required") {
      ListKept(Lookup(node.fields, "required").value, defs, budget);
    }
  }

  /**
   Resolution keeps the demand. Whatever keys satisfied the unresolved schema satisfy the resolved
   one; with allOf as the only composition the two demand exactly the same.
   */
  lemma {:induction false} DemandKept(node: Json, defs: seq<Field>, budget: nat, keys: set<string>)
    requires WellFormed(node) && AllWellFormed(defs) && Expand(node, defs, budget).Some?
    ensures Accepts(node, defs, budget, keys) ==> Met(RequiredOf(Expand(node, defs, budget).value), keys)
    ensures OnlyAllOf(node, defs, budget) && Met(RequiredOf(Expand(node, defs, budget).value), keys) ==>
              Accepts(node, defs, budget, keys)
    decreases budget, Size(node), 1
  {
    hide ShapeOf, Target, Met, Merged, Rebuild, WellFormed, ListBehind;
    var shape := ShapeOf(node);
    if shape.Ref? {
      TargetWellFormed(defs, shape.path);
      DemandKept(Target(defs, shape.path).value, defs, budget - 1, keys);
    } else if shape.Leaf? {
      LeafDemandsNothing(node, keys);
    } else {
      PartsWellFormed(node);
      match KeywordOf(node.fields)
      case None => PlainRequired(node, defs, budget);
      case Some(keyword) =>
        DemandKeptByItems(shape.parts, defs, Less(budget, shape.step), keys);
        var branches := ExpandItems(shape.parts, defs, Less(budget, shape.step)).value;
        assert node == Obj(node.fields);
        if keyword == "allOf" {
          AllOfRequired(node.fields, branches, keys);
        } else if Accepts(node, defs, budget, keys) {
          AnyOfRequired(keyword, node.fields, branches, keys);
        }
    }
  }

  lemma LeafDemandsNothing(node: Json, keys: set<string>)
    requires ShapeOf(node).Leaf?
    ensures Met(RequiredOf(node), keys)
  {
  }

  lemma {:induction false} DemandKeptByItems(items: seq<Json>, defs: seq<Field>, budget: nat, keys: set<string>)
    requires (forall x | x in items :: WellFormed(x)) && AllWellFormed(defs)
    requires ExpandItems(items, defs, budget).Some?
    ensures var vs := ExpandItems(items, defs, budget).value;
            && (AllAccept(items, defs, budget, keys) ==> forall b :: b in vs ==> Met(RequiredOf(b), keys))
            && (SomeAccepts(items, defs, budget, keys) ==> SomeBranchMet(vs, keys))
            && (OnlyAllOfInItems(items, defs, budget) && (forall b :: b in vs ==> Met(RequiredOf(b), keys)) ==>
                  AllAccept(items, defs, budget, keys))
    decreases budget, SizeItems(items), 2
  {
    hide Expand, Accepts, OnlyAllOf, Met, RequiredOf, WellFormed;
    if items != [] {
      var init, last := items[..|items| - 1], items[|items| - 1];
      DemandKeptByItems(init, defs, budget, keys);
      DemandKept(last, defs, budget, keys);
      var done, v := ExpandItems(init, defs, budget).value, Expand(last, defs, budget).value;
      var vs := ExpandItems(items, defs, budget).value;
      assert vs == done + [v];
      assert forall b :: b in done ==> b in vs;
      assert v in vs;
    }
  }

  lemma {:induction false} AcceptsMore(node: Json, defs: seq<Field>, budget: nat, keys: set<string>, more: set<string>)
    requires Accepts(node, defs, budget, keys) && keys <= more
    ensures Accepts(node, defs, budget, more)
    decreases budget, Size(node), 1
  {
    hide ShapeOf, Target, OwnRequired, AllAccept, SomeAccepts;
    var shape := ShapeOf(node);
    if shape.Ref? {
      if budget > 0 && Target(defs, shape.path).Some? {
        AcceptsMore(Target(defs, shape.path).value, defs, budget - 1, keys, more);
      }
    } else if shape.Inner? {
      ItemsAcceptMore(shape.parts, defs, Less(budget, shape.step), keys, more);
    }
  }

  lemma {:induction false} ItemsAcceptMore(items: seq<Json>, defs: seq<Field>, budget: nat, keys: set<string>,
                                           more: set<string>)
    requires keys <= more
    ensures AllAccept(items, defs, budget, keys) ==> AllAccept(items, defs, budget, more)
    ensures SomeAccepts(items, defs, budget, keys) ==> SomeAccepts(items, defs, budget, more)
    decreases budget, SizeItems(items), 2
  {
    hide Accepts;
    if items != [] {
      ItemsAcceptMore(items[..|items| - 1], defs, budget, keys, more);
      if Accepts(items[|items| - 1], defs, budget, keys) {
        AcceptsMore(items[|items| - 1], defs, budget, keys, more);
      }
    }
  }

  /** A key set that the unresolved schema accepts and that lacks a name the resolved one does not require. */
  lemma {:induction false} AcceptedWithout(node: Json, defs: seq<Field>, budget: nat, s: string)
    returns (keys: set<string>)
    requires WellFormed(node) && AllWellFormed(defs) && Expand(node, defs, budget).Some?
    requires s !in StringSet(RequiredOf(Expand(node, defs, budget).value))
    ensures Accepts(node, defs, budget, keys) && s !in keys
    decreases budget, Size(node), 1
  {
    hide ShapeOf, Target, StringSet, RequiredOf, Merged, Rebuild, WellFormed, ListBehind, OwnRequired;
    var shape := ShapeOf(node);
    if shape.Ref? {
      TargetWellFormed(defs, shape.path);
      keys := AcceptedWithout(Target(defs, shape.path).value, defs, budget - 1, s);
    } else if shape.Leaf? {
      keys := {};
    } else {
      PartsWellFormed(node);
      var own := StringSet(OwnRequired(node, defs, budget));
      if KeywordOf(node.fields).None? {
        PlainRequired(node, defs, budget);
        keys := own;
      } else {
        var left := Less(budget, shape.step);
        var branches := ExpandItems(shape.parts, defs, left).value;
        CompositionLacks(node, defs, budget, s, branches);
        if KeywordOf(node.fields).value == "allOf" {
          var rest := AllAcceptWithout(shape.parts, defs, left, s);
          keys := own + rest;
          ItemsAcceptMore(shape.parts, defs, left, rest, keys);
        } else if shape.parts == [] {
          keys := own;
        } else {
          var rest := SomeAcceptsWithout(shape.parts, defs, left, s);
          keys := own + rest;
          ItemsAcceptMore(shape.parts, defs, left, rest, keys);
        }
      }
    }
  }

  /** A name a merge does not demand is demanded neither by the node nor by every, or some, branch. */
  lemma CompositionLacks(node: Json, defs: seq<Field>, budget: nat, s: string, branches: seq<Json>)
    requires ShapeOf(node).Inner? && KeywordOf(node.fields).Some? && DistinctKeys(node.fields)
    requires Expand(node, defs, budget) == Some(Merged(KeywordOf(node.fields).value, node.fields, branches))
    requires s !in StringSet(RequiredOf(Expand(node, defs, budget).value))
    ensures s !in StringSet(OwnRequired(node, defs, budget))
    ensures KeywordOf(node.fields).value == "allOf" ==>
              forall b | b in branches :: s !in StringSet(RequiredOf(b))
    ensures KeywordOf(node.fields).value != "allOf" && branches != [] ==>
              exists b :: b in branches && s !in StringSet(RequiredOf(b))
  {
    hide Merged, StringSet, Expand;
    var keyword, obj := KeywordOf(node.fields).value, node.fields;
    assert node == Obj(obj);
    if keyword == "allOf" {
      AllOfRequired(obj, branches, StringSet(RequiredOf(Merged(keyword, obj, branches))));
    } else if branches == [] {
      NoBranches(keyword, obj, s);
    } else {
      AnyOfNames(keyword, obj, branches, s);
    }
  }

  lemma {:induction false} AllAcceptWithout(items: seq<Json>, defs: seq<Field>, budget: nat, s: string)
    returns (keys: set<string>)
    requires (forall x | x in items :: WellFormed(x)) && AllWellFormed(defs) && ExpandItems(items, defs, budget).Some?
    requires forall b | b in ExpandItems(items, defs, budget).value :: s !in StringSet(RequiredOf(b))
    ensures AllAccept(items, defs, budget, keys) && s !in keys
    decreases budget, SizeItems(items), 2
  {
    hide Expand, Accepts, StringSet, RequiredOf, WellFormed;
    keys := {};
    if items != [] {
      var init, last := items[..|items| - 1], items[|items| - 1];
      var done, v := ExpandItems(init, defs, budget).value, Expand(last, defs, budget).value;
      assert ExpandItems(items, defs, budget).value == done + [v];
      assert v in done + [v] && forall b | b in done :: b in done + [v];
      var before := AllAcceptWithout(init, defs, budget, s);
      var own := AcceptedWithout(last, defs, budget, s);
      keys := before + own;
      ItemsAcceptMore(init, defs, budget, before, keys);
      AcceptsMore(last, defs, budget, own, keys);
    }
  }

  lemma {:induction false} SomeAcceptsWithout(items: seq<Json>, defs: seq<Field>, budget: nat, s: string)
    returns (keys: set<string>)
    requires (forall x | x in items :: WellFormed(x)) && AllWellFormed(defs) && ExpandItems(items, defs, budget).Some?
    requires exists b :: b in ExpandItems(items, defs, budget).value && s !in StringSet(RequiredOf(b))
    ensures SomeAccepts(items, defs, budget, keys) && s !in keys
    decreases budget, SizeItems(items), 2
  {
    hide Expand, Accepts, StringSet, RequiredOf, WellFormed;
    var init, last := items[..|items| - 1], items[|items| - 1];
    var done, v := ExpandItems(init, defs, budget).value, Expand(last, defs, budget).value;
    if s !in StringSet(RequiredOf(v)) {
      keys := AcceptedWithout(last, defs, budget, s);
    } else {
      keys := SomeAcceptsWithout(init, defs, budget, s);
    }
  }

  /** The resolved `required` is the largest set of names that every accepted key set contains. */
  lemma DemandIsExact(node: Json, defs: seq<Field>, budget: nat, s: string)
    requires WellFormed(node) && AllWellFormed(defs) && Expand(node, defs, budget).Some?
    ensures s in StringSet(RequiredOf(Expand(node, defs, budget).value)) <==>
            forall keys | Accepts(node, defs, budget, keys) :: s in keys
  {
    hide Expand, Accepts, StringSet, RequiredOf, WellFormed;
    if s in StringSet(RequiredOf(Expand(node, defs, budget).value)) {
      forall keys | Accepts(node, defs, budget, keys)
        ensures s in keys
      {
        DemandKept(node, defs, budget, keys);
      }
    } else {
      var keys := AcceptedWithout(node, defs, budget, s);
    }
  }

  // ----- the entry point -----

  lemma StrippedMember(v: Json, k: string)
    requires v.Obj?
    ensures Strip(v).Obj?
    ensures Lookup(Strip(v).fields, k) == if k in {"$defs", "definitions"} then None else Lookup(v.fields, k)
  {
    LookupRemove(v.fields, "$defs", k);
    LookupRemove(Remove(v.fields, "$defs"), "definitions", k);
  }

  lemma DefsWellFormed(schema: Json)
    requires WellFormed(schema)
    ensures AllWellFormed(DefsOf(schema))
  {
    if schema.Obj? {
      LookupIsMember(schema.fields, "$defs");
      LookupIsMember(schema.fields, "definitions");
    }
  }

  // ----- nothing to inline -----

  /** No `$ref` and no composition keyword in any object outside arrays. */
  predicate NothingToInline(v: Json) {
    v.Obj? ==>
      && (forall k | k in {"$ref", "allOf", "anyOf", "oneOf"} :: !Has(v.fields, k))
      && forall f | f in v.fields :: NothingToInline(f.value)
  }

  lemma {:induction false} NothingInlined(node: Json, defs: seq<Field>, budget: nat)
    requires WellFormed(node) && NothingToInline(node)
    ensures Expand(node, defs, budget) == Some(node)
    decreases Size(node), 1
  {
    hide Rebuild, ExpandItems, WellFormed;
    if node.Obj? {
      PartsWellFormed(node);
      NothingInlinedInItems(Values(node.fields), defs, budget);
      RebuildSame(node.fields);
    }
  }

  lemma {:induction false} NothingInlinedInItems(items: seq<Json>, defs: seq<Field>, budget: nat)
    requires forall x | x in items :: WellFormed(x) && NothingToInline(x)
    ensures ExpandItems(items, defs, budget) == Some(items)
    decreases SizeItems(items), 2
  {
    hide Expand, WellFormed, NothingToInline;
    if items != [] {
      NothingInlinedInItems(items[..|items| - 1], defs, budget);
      NothingInlined(items[|items| - 1], defs, budget);
      assert items == items[..|items| - 1] + [items[|items| - 1]];
    }
  }

  lemma {:induction false} RebuildSame(fs: seq<Field>)
    requires DistinctKeys(fs)
    ensures Rebuild(fs, Values(fs)) == fs
  {
    if fs != [] {
      var init, last := fs[..|fs| - 1], fs[|fs| - 1];
      assert Values(fs)[..|fs| - 1] == Values(init);
      RebuildSame(init);
      LookupIsMember(init, last.key);
      assert init + [last] == fs;
    }
  }

  /** Without `$ref` and composition, resolution only removes the top-level definitions. */
  lemma ResolveIsIdentity(schema: Json, maxDepth: nat)
    requires WellFormed(schema) && NothingToInline(schema)
    ensures ResolveRefs(schema, maxDepth) == Ok(Strip(schema))
  {
    NothingInlined(schema, DefsOf(schema), maxDepth);
    ResolverRefinesSubstitution(schema, DefsOf(schema), maxDepth, schema);
  }
}
