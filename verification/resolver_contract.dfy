/**
 What `resolve_refs` does (src/ref_resolver.rs), with every keyword it looks for written out: which object
 is a composition, what replaces it, and which definition a reference stands for.
 */
module ResolverContract {
  import opened Json
  import opened RefResolver
  import opened RefSubstitution
  import opened Composition
  import opened ResolvedSchema
  import InlinedRefs
  import Text

  // ----- compositions -----

  /** The keyword that is acted on: allOf before anyOf before oneOf. */
  predicate Taken(fields: seq<Field>, key: string) {
    || (key == "allOf" && Has(fields, "allOf"))
    || (key == "anyOf" && Has(fields, "anyOf") && !Has(fields, "allOf"))
    || (key == "oneOf" && Has(fields, "oneOf") && !Has(fields, "allOf") && !Has(fields, "anyOf"))
  }

  lemma TakenShape(schema: Json, key: string)
    requires schema.Obj? && !Has(schema.fields, "$ref") && Taken(schema.fields, key)
    ensures KeywordOf(schema.fields) == Some(key)
    ensures ShapeOf(schema) == Inner(1, ItemsOf(Lookup(schema.fields, key)))
  {
    hide Lookup;
  }

  lemma {:induction false} EachItemExpanded(items: seq<Json>, defs: seq<Field>, budget: nat, i: nat)
    requires ExpandItems(items, defs, budget).Some? && i < |items|
    ensures Expand(items[i], defs, budget) == Some(ExpandItems(items, defs, budget).value[i])
  {
    hide Expand;
    if i < |items| - 1 {
      EachItemExpanded(items[..|items| - 1], defs, budget, i);
    }
  }

  /** Property `k` of the merged object: that of the last branch that declares it, else the node's own. */
  ghost predicate Inherits(props: seq<Field>, own: seq<Field>, branches: seq<Json>, k: string) {
    && (forall i: nat | LastToDeclare(branches, i, k) :: Lookup(props, k) == Lookup(PropsOf(branches[i]), k))
    && (NoneDeclares(branches, k) ==> Lookup(props, k) == Lookup(own, k))
  }

  /**
   An object with `allOf`, `anyOf` or `oneOf` comes back without the keyword taken. Its branches are resolved
   one level deeper, its properties are inherited from them, and its other members stay as they are.
   */
  lemma CompositionIsMerged(schema: Json, maxDepth: nat, key: string) returns (branches: seq<Json>, props: seq<Field>)
    requires WellFormed(schema) && schema.Obj? && !Has(schema.fields, "$ref") && Taken(schema.fields, key)
    requires ResolveRefs(schema, maxDepth).Ok?
    ensures var items := ItemsOf(Lookup(schema.fields, key));
            && |branches| == |items|
            && forall i :: 0 <= i < |items| ==>
                 Resolve(items[i], DefsOf(schema), if maxDepth == 0 then 0 else maxDepth - 1, {}) == Ok(branches[i])
    ensures var out := ResolveRefs(schema, maxDepth).value;
            && out.Obj? && Lookup(out.fields, key) == None && Lookup(out.fields, "properties") == Some(Obj(props))
            && forall m | m !in {key, "properties", "required", "$defs", "definitions"} ::
                 Lookup(out.fields, m) == Lookup(schema.fields, m)
    ensures forall k :: Inherits(props, FieldsOf(Lookup(schema.fields, "properties")), branches, k)
    ensures forall s ::
              Str(s) in RequiredOf(ResolveRefs(schema, maxDepth).value) <==> Demanded(schema, key, branches, s)
  {
    hide Lookup, Merged, MergedProps, Resolve, ExpandItems, DefsOf, ShapeOf, KeywordOf, WellFormed, Strip, PropsOf;
    var defs, obj, items := DefsOf(schema), schema.fields, ItemsOf(Lookup(schema.fields, key));
    TakenShape(schema, key);
    ResolvedIsExpanded(schema, defs, maxDepth, {});
    var budget := Less(maxDepth, 1);
    branches := ExpandItems(items, defs, budget).value;
    props := MergedProps(obj, branches);
    forall i | 0 <= i < |items|
      ensures Resolve(items[i], defs, budget, {}) == Ok(branches[i])
    {
      EachItemExpanded(items, defs, budget, i);
      ResolverRefinesSubstitution(items[i], defs, budget, branches[i]);
    }
    var v := Merged(key, obj, branches);
    PartsWellFormed(schema);
    InlinedRefs.CompositionParts(schema);
    InlinedRefs.MergedPropsMember(key, obj, branches);
    StrippedMember(v, "properties");
    forall m
      ensures m !in {"properties", "required", "$defs", "definitions"} ==>
                Lookup(Strip(v).fields, m) == if m == key then None else Lookup(obj, m)
    {
      MergedMembers(key, obj, branches, m);
      StrippedMember(v, m);
    }
    forall k
      ensures Inherits(props, FieldsOf(Lookup(obj, "properties")), branches, k)
    {
      InheritedProperty(key, obj, branches, k);
    }
    forall s
      ensures Str(s) in RequiredOf(Strip(v)) <==> Demanded(schema, key, branches, s)
    {
      MergedDemand(schema, key, branches, s);
    }
  }

  /** The node requires the name, or so do all branches, or, of an allOf, some branch. */
  ghost predicate Demanded(node: Json, key: string, branches: seq<Json>, s: string) {
    || Str(s) in RequiredOf(node)
    || (key == "allOf" && exists b :: b in branches && Str(s) in RequiredOf(b))
    || (key != "allOf" && branches != [] && forall b | b in branches :: Str(s) in RequiredOf(b))
  }

  lemma MergedDemand(node: Json, key: string, branches: seq<Json>, s: string)
    requires node.Obj? && DistinctKeys(node.fields) && key in {"allOf", "anyOf", "oneOf"}
    ensures Str(s) in RequiredOf(Strip(Merged(key, node.fields, branches))) <==> Demanded(node, key, branches, s)
  {
    hide Lookup, Merged, StringSet, UnionRequired, Strip;
    var obj := node.fields;
    var v := Merged(key, obj, branches);
    assert node == Obj(obj);
    StrippedMember(v, "required");
    MergedMembers(key, obj, branches, "");
    InStringSet(RequiredOf(v), s);
    InStringSet(RequiredOf(node), s);
    forall b { InStringSet(RequiredOf(b), s); }
    if key == "allOf" {
      InUnionRequired(RequiredOf(node), branches, Str(s));
    } else if branches == [] {
      NoBranches(key, obj, s);
    } else {
      AnyOfNames(key, obj, branches, s);
    }
  }

  lemma InheritedProperty(key: string, obj: seq<Field>, branches: seq<Json>, k: string)
    requires DistinctKeys(obj) && DistinctKeys(PropsOf(Obj(obj))) && key != "properties" && key != "required"
    ensures Inherits(MergedProps(obj, branches), FieldsOf(Lookup(obj, "properties")), branches, k)
  {
    hide Lookup, Merged, MergedProps, NoneDeclares;
    MergedMembers(key, obj, branches, k);
    PropertyLookup(key, obj, branches, k, 0);
    forall i: nat | LastToDeclare(branches, i, k)
      ensures Lookup(MergedProps(obj, branches), k) == Lookup(PropsOf(branches[i]), k)
    {
      PropertyLookup(key, obj, branches, k, i);
    }
  }

  // ----- ordinary objects -----

  /** An object without `$ref` and composition keywords keeps its keys; each value is resolved at the same depth. */
  lemma PlainIsResolved(schema: Json, maxDepth: nat, k: string)
    requires WellFormed(schema) && schema.Obj? && ResolveRefs(schema, maxDepth).Ok?
    requires forall key | key in {"$ref", "allOf", "anyOf", "oneOf"} :: !Has(schema.fields, key)
    requires k !in {"$defs", "definitions"}
    ensures ResolveRefs(schema, maxDepth).value.Obj?
    ensures var out := ResolveRefs(schema, maxDepth).value.fields;
            && (Has(out, k) <==> Has(schema.fields, k))
            && (Has(schema.fields, k) ==>
                  Resolve(Lookup(schema.fields, k).value, DefsOf(schema), maxDepth, {}) == Ok(Lookup(out, k).value))
    ensures !Has(ResolveRefs(schema, maxDepth).value.fields, "$defs")
    ensures !Has(ResolveRefs(schema, maxDepth).value.fields, "definitions")
  {
    hide Lookup, Rebuild, Resolve, Expand, ExpandItems, DefsOf, WellFormed, Strip;
    var defs := DefsOf(schema);
    ResolvedIsExpanded(schema, defs, maxDepth, {});
    InlinedRefs.PlainParts(schema, defs, maxDepth);
    var v := Expand(schema, defs, maxDepth).value;
    RebuildLookup(schema.fields, defs, maxDepth, k);
    StrippedMember(v, k);
    StrippedMember(v, "$defs");
    StrippedMember(v, "definitions");
    if Has(schema.fields, k) {
      ResolverRefinesSubstitution(Lookup(schema.fields, k).value, defs, maxDepth, Lookup(v.fields, k).value);
    }
  }

  // ----- references -----

  /** The name of the definition a `$ref` member selects: the text after its last slash, or the empty name. */
  ghost predicate Selects(reference: Json, d: string) {
    if reference.Str? then reference.s == d || exists prefix :: reference.s == prefix + "/" + d else d == ""
  }

  lemma SelectedSegment(reference: Json, d: string)
    requires Selects(reference, d) && '/' !in d
    ensures Text.LastSegment(RefPath(reference)) == d
  {
    if reference.Str? && reference.s != d {
      var prefix :| reference.s == prefix + "/" + d;
      InlinedRefs.LastOfPath(prefix, d);
    } else {
      Text.SplitAt(d, [], '/', false);
    }
  }

  /** The definitions: those under `$defs` if the schema has that member at all, else those under `definitions`. */
  ghost predicate DefinedAs(fields: seq<Field>, d: string, def: Json) {
    if Has(fields, "$defs") then
      exists ds :: Lookup(fields, "$defs") == Some(Obj(ds)) && Lookup(ds, d) == Some(def)
    else
      exists ds :: Lookup(fields, "definitions") == Some(Obj(ds)) && Lookup(ds, d) == Some(def)
  }

  /**
   A schema that is a reference comes back as the definition selected, if that has nothing to inline itself.
   Without such a definition it is unresolvable, and with no depth left it is not looked at.
   */
  lemma ReferenceMeansDefinition(schema: Json, d: string, maxDepth: nat)
    requires WellFormed(schema) && schema.Obj? && Has(schema.fields, "$ref")
    requires Selects(Lookup(schema.fields, "$ref").value, d) && '/' !in d
    ensures maxDepth == 0 ==> ResolveRefs(schema, maxDepth) == Err(MaxDepthExceeded)
    ensures maxDepth > 0 ==>
              forall def | DefinedAs(schema.fields, d, def) && NothingToInline(def) ::
                ResolveRefs(schema, maxDepth) == Ok(Strip(def))
    ensures maxDepth > 0 && !(exists def :: DefinedAs(schema.fields, d, def)) ==>
              ResolveRefs(schema, maxDepth).Err? && ResolveRefs(schema, maxDepth).error.Unresolvable?
  {
    hide Lookup, WellFormed, NothingToInline, Text.LastSegment;
    var defs := DefsOf(schema);
    SelectedSegment(Lookup(schema.fields, "$ref").value, d);
    DefsWellFormed(schema);
    forall def
      ensures DefinedAs(schema.fields, d, def) <==> Lookup(defs, d) == Some(def)
    {
      DefinitionLookup(schema.fields, d, def);
    }
    if maxDepth > 0 && Lookup(defs, d).Some? {
      var def := Lookup(defs, d).value;
      assert DefinedAs(schema.fields, d, def);
      if NothingToInline(def) {
        DefinitionIsReady(defs, d);
        NothingInlined(def, defs, maxDepth - 1);
        assert Expand(schema, defs, maxDepth) == Some(def);
        ResolverRefinesSubstitution(schema, defs, maxDepth, def);
      }
    }
  }

  /** Following a reference costs one level and nothing else. */
  lemma ReferenceCostsOne(node: Json, path: string, defs: seq<Field>, depth: nat, v: Json)
    requires node.Obj? && Lookup(node.fields, "$ref") == Some(Str(path))
    ensures Resolve(node, defs, depth, {}) == Ok(v) <==>
            && depth > 0 && Has(defs, Text.LastSegment(path))
            && Resolve(Lookup(defs, Text.LastSegment(path)).value, defs, depth - 1, {}) == Ok(v)
  {
    hide Lookup, Resolve, Text.LastSegment;
    ResolverRefinesSubstitution(node, defs, depth, v);
    if depth > 0 && Has(defs, Text.LastSegment(path)) {
      ResolverRefinesSubstitution(Lookup(defs, Text.LastSegment(path)).value, defs, depth - 1, v);
    }
  }

  /** The depth is looked at first, then the references being expanded, then the definitions. */
  lemma ReferenceErrors(node: Json, path: string, defs: seq<Field>, depth: nat, visiting: set<string>)
    requires node.Obj? && Lookup(node.fields, "$ref") == Some(Str(path))
    ensures depth == 0 ==> Resolve(node, defs, depth, visiting) == Err(MaxDepthExceeded)
    ensures depth > 0 && path in visiting ==> Resolve(node, defs, depth, visiting) == Err(Circular)
    ensures depth > 0 && path !in visiting && !Has(defs, Text.LastSegment(path)) ==>
              Resolve(node, defs, depth, visiting) == Err(Unresolvable(path))
  {
    hide Lookup, Text.LastSegment;
  }

  lemma DefinitionLookup(fields: seq<Field>, d: string, def: Json)
    ensures DefinedAs(fields, d, def) <==> Lookup(DefsOf(Obj(fields)), d) == Some(def)
  {
    hide Lookup;
    NothingNamed(d);
  }

  lemma NothingNamed(d: string)
    ensures Lookup([], d) == None
  {
  }

  lemma DefinitionIsReady(defs: seq<Field>, d: string)
    requires AllWellFormed(defs) && Has(defs, d)
    ensures WellFormed(Lookup(defs, d).value)
  {
    LookupIsMember(defs, d);
  }
}
