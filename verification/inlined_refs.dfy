/**
 Which `$ref` keys are left after resolution (src/ref_resolver.rs). The answer is computed from the
 unresolved schema alone: which members and properties a node will have, and which of them will still
 hold a reference.
 */
module InlinedRefs {
  import opened Json
  import opened RefResolver
  import opened RefSubstitution
  import opened Composition
  import opened ResolvedSchema
  import Text

  /** No `$ref` key anywhere outside arrays. */
  predicate RefFree(v: Json) {
    v.Obj? ==> !Has(v.fields, "$ref") && forall f | f in v.fields :: RefFree(f.value)
  }

  // ----- outlines -----

  /** The keys of an object, and those that stand for a reference: `$ref` itself, or a value with one inside. */
  datatype Outline = Outline(keys: set<string>, dirty: set<string>)

  const NOTHING := Outline({}, {})

  /** One object written over another. */
  function Over(under: Outline, over: Outline): Outline {
    Outline(under.keys + over.keys, (under.dirty - over.keys) + over.dirty)
  }

  function Without(o: Outline, names: set<string>): Outline {
    Outline(o.keys - names, o.dirty - names)
  }

  function Single(k: string, clean: bool): Outline {
    Outline({k}, if clean then {} else {k})
  }

  function Keys(fs: seq<Field>): set<string> {
    set f | f in fs :: f.key
  }

  predicate CleanAt(fs: seq<Field>, k: string) {
    k != "$ref" && Has(fs, k) && RefFree(Lookup(fs, k).value)
  }

  /** The outline of members that are there already. */
  function OutlineOf(fs: seq<Field>): Outline {
    Outline(Keys(fs), set k | k in Keys(fs) && !CleanAt(fs, k))
  }

  // ----- foretelling the result -----

  /** The outline of the object that resolution makes of a node; anything but an object has none. */
  function MembersAfter(node: Json, defs: seq<Field>, budget: nat): Outline
    decreases budget, Size(node), 3
  {
    match ShapeOf(node)
    case Leaf => NOTHING
    case Ref(path) =>
      if budget == 0 || Target(defs, path).None? then NOTHING
      else MembersAfter(Target(defs, path).value, defs, budget - 1)
    case Inner(_, _) =>
      match KeywordOf(node.fields)
      case None => FieldsAfter(node.fields, defs, budget)
      case Some(keyword) =>
        Over(Without(OutlineOf(node.fields), {keyword}),
             Outline({"properties", "required"},
                     if PropsAfter(node, defs, budget).dirty == {} then {} else {"properties"}))
  }

  function FieldsAfter(fs: seq<Field>, defs: seq<Field>, budget: nat): Outline
    decreases budget, SizeFields(fs), 4
  {
    if fs == [] then NOTHING
    else
      var last := fs[|fs| - 1];
      Over(FieldsAfter(fs[..|fs| - 1], defs, budget),
           Single(last.key, MembersAfter(last.value, defs, budget).dirty == {}))
  }

  /** The outline of the properties the resolved node declares: the last branch wins, gaps go to the node itself. */
  function PropsAfter(node: Json, defs: seq<Field>, budget: nat): Outline
    decreases budget, Size(node), 2
  {
    match ShapeOf(node)
    case Leaf => NOTHING
    case Ref(path) =>
      if budget == 0 || Target(defs, path).None? then NOTHING
      else PropsAfter(Target(defs, path).value, defs, budget - 1)
    case Inner(step, parts) =>
      match KeywordOf(node.fields)
      case None =>
        SizeOfMember(node.fields, "properties");
        if Has(node.fields, "properties") then MembersAfter(Lookup(node.fields, "properties").value, defs, budget)
        else NOTHING
      case Some(_) => Over(OutlineOf(PropsOf(node)), BranchPropsAfter(parts, defs, Less(budget, step)))
  }

  function BranchPropsAfter(branches: seq<Json>, defs: seq<Field>, budget: nat): Outline
    decreases budget, SizeItems(branches), 4
  {
    if branches == [] then NOTHING
    else
      Over(BranchPropsAfter(branches[..|branches| - 1], defs, budget),
           PropsAfter(branches[|branches| - 1], defs, budget))
  }

  // ----- outlines of the objects that resolution builds -----

  lemma InKeys(fs: seq<Field>, k: string)
    ensures k in Keys(fs) <==> Has(fs, k)
  {
    LookupIsMember(fs, k);
  }

  lemma SameOutline(fs: seq<Field>, o: Outline)
    requires o.dirty <= o.keys
    requires forall k :: Has(fs, k) <==> k in o.keys
    requires forall k | k in o.keys :: CleanAt(fs, k) <==> k !in o.dirty
    ensures OutlineOf(fs) == o
  {
    hide CleanAt;
    forall k { InKeys(fs, k); }
  }

  lemma OutlineAt(fs: seq<Field>, k: string)
    ensures k in OutlineOf(fs).keys <==> Has(fs, k)
    ensures k in OutlineOf(fs).dirty <==> Has(fs, k) && !CleanAt(fs, k)
  {
    hide CleanAt;
    InKeys(fs, k);
  }

  /** Members inserted over others. */
  lemma OutlinePutAll(fs: seq<Field>, more: seq<Field>)
    ensures OutlineOf(PutAll(fs, more)) == Over(OutlineOf(fs), OutlineOf(more))
  {
    hide OutlineOf, PutAll, RefFree;
    var o := Over(OutlineOf(fs), OutlineOf(more));
    forall k
      ensures Has(PutAll(fs, more), k) <==> k in o.keys
      ensures k in o.dirty <==> k in o.keys && !CleanAt(PutAll(fs, more), k)
    {
      LookupPutAll(fs, more, k);
      OutlineAt(fs, k);
      OutlineAt(more, k);
    }
    SameOutline(PutAll(fs, more), o);
  }

  /** Members that only fill gaps. */
  lemma OutlineFillGaps(fs: seq<Field>, more: seq<Field>)
    requires DistinctKeys(more)
    ensures OutlineOf(FillGaps(fs, more)) == Over(OutlineOf(more), OutlineOf(fs))
  {
    hide OutlineOf, FillGaps, RefFree;
    var o := Over(OutlineOf(more), OutlineOf(fs));
    forall k
      ensures Has(FillGaps(fs, more), k) <==> k in o.keys
      ensures k in o.dirty <==> k in o.keys && !CleanAt(FillGaps(fs, more), k)
    {
      LookupFillGaps(fs, more, k);
      OutlineAt(fs, k);
      OutlineAt(more, k);
    }
    SameOutline(FillGaps(fs, more), o);
  }

  lemma OutlinePut(fs: seq<Field>, k: string, v: Json)
    requires k != "$ref"
    ensures OutlineOf(Put(fs, k, v)) == Over(OutlineOf(fs), Single(k, RefFree(v)))
  {
    hide OutlineOf, Put, RefFree;
    var o := Over(OutlineOf(fs), Single(k, RefFree(v)));
    forall j
      ensures Has(Put(fs, k, v), j) <==> j in o.keys
      ensures j in o.dirty <==> j in o.keys && !CleanAt(Put(fs, k, v), j)
    {
      LookupPut(fs, k, v, j);
      OutlineAt(fs, j);
    }
    SameOutline(Put(fs, k, v), o);
  }

  lemma OutlineRemove(fs: seq<Field>, k: string)
    ensures OutlineOf(Remove(fs, k)) == Without(OutlineOf(fs), {k})
  {
    hide OutlineOf, Remove, RefFree;
    var o := Without(OutlineOf(fs), {k});
    forall j
      ensures Has(Remove(fs, k), j) <==> j in o.keys
      ensures j in o.dirty <==> j in o.keys && !CleanAt(Remove(fs, k), j)
    {
      LookupRemove(fs, k, j);
      OutlineAt(fs, j);
    }
    SameOutline(Remove(fs, k), o);
  }

  /** With distinct keys an object is free of references exactly when its outline is clean. */
  lemma CleanOutline(fs: seq<Field>)
    requires DistinctKeys(fs)
    ensures RefFree(Obj(fs)) <==> OutlineOf(fs).dirty == {}
  {
    if OutlineOf(fs).dirty == {} {
      OutlineAt(fs, "$ref");
      forall f | f in fs
        ensures RefFree(f.value)
      {
        LookupDistinct(fs, f);
        OutlineAt(fs, f.key);
      }
    }
    if RefFree(Obj(fs)) {
      forall k
        ensures k !in OutlineOf(fs).dirty
      {
        LookupIsMember(fs, k);
        OutlineAt(fs, k);
      }
    }
  }

  // ----- keys stay distinct -----

  lemma {:induction false} PutDistinct(fs: seq<Field>, k: string, v: Json)
    requires DistinctKeys(fs)
    ensures DistinctKeys(Put(fs, k, v))
  {
    if Has(fs, k) {
      OverwriteKeys(fs, k, v);
    } else {
      LookupIsMember(fs, k);
    }
  }

  lemma {:induction false} OverwriteKeys(fs: seq<Field>, k: string, v: Json)
    requires Has(fs, k)
    ensures |Overwrite(fs, k, v)| == |fs|
    ensures forall i :: 0 <= i < |fs| ==> Overwrite(fs, k, v)[i].key == fs[i].key
  {
    if fs[|fs| - 1].key != k {
      OverwriteKeys(fs[..|fs| - 1], k, v);
    }
  }

  lemma {:induction false} PutAllDistinct(fs: seq<Field>, more: seq<Field>)
    requires DistinctKeys(fs)
    ensures DistinctKeys(PutAll(fs, more)) && DistinctKeys(FillGaps(fs, more))
  {
    if more != [] {
      var init, last := more[..|more| - 1], more[|more| - 1];
      PutAllDistinct(fs, init);
      PutDistinct(PutAll(fs, init), last.key, last.value);
      PutDistinct(FillGaps(fs, init), last.key, last.value);
    }
  }

  lemma {:induction false} UnionPropsDistinct(branches: seq<Json>)
    ensures DistinctKeys(UnionProps(branches))
  {
    if branches != [] {
      UnionPropsDistinct(branches[..|branches| - 1]);
      PutAllDistinct(UnionProps(branches[..|branches| - 1]), PropsOf(branches[|branches| - 1]));
    }
  }

  lemma {:induction false} CarryOverDistinct(result: seq<Field>, obj: seq<Field>, keyword: string)
    requires DistinctKeys(result)
    ensures DistinctKeys(CarryOver(result, obj, keyword))
  {
    if obj != [] {
      var init, last := obj[..|obj| - 1], obj[|obj| - 1];
      CarryOverDistinct(result, init, keyword);
      PutDistinct(CarryOver(result, init, keyword), last.key, last.value);
    }
  }

  lemma MergedPropsDistinct(obj: seq<Field>, branches: seq<Json>)
    ensures DistinctKeys(MergedProps(obj, branches))
  {
    UnionPropsDistinct(branches);
    PutAllDistinct(UnionProps(branches), FieldsOf(Lookup(obj, "properties")));
  }

  lemma MergedDistinct(keyword: string, obj: seq<Field>, branches: seq<Json>)
    ensures DistinctKeys(Merged(keyword, obj, branches).fields)
  {
    hide MergedProps, MergedRequired, CarryOver;
    CarryOverDistinct([Field("properties", Obj(MergedProps(obj, branches))),
                       Field("required", Arr(MergedRequired(keyword, obj, branches)))], obj, keyword);
  }

  lemma MergedPropsMember(keyword: string, obj: seq<Field>, branches: seq<Json>)
    requires DistinctKeys(obj) && keyword != "properties" && keyword != "required"
    ensures Lookup(Merged(keyword, obj, branches).fields, "properties") == Some(Obj(MergedProps(obj, branches)))
    ensures Lookup(Merged(keyword, obj, branches).fields, "required") ==
            Some(Arr(MergedRequired(keyword, obj, branches)))
  {
    hide MergedProps, MergedRequired, CarryOver;
    var first := [Field("properties", Obj(MergedProps(obj, branches))),
                  Field("required", Arr(MergedRequired(keyword, obj, branches)))];
    assert first[..1] == [first[0]];
    assert Lookup(first, "properties") == Lookup(first[..1], "properties");
    CarryOverLookup(first, obj, keyword, "properties");
    CarryOverLookup(first, obj, keyword, "required");
  }

  lemma CompositionParts(node: Json)
    requires ShapeOf(node).Inner? && WellFormed(node) && KeywordOf(node.fields).Some?
    ensures !Has(node.fields, "$ref") && DistinctKeys(PropsOf(Obj(node.fields)))
    ensures KeywordOf(node.fields).value !in {"properties", "required"}
  {
    LookupIsMember(node.fields, "properties");
  }

  // ----- the outline of a merge -----

  /** The outline of the merged properties, from those of the branches and of the node. */
  lemma OutlineMergedProps(obj: seq<Field>, branches: seq<Json>)
    requires DistinctKeys(PropsOf(Obj(obj)))
    ensures OutlineOf(MergedProps(obj, branches)) ==
            Over(OutlineOf(PropsOf(Obj(obj))), OutlineOf(UnionProps(branches)))
  {
    hide OutlineOf, FillGaps, UnionProps;
    OutlineFillGaps(UnionProps(branches), PropsOf(Obj(obj)));
  }

  lemma OutlineMerged(keyword: string, obj: seq<Field>, branches: seq<Json>)
    requires DistinctKeys(obj) && !Has(obj, "$ref") && keyword != "properties" && keyword != "required"
    ensures OutlineOf(Merged(keyword, obj, branches).fields) ==
            Over(Without(OutlineOf(obj), {keyword}),
                 Outline({"properties", "required"},
                         if OutlineOf(MergedProps(obj, branches)).dirty == {} then {} else {"properties"}))
  {
    hide OutlineOf, Merged, MergedProps, MergedRequired, RefFree;
    var out := Merged(keyword, obj, branches).fields;
    var props := MergedProps(obj, branches);
    var o := Over(Without(OutlineOf(obj), {keyword}),
                  Outline({"properties", "required"}, if OutlineOf(props).dirty == {} then {} else {"properties"}));
    MergedPropsDistinct(obj, branches);
    CleanOutline(props);
    MergedPropsMember(keyword, obj, branches);
    ArrayIsFree(MergedRequired(keyword, obj, branches));
    forall k
      ensures Has(out, k) <==> k in o.keys
      ensures k in o.dirty <==> k in o.keys && !CleanAt(out, k)
    {
      MergedMembers(keyword, obj, branches, k);
      OutlineAt(obj, k);
    }
    SameOutline(out, o);
  }

  lemma ArrayIsFree(items: seq<Json>)
    ensures RefFree(Arr(items))
  {
  }

  /**
   One merge leaves no reference exactly when the members copied from beside the keyword hold none, and
   neither does the winner of each property: its last branch, or the node where no branch declares it.
   */
  lemma MergedFreeExactly(keyword: string, obj: seq<Field>, branches: seq<Json>)
    requires DistinctKeys(obj) && DistinctKeys(PropsOf(Obj(obj))) && !Has(obj, "$ref")
    requires keyword != "properties" && keyword != "required"
    ensures RefFree(Merged(keyword, obj, branches)) <==>
            && OutlineOf(obj).dirty <= {keyword, "properties", "required"}
            && Over(OutlineOf(PropsOf(Obj(obj))), OutlineOf(UnionProps(branches))).dirty == {}
  {
    hide OutlineOf, Merged, RefFree, UnionProps, MergedProps;
    MergedDistinct(keyword, obj, branches);
    CleanOutline(Merged(keyword, obj, branches).fields);
    OutlineMerged(keyword, obj, branches);
    OutlineMergedProps(obj, branches);
  }

  // ----- resolution gives what was foretold -----

  predicate DistinctTop(v: Json) {
    v.Obj? ==> DistinctKeys(v.fields)
  }

  /** The resolved value has the outlines read off the unresolved schema. */
  ghost predicate AsForetold(node: Json, defs: seq<Field>, budget: nat, v: Json) {
    && DistinctTop(v)
    && OutlineOf(FieldsOf(Some(v))) == MembersAfter(node, defs, budget)
    && OutlineOf(PropsOf(v)) == PropsAfter(node, defs, budget)
  }

  lemma {:induction false} Foretold(node: Json, defs: seq<Field>, budget: nat)
    requires WellFormed(node) && AllWellFormed(defs) && Expand(node, defs, budget).Some?
    ensures AsForetold(node, defs, budget, Expand(node, defs, budget).value)
    decreases budget, Size(node), 1
  {
    hide Target, WellFormed, OutlineOf, RefFree, Merged, Rebuild, ExpandItems, FieldsAfter, BranchPropsAfter;
    var shape := ShapeOf(node);
    if shape.Leaf? {
      assert OutlineOf([]) == NOTHING by { SameOutline([], NOTHING); }
    } else if shape.Ref? {
      TargetWellFormed(defs, shape.path);
      Foretold(Target(defs, shape.path).value, defs, budget - 1);
    } else {
      PartsWellFormed(node);
      match KeywordOf(node.fields)
      case Some(keyword) => ForetoldComposition(node, defs, budget);
      case None => ForetoldPlain(node, defs, budget);
    }
  }

  lemma {:induction false} ForetoldComposition(node: Json, defs: seq<Field>, budget: nat)
    requires WellFormed(node) && AllWellFormed(defs) && Expand(node, defs, budget).Some?
    requires ShapeOf(node).Inner? && KeywordOf(node.fields).Some?
    ensures AsForetold(node, defs, budget, Expand(node, defs, budget).value)
    decreases budget, Size(node), 0
  {
    hide OutlineOf, WellFormed, RefFree, Merged, MergedProps, ExpandItems, BranchPropsAfter, UnionProps;
    PartsWellFormed(node);
    CompositionParts(node);
    var obj, keyword, left := node.fields, KeywordOf(node.fields).value, Less(budget, ShapeOf(node).step);
    var branches := ExpandItems(ShapeOf(node).parts, defs, left).value;
    ForetoldBranches(ShapeOf(node).parts, defs, left);
    OutlineMergedProps(obj, branches);
    OutlineMerged(keyword, obj, branches);
    MergedDistinct(keyword, obj, branches);
    MergedMembers(keyword, obj, branches, "");
    assert node == Obj(obj);
    assert OutlineOf(PropsOf(Merged(keyword, obj, branches))) == PropsAfter(node, defs, budget);
  }

  lemma {:induction false} ForetoldBranches(branches: seq<Json>, defs: seq<Field>, budget: nat)
    requires (forall x | x in branches :: WellFormed(x)) && AllWellFormed(defs)
    requires ExpandItems(branches, defs, budget).Some?
    ensures OutlineOf(UnionProps(ExpandItems(branches, defs, budget).value)) ==
            BranchPropsAfter(branches, defs, budget)
    decreases budget, SizeItems(branches), 2
  {
    hide OutlineOf, WellFormed, Expand, PropsAfter, MembersAfter, PutAll, PropsOf;
    if branches == [] {
      SameOutline([], NOTHING);
    } else {
      var init, last := branches[..|branches| - 1], branches[|branches| - 1];
      ForetoldBranches(init, defs, budget);
      Foretold(last, defs, budget);
      var done, v := ExpandItems(init, defs, budget).value, Expand(last, defs, budget).value;
      assert (done + [v])[..|done|] == done;
      OutlinePutAll(UnionProps(done), PropsOf(v));
    }
  }

  lemma {:induction false} ForetoldPlain(node: Json, defs: seq<Field>, budget: nat)
    requires WellFormed(node) && AllWellFormed(defs) && Expand(node, defs, budget).Some?
    requires ShapeOf(node).Inner? && KeywordOf(node.fields).None?
    ensures AsForetold(node, defs, budget, Expand(node, defs, budget).value)
    decreases budget, Size(node), 0
  {
    hide OutlineOf, WellFormed, RefFree, Rebuild, ExpandItems, FieldsAfter, Expand;
    var fs := node.fields;
    MembersWellFormed(node);
    PlainParts(node, defs, budget);
    ForetoldFields(fs, defs, budget);
    RebuildLookup(fs, defs, budget, "properties");
    RebuildDistinct(fs, ExpandItems(Values(fs), defs, budget).value);
    if Has(fs, "properties") {
      SizeOfMember(fs, "properties");
      LookupIsMember(fs, "properties");
      Foretold(Lookup(fs, "properties").value, defs, budget);
    } else {
      SameOutline([], NOTHING);
    }
  }

  lemma PlainParts(node: Json, defs: seq<Field>, budget: nat)
    requires ShapeOf(node).Inner? && KeywordOf(node.fields).None?
    ensures ShapeOf(node) == Inner(0, Values(node.fields)) && !Has(node.fields, "$ref")
    ensures Expand(node, defs, budget).Some? <==> ExpandItems(Values(node.fields), defs, budget).Some?
    ensures Expand(node, defs, budget).Some? ==>
              Expand(node, defs, budget).value ==
              Obj(Rebuild(node.fields, ExpandItems(Values(node.fields), defs, budget).value))
  {
    hide ExpandItems, Rebuild;
  }

  lemma MembersWellFormed(node: Json)
    requires WellFormed(node) && node.Obj?
    ensures DistinctKeys(node.fields) && forall f | f in node.fields :: WellFormed(f.value)
  {
  }

  lemma {:induction false} RebuildDistinct(fs: seq<Field>, values: seq<Json>)
    requires |fs| == |values|
    ensures DistinctKeys(Rebuild(fs, values))
  {
    if fs != [] {
      RebuildDistinct(fs[..|fs| - 1], values[..|fs| - 1]);
      PutDistinct(Rebuild(fs[..|fs| - 1], values[..|fs| - 1]), fs[|fs| - 1].key, values[|fs| - 1]);
    }
  }

  lemma {:induction false} ForetoldFields(fs: seq<Field>, defs: seq<Field>, budget: nat)
    requires (forall f | f in fs :: WellFormed(f.value)) && AllWellFormed(defs) && !Has(fs, "$ref")
    requires ExpandItems(Values(fs), defs, budget).Some?
    ensures OutlineOf(Rebuild(fs, ExpandItems(Values(fs), defs, budget).value)) == FieldsAfter(fs, defs, budget)
    decreases budget, SizeFields(fs), 2
  {
    hide OutlineOf, WellFormed, Expand, PropsAfter, MembersAfter, Put, RefFree;
    if fs == [] {
      SameOutline([], NOTHING);
    } else {
      var init, last := fs[..|fs| - 1], fs[|fs| - 1];
      assert Values(fs)[..|fs| - 1] == Values(init);
      ForetoldFields(init, defs, budget);
      Foretold(last.value, defs, budget);
      var done, v := ExpandItems(Values(init), defs, budget).value, Expand(last.value, defs, budget).value;
      assert (done + [v])[..|done|] == done;
      OutlinePut(Rebuild(init, done), last.key, v);
      CleanValue(v);
    }
  }

  lemma CleanValue(v: Json)
    requires DistinctTop(v)
    ensures RefFree(v) <==> OutlineOf(FieldsOf(Some(v))).dirty == {}
  {
    if v.Obj? {
      CleanOutline(v.fields);
    }
  }

  /** A resolved node has no `$ref` key outside arrays exactly when its foretold outline is clean. */
  lemma NoRefLeftExactly(node: Json, defs: seq<Field>, budget: nat)
    requires WellFormed(node) && AllWellFormed(defs) && Expand(node, defs, budget).Some?
    ensures RefFree(Expand(node, defs, budget).value) <==> MembersAfter(node, defs, budget).dirty == {}
  {
    hide OutlineOf, RefFree, MembersAfter, WellFormed;
    Foretold(node, defs, budget);
    CleanValue(Expand(node, defs, budget).value);
  }

  // ----- exactly when every reference is inlined -----

  const DEFINITION_KEYS := {"$defs", "definitions"}

  /** What remains at the top once the definitions are stripped holds no reference. */
  predicate InlinesAll(schema: Json, maxDepth: nat) {
    MembersAfter(schema, DefsOf(schema), maxDepth).dirty <= DEFINITION_KEYS
  }

  lemma {:induction false} RemoveDistinct(fs: seq<Field>, k: string)
    requires DistinctKeys(fs)
    ensures DistinctKeys(Remove(fs, k)) && forall f | f in Remove(fs, k) :: f in fs
  {
    if fs != [] {
      var init, last := fs[..|fs| - 1], fs[|fs| - 1];
      RemoveDistinct(init, k);
      assert forall f | f in init :: f.key != last.key;
      assert fs == init + [last];
      assert forall f | f in Remove(init, k) :: f.key != last.key;
    }
  }

  lemma WithoutBoth(o: Outline, a: string, b: string)
    ensures Without(Without(o, {a}), {b}) == Without(o, {a, b})
  {
  }

  lemma StrippedOutline(v: Json)
    requires v.Obj? && DistinctTop(v)
    ensures Strip(v).Obj? && DistinctTop(Strip(v))
    ensures OutlineOf(Strip(v).fields) == Without(OutlineOf(v.fields), DEFINITION_KEYS)
  {
    hide OutlineOf, Remove, DistinctKeys, RefFree, Without;
    WithoutBoth(OutlineOf(v.fields), "$defs", "definitions");
    RemoveDistinct(v.fields, "$defs");
    RemoveDistinct(Remove(v.fields, "$defs"), "definitions");
    OutlineRemove(v.fields, "$defs");
    OutlineRemove(Remove(v.fields, "$defs"), "definitions");
  }

  /** The result of `resolve_refs` has no `$ref` key outside arrays exactly when the schema foretells none. */
  lemma AllRefsInlinedExactly(schema: Json, maxDepth: nat)
    requires WellFormed(schema) && ResolveRefs(schema, maxDepth).Ok?
    ensures RefFree(ResolveRefs(schema, maxDepth).value) <==> InlinesAll(schema, maxDepth)
  {
    hide OutlineOf, RefFree, Strip, DefsOf, MembersAfter, Resolve, WellFormed;
    var defs := DefsOf(schema);
    DefsWellFormed(schema);
    ResolvedIsExpanded(schema, defs, maxDepth, {});
    Foretold(schema, defs, maxDepth);
    var v := Expand(schema, defs, maxDepth).value;
    if v.Obj? {
      StrippedOutline(v);
      CleanValue(Strip(v));
    } else {
      NotAnObject(v);
    }
  }

  lemma NotAnObject(v: Json)
    requires !v.Obj?
    ensures RefFree(Strip(v)) && OutlineOf(FieldsOf(Some(v))) == NOTHING
  {
    SameOutline([], NOTHING);
  }

  // ----- a simpler condition that suffices -----

  /** At every composition reached from the node, the members beside the keyword contain no reference outside arrays. */
  ghost predicate SiblingsFree(node: Json, defs: seq<Field>, budget: nat)
    decreases budget, Size(node), 1
  {
    match ShapeOf(node)
    case Leaf => true
    case Ref(path) =>
      budget > 0 && Target(defs, path).Some? ==> SiblingsFree(Target(defs, path).value, defs, budget - 1)
    case Inner(step, parts) =>
      && SiblingsFreeInItems(parts, defs, Less(budget, step))
      && (KeywordOf(node.fields).Some? ==>
            forall f | f in node.fields && f.key != KeywordOf(node.fields).value :: RefFree(f.value))
  }

  ghost predicate SiblingsFreeInItems(items: seq<Json>, defs: seq<Field>, budget: nat)
    decreases budget, SizeItems(items), 2
  {
    items != [] ==>
      && SiblingsFreeInItems(items[..|items| - 1], defs, budget)
      && SiblingsFree(items[|items| - 1], defs, budget)
  }

  lemma {:induction false} FreeSiblingsLeaveNone(node: Json, defs: seq<Field>, budget: nat)
    requires SiblingsFree(node, defs, budget)
    ensures MembersAfter(node, defs, budget).dirty == {} && PropsAfter(node, defs, budget).dirty == {}
    decreases budget, Size(node), 1
  {
    hide Target, RefFree, OutlineOf, FieldsAfter, BranchPropsAfter, SiblingsFreeInItems;
    var shape := ShapeOf(node);
    if shape.Ref? {
      if budget > 0 && Target(defs, shape.path).Some? {
        FreeSiblingsLeaveNone(Target(defs, shape.path).value, defs, budget - 1);
      }
    } else if shape.Inner? {
      match KeywordOf(node.fields)
      case Some(keyword) =>
        FreeSiblingsInBranches(shape.parts, defs, Less(budget, shape.step));
        FreeObject(node.fields, keyword);
      case None =>
        FreeSiblingsInFields(node.fields, defs, budget);
        if Has(node.fields, "properties") {
          SizeOfMember(node.fields, "properties");
          FieldSiblings(node.fields, defs, budget, "properties");
          FreeSiblingsLeaveNone(Lookup(node.fields, "properties").value, defs, budget);
        }
    }
  }

  lemma {:induction false} FreeSiblingsInBranches(items: seq<Json>, defs: seq<Field>, budget: nat)
    requires SiblingsFreeInItems(items, defs, budget)
    ensures BranchPropsAfter(items, defs, budget).dirty == {}
    decreases budget, SizeItems(items), 2
  {
    hide SiblingsFree, PropsAfter, MembersAfter;
    if items != [] {
      FreeSiblingsInBranches(items[..|items| - 1], defs, budget);
      FreeSiblingsLeaveNone(items[|items| - 1], defs, budget);
    }
  }

  lemma {:induction false} FreeSiblingsInFields(fs: seq<Field>, defs: seq<Field>, budget: nat)
    requires SiblingsFreeInItems(Values(fs), defs, budget)
    ensures FieldsAfter(fs, defs, budget).dirty == {}
    decreases budget, SizeFields(fs), 2
  {
    hide SiblingsFree, PropsAfter, MembersAfter;
    if fs != [] {
      assert Values(fs)[..|fs| - 1] == Values(fs[..|fs| - 1]);
      FreeSiblingsInFields(fs[..|fs| - 1], defs, budget);
      FreeSiblingsLeaveNone(fs[|fs| - 1].value, defs, budget);
    }
  }

  lemma {:induction false} FieldSiblings(fs: seq<Field>, defs: seq<Field>, budget: nat, k: string)
    requires SiblingsFreeInItems(Values(fs), defs, budget) && Has(fs, k)
    ensures SiblingsFree(Lookup(fs, k).value, defs, budget)
  {
    hide SiblingsFree;
    assert Values(fs)[..|fs| - 1] == Values(fs[..|fs| - 1]);
    if fs[|fs| - 1].key != k {
      FieldSiblings(fs[..|fs| - 1], defs, budget, k);
    }
  }

  /** An object free of references beside the keyword, and the properties it declares. */
  lemma FreeObject(obj: seq<Field>, keyword: string)
    requires !Has(obj, "$ref") && KeywordOf(obj) == Some(keyword)
    requires forall f | f in obj && f.key != keyword :: RefFree(f.value)
    ensures OutlineOf(obj).dirty <= {keyword} && OutlineOf(PropsOf(Obj(obj))).dirty == {}
  {
    hide RefFree, OutlineOf;
    forall k
      ensures k in OutlineOf(obj).dirty ==> k == keyword
    {
      OutlineAt(obj, k);
      LookupIsMember(obj, k);
    }
    LookupIsMember(obj, "properties");
    if PropsOf(Obj(obj)) == [] {
      SameOutline([], NOTHING);
    } else {
      forall k
        ensures k !in OutlineOf(PropsOf(Obj(obj))).dirty
      {
        OutlineAt(PropsOf(Obj(obj)), k);
        if Has(PropsOf(Obj(obj)), k) {
          FreeMember(Lookup(obj, "properties").value, k);
        }
      }
    }
  }

  lemma FreeMember(v: Json, k: string)
    requires RefFree(v) && v.Obj? && Has(v.fields, k)
    ensures CleanAt(v.fields, k)
  {
    LookupIsMember(v.fields, k);
  }

  /** With clean siblings at every composition reached, a resolved value has no `$ref` key outside arrays. */
  lemma NoRefLeft(node: Json, defs: seq<Field>, budget: nat)
    requires WellFormed(node) && AllWellFormed(defs) && Expand(node, defs, budget).Some?
    requires SiblingsFree(node, defs, budget)
    ensures RefFree(Expand(node, defs, budget).value)
  {
    hide RefFree, MembersAfter, SiblingsFree, WellFormed;
    FreeSiblingsLeaveNone(node, defs, budget);
    NoRefLeftExactly(node, defs, budget);
  }

  lemma WithoutOver(a: Outline, b: Outline, names: set<string>)
    ensures Without(Over(a, b), names) == Over(Without(a, names), Without(b, names))
    ensures Over(a, NOTHING) == a
  {
  }

  lemma {:induction false} FieldsAfterRemove(fs: seq<Field>, defs: seq<Field>, budget: nat, k: string)
    ensures FieldsAfter(Remove(fs, k), defs, budget) == Without(FieldsAfter(fs, defs, budget), {k})
  {
    hide MembersAfter, Over;
    if fs != [] {
      var init, last := fs[..|fs| - 1], fs[|fs| - 1];
      var own := Single(last.key, MembersAfter(last.value, defs, budget).dirty == {});
      FieldsAfterRemove(init, defs, budget, k);
      WithoutOver(FieldsAfter(init, defs, budget), own, {k});
      WithoutOver(FieldsAfter(Remove(init, k), defs, budget), own, {});
      assert Without(own, {k}) == if last.key == k then NOTHING else own;
      if last.key == k {
        assert Remove(fs, k) == Remove(init, k);
      } else {
        assert Remove(fs, k)[..|Remove(fs, k)| - 1] == Remove(init, k);
      }
    }
  }

  lemma StrippedPlain(schema: Json, defs: seq<Field>, budget: nat)
    requires schema.Obj? && KeywordOf(schema.fields).None? && !Has(schema.fields, "$ref")
    ensures Strip(schema).Obj? && !Has(Strip(schema).fields, "$ref") && KeywordOf(Strip(schema).fields).None?
    ensures FieldsAfter(Strip(schema).fields, defs, budget) ==
            Without(FieldsAfter(schema.fields, defs, budget), DEFINITION_KEYS)
  {
    hide FieldsAfter, Remove, Without, Lookup;
    WithoutBoth(FieldsAfter(schema.fields, defs, budget), "$defs", "definitions");
    forall k | k in {"$ref", "allOf", "anyOf", "oneOf"} { StrippedMember(schema, k); }
    FieldsAfterRemove(schema.fields, defs, budget, "$defs");
    FieldsAfterRemove(Remove(schema.fields, "$defs"), defs, budget, "definitions");
  }

  lemma StrippedComposition(schema: Json, defs: seq<Field>, budget: nat)
    requires schema.Obj? && DistinctTop(schema) && KeywordOf(schema.fields).Some? && !Has(schema.fields, "$ref")
    ensures Strip(schema).Obj? && !Has(Strip(schema).fields, "$ref")
    ensures KeywordOf(Strip(schema).fields) == KeywordOf(schema.fields)
    ensures PropsAfter(Strip(schema), defs, budget) == PropsAfter(schema, defs, budget)
    ensures OutlineOf(Strip(schema).fields) == Without(OutlineOf(schema.fields), DEFINITION_KEYS)
  {
    hide OutlineOf, Remove, Without, BranchPropsAfter, DistinctKeys, RefFree, Lookup;
    forall k | k in {"$ref", "allOf", "anyOf", "oneOf", "properties"} { StrippedMember(schema, k); }
    StrippedOutline(schema);
  }

  /** Taking the definitions out before or after resolution leaves the same references at the top. */
  lemma StrippedBefore(schema: Json, defs: seq<Field>, budget: nat)
    requires WellFormed(schema)
    ensures MembersAfter(schema, defs, budget).dirty <=
            MembersAfter(Strip(schema), defs, budget).dirty + DEFINITION_KEYS
  {
    hide OutlineOf, FieldsAfter, PropsAfter, Strip, WellFormed, RefFree, Target;
    if schema.Obj? {
      MembersWellFormed(schema);
      StrippedMember(schema, "$ref");
      if Has(schema.fields, "$ref") {
        assert ShapeOf(Strip(schema)) == ShapeOf(schema);
      } else if KeywordOf(schema.fields).None? {
        StrippedPlain(schema, defs, budget);
      } else {
        StrippedComposition(schema, defs, budget);
      }
    }
  }

  /** No reference is left if, definitions aside, nothing beside a composition keyword contains one. */
  lemma AllRefsInlined(schema: Json, maxDepth: nat)
    requires WellFormed(schema) && ResolveRefs(schema, maxDepth).Ok?
    requires SiblingsFree(Strip(schema), DefsOf(schema), maxDepth)
    ensures RefFree(ResolveRefs(schema, maxDepth).value)
  {
    hide SiblingsFree, RefFree, Strip, DefsOf, MembersAfter, ResolveRefs, WellFormed;
    FreeSiblingsLeaveNone(Strip(schema), DefsOf(schema), maxDepth);
    StrippedBefore(schema, DefsOf(schema), maxDepth);
    AllRefsInlinedExactly(schema, maxDepth);
  }

  /**
   The documented aim of inlining every reference fails for a resolvable reference beside an allOf:
   resolution succeeds, keeps it, and strips the definitions it needs.
   */
  lemma ReferenceBesideAllOf(name: string, def: Json, maxDepth: nat)
    returns (schema: Json)
    requires '/' !in name
    ensures Target(DefsOf(schema), "#/$defs/" + name) == Some(def)
    ensures ResolveRefs(schema, maxDepth).Ok?
    ensures var v := ResolveRefs(schema, maxDepth).value;
            v.Obj? && !Has(v.fields, "$defs") && !RefFree(v)
  {
    hide Merged, RefFree, Resolve;
    var reference := Obj([Field("$ref", Str("#/$defs/" + name))]);
    var a, b, c := Field("$defs", Obj([Field(name, def)])), Field("allOf", Arr([])), Field("items", reference);
    schema := Obj([a, b, c]);
    LookupInThree(a, b, c, "$ref");
    LookupInThree(a, b, c, "allOf");
    LookupInThree(a, b, c, "$defs");
    LookupInThree(a, b, c, "items");
    LastOfPath("#/$defs", name);
    assert "#/$defs/" + name == "#/$defs" + "/" + name;
    var merged := Merged("allOf", schema.fields, []);
    EmptyAllOf(schema, DefsOf(schema), maxDepth);
    MergedMembers("allOf", schema.fields, [], "items");
    StrippedMember(merged, "items");
    StrippedMember(merged, "$defs");
    LookupIsMember(Strip(merged).fields, "items");
    HasRef(Strip(merged), Field("items", reference));
  }

  lemma EmptyAllOf(node: Json, defs: seq<Field>, budget: nat)
    requires node.Obj? && !Has(node.fields, "$ref") && Lookup(node.fields, "allOf") == Some(Arr([]))
    ensures Resolve(node, defs, budget, {}) == Ok(Merged("allOf", node.fields, []))
  {
    hide Merged;
  }

  lemma LastOfPath(prefix: string, name: string)
    requires '/' !in name
    ensures Text.LastSegment(prefix + "/" + name) == name
  {
    Text.SplitMiddle(prefix, name, '/');
    Text.SplitAt(name, [], '/', false);
    assert prefix + "/" + name == prefix + (['/'] + name);
  }

  lemma HasRef(v: Json, f: Field)
    requires v.Obj? && f in v.fields && f.value.Obj? && Has(f.value.fields, "$ref")
    ensures !RefFree(v)
  {
  }
}
