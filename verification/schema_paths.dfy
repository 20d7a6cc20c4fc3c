/**
 What resolution (src/ref_resolver.rs) puts at any path of a schema, read off the unresolved schema
 without building the resolved one.
 */
module SchemaPaths {
  import opened Json
  import opened RefResolver
  import opened RefSubstitution
  import opened Composition
  import opened ResolvedSchema
  import InlinedRefs

  /** At the end of a path there is nothing, an object, or any other value as it stands. */
  datatype Sight = Absent | Object | Scalar(v: Json)

  function See(v: Json, path: seq<string>): Sight
    decreases |path|, 1
  {
    if v.Obj? then if path == [] then Object else SeeMember(v.fields, path)
    else if path == [] then Scalar(v) else Absent
  }

  function SeeMember(fs: seq<Field>, path: seq<string>): Sight
    requires path != []
    decreases |path|, 0
  {
    if Has(fs, path[0]) then See(Lookup(fs, path[0]).value, path[1..]) else Absent
  }

  function ListSeen(s: Sight): seq<Json> {
    if s.Scalar? && s.v.Arr? then s.v.items else []
  }

  // ----- foretelling -----

  /** What is seen after resolution, from the unresolved node. */
  function SeeAfter(node: Json, defs: seq<Field>, budget: nat, path: seq<string>): Sight
    decreases budget, Size(node), 3
  {
    match ShapeOf(node)
    case Leaf => See(node, path)
    case Ref(reference) =>
      if budget == 0 || Target(defs, reference).None? then Absent
      else SeeAfter(Target(defs, reference).value, defs, budget - 1, path)
    case Inner(step, parts) =>
      if path == [] then Object
      else
        match KeywordOf(node.fields)
        case None =>
          SizeOfMember(node.fields, path[0]);
          if Has(node.fields, path[0]) then SeeAfter(Lookup(node.fields, path[0]).value, defs, budget, path[1..])
          else Absent
        case Some(keyword) =>
          if path == ["properties"] then Object
          else if path[0] == "properties" then
            var seen := SeeInBranches(parts, defs, Less(budget, step), path);
            if seen.Some? then seen.value else See(node, path)
          else if path[0] == "required" then
            var required := MergedRequired(keyword, node.fields, StandIns(parts, defs, Less(budget, step)));
            See(Arr(required), path[1..])
          else if path[0] == keyword then Absent
          else See(node, path)
  }

  /** What the last branch that declares the property `path[1]` will show; none may declare it. */
  function SeeInBranches(branches: seq<Json>, defs: seq<Field>, budget: nat, path: seq<string>): Option<Sight>
    requires |path| >= 2
    decreases budget, SizeItems(branches), 4
  {
    if branches == [] then None
    else
      var last := branches[|branches| - 1];
      if SeeAfter(last, defs, budget, path[..2]) != Absent then Some(SeeAfter(last, defs, budget, path))
      else SeeInBranches(branches[..|branches| - 1], defs, budget, path)
  }

  /** Objects that require what the resolved branches will require. */
  function StandIns(branches: seq<Json>, defs: seq<Field>, budget: nat): seq<Json>
    decreases budget, SizeItems(branches), 4
  {
    if branches == [] then []
    else
      var required := ListSeen(SeeAfter(branches[|branches| - 1], defs, budget, ["required"]));
      StandIns(branches[..|branches| - 1], defs, budget) + [Obj([Field("required", Arr(required))])]
  }

  // ----- a merged `required` list depends on the branches' lists alone -----

  ghost predicate RequireAlike(a: seq<Json>, b: seq<Json>) {
    |a| == |b| && forall i :: 0 <= i < |a| ==> RequiredOf(a[i]) == RequiredOf(b[i])
  }

  lemma {:induction false} UnionAlike(parent: seq<Json>, a: seq<Json>, b: seq<Json>)
    requires RequireAlike(a, b)
    ensures UnionRequired(parent, a) == UnionRequired(parent, b)
  {
    hide RequiredOf;
    if a != [] {
      UnionAlike(parent, a[..|a| - 1], b[..|b| - 1]);
    }
  }

  lemma {:induction false} IntersectionAlike(a: seq<Json>, b: seq<Json>)
    requires RequireAlike(a, b) && a != []
    ensures Intersection(a) == Intersection(b)
  {
    hide RequiredOf, StringSet;
    if |a| > 1 {
      IntersectionAlike(a[..|a| - 1], b[..|b| - 1]);
    }
  }

  lemma MergedAlike(keyword: string, obj: seq<Field>, a: seq<Json>, b: seq<Json>)
    requires RequireAlike(a, b)
    ensures MergedRequired(keyword, obj, a) == MergedRequired(keyword, obj, b)
  {
    hide RequiredOf, UnionRequired, Intersection, KeepIn, CombineRequired;
    UnionAlike(ItemsOf(Lookup(obj, "required")), a, b);
    if a != [] {
      IntersectionAlike(a, b);
    }
  }

  // ----- what is seen in resolved values -----

  lemma RequiredSeen(v: Json)
    ensures RequiredOf(v) == ListSeen(See(v, ["required"]))
  {
    assert ["required"][1..] == [];
  }

  lemma PropsSeen(v: Json, path: seq<string>)
    requires |path| >= 2 && path[0] == "properties"
    ensures See(v, path) == SeeMember(PropsOf(v), path[1..])
  {
    hide Lookup;
    NothingInNone(path[1]);
    if v.Obj? && Has(v.fields, "properties") {
      assert See(v, path) == See(Lookup(v.fields, "properties").value, path[1..]);
    }
  }

  lemma DeclaredSeen(v: Json, path: seq<string>)
    requires |path| >= 2 && path[0] == "properties"
    ensures Has(PropsOf(v), path[1]) <==> See(v, path[..2]) != Absent
  {
    hide Lookup;
    PropsSeen(v, path[..2]);
    assert path[..2][1..] == [path[1]] && path[..2][1..][1..] == [];
  }

  lemma NothingInNone(k: string)
    ensures Lookup([], k) == None
  {
  }

  lemma SomethingSeen(v: Json)
    ensures See(v, []) != Absent
  {
  }

  // ----- resolution shows what was foretold -----

  lemma {:induction false} Foreseen(node: Json, defs: seq<Field>, budget: nat, path: seq<string>)
    requires WellFormed(node) && AllWellFormed(defs) && Expand(node, defs, budget).Some?
    ensures See(Expand(node, defs, budget).value, path) == SeeAfter(node, defs, budget, path)
    decreases budget, Size(node), 1
  {
    hide Target, WellFormed, See, Merged, Rebuild, ExpandItems, SeeInBranches, StandIns;
    var shape := ShapeOf(node);
    if shape.Ref? {
      TargetWellFormed(defs, shape.path);
      Foreseen(Target(defs, shape.path).value, defs, budget - 1, path);
    } else if shape.Inner? {
      if path == [] {
        ObjectSeen(Expand(node, defs, budget).value);
      } else if KeywordOf(node.fields).None? {
        ForeseenInPlain(node, defs, budget, path);
      } else {
        ForeseenInComposition(node, defs, budget, path);
      }
    }
  }

  lemma ObjectSeen(v: Json)
    requires v.Obj?
    ensures See(v, []) == Object
  {
  }

  lemma {:induction false} ForeseenInPlain(node: Json, defs: seq<Field>, budget: nat, path: seq<string>)
    requires WellFormed(node) && AllWellFormed(defs) && Expand(node, defs, budget).Some? && path != []
    requires ShapeOf(node).Inner? && KeywordOf(node.fields).None?
    ensures See(Expand(node, defs, budget).value, path) == SeeAfter(node, defs, budget, path)
    decreases budget, Size(node), 0
  {
    hide WellFormed, Rebuild, ExpandItems, Expand;
    var fs := node.fields;
    PlainExpansion(node, defs, budget);
    RebuildLookup(fs, defs, budget, path[0]);
    if Has(fs, path[0]) {
      SizeOfMember(fs, path[0]);
      MemberWellFormed(node, path[0]);
      Foreseen(Lookup(fs, path[0]).value, defs, budget, path[1..]);
    }
  }

  lemma PlainExpansion(node: Json, defs: seq<Field>, budget: nat)
    requires ShapeOf(node).Inner? && KeywordOf(node.fields).None? && Expand(node, defs, budget).Some?
    ensures ExpandItems(Values(node.fields), defs, budget).Some?
    ensures Expand(node, defs, budget).value ==
            Obj(Rebuild(node.fields, ExpandItems(Values(node.fields), defs, budget).value))
  {
    hide ExpandItems, Rebuild;
  }

  lemma MemberWellFormed(node: Json, k: string)
    requires WellFormed(node) && node.Obj? && Has(node.fields, k)
    ensures WellFormed(Lookup(node.fields, k).value)
  {
    LookupIsMember(node.fields, k);
  }

  lemma {:induction false} ForeseenInComposition(node: Json, defs: seq<Field>, budget: nat, path: seq<string>)
    requires WellFormed(node) && AllWellFormed(defs) && Expand(node, defs, budget).Some? && path != []
    requires ShapeOf(node).Inner? && KeywordOf(node.fields).Some?
    ensures See(Expand(node, defs, budget).value, path) == SeeAfter(node, defs, budget, path)
    decreases budget, Size(node), 0
  {
    hide WellFormed, Merged, MergedRequired, MergedProps, ExpandItems, SeeInBranches, StandIns, UnionProps, Lookup;
    var keyword, obj, left := KeywordOf(node.fields).value, node.fields, Less(budget, ShapeOf(node).step);
    var parts := ShapeOf(node).parts;
    var branches := ExpandItems(parts, defs, left).value;
    var v := Merged(keyword, obj, branches);
    assert Expand(node, defs, budget) == Some(v) && node == Obj(obj);
    PartsWellFormed(node);
    InlinedRefs.CompositionParts(node);
    MergedMembers(keyword, obj, branches, path[0]);
    InlinedRefs.MergedPropsMember(keyword, obj, branches);
    if path[0] == "properties" && |path| >= 2 {
      ForeseenInBranches(parts, defs, left, path);
      PropsSeen(v, path);
      PropsSeen(node, path);
      MergedPropsLookup(obj, branches, path[1]);
    } else if path[0] == "required" {
      StandInsRequire(parts, defs, left);
      MergedAlike(keyword, obj, branches, StandIns(parts, defs, left));
    } else if path[0] == "properties" {
      ObjectSeen(Obj(MergedProps(obj, branches)));
      assert path == ["properties"] && path[1..] == [];
    } else {
      assert See(node, path) == SeeMember(obj, path) && See(v, path) == SeeMember(v.fields, path);
    }
  }

  lemma MergedPropsLookup(obj: seq<Field>, branches: seq<Json>, k: string)
    requires DistinctKeys(PropsOf(Obj(obj)))
    ensures Lookup(MergedProps(obj, branches), k) ==
            if Has(UnionProps(branches), k) then Lookup(UnionProps(branches), k) else Lookup(PropsOf(Obj(obj)), k)
  {
    hide UnionProps, FillGaps;
    LookupFillGaps(UnionProps(branches), PropsOf(Obj(obj)), k);
  }

  lemma {:induction false} ForeseenInBranches(branches: seq<Json>, defs: seq<Field>, budget: nat, path: seq<string>)
    requires (forall x | x in branches :: WellFormed(x)) && AllWellFormed(defs)
    requires ExpandItems(branches, defs, budget).Some? && |path| >= 2 && path[0] == "properties"
    ensures var props := UnionProps(ExpandItems(branches, defs, budget).value);
            SeeInBranches(branches, defs, budget, path) ==
            if Has(props, path[1]) then Some(SeeMember(props, path[1..])) else None
    decreases budget, SizeItems(branches), 2
  {
    hide WellFormed, Expand, SeeAfter, See, PutAll, PropsOf, Lookup;
    if branches == [] {
      NothingInNone(path[1]);
    } else {
      var init, last := branches[..|branches| - 1], branches[|branches| - 1];
      ForeseenInBranches(init, defs, budget, path);
      Foreseen(last, defs, budget, path);
      Foreseen(last, defs, budget, path[..2]);
      var done, v := ExpandItems(init, defs, budget).value, Expand(last, defs, budget).value;
      assert (done + [v])[..|done|] == done;
      PropsSeen(v, path);
      DeclaredSeen(v, path);
      LookupPutAll(UnionProps(done), PropsOf(v), path[1]);
    }
  }

  lemma {:induction false} StandInsRequire(branches: seq<Json>, defs: seq<Field>, budget: nat)
    requires (forall x | x in branches :: WellFormed(x)) && AllWellFormed(defs)
    requires ExpandItems(branches, defs, budget).Some?
    ensures RequireAlike(ExpandItems(branches, defs, budget).value, StandIns(branches, defs, budget))
    decreases budget, SizeItems(branches), 2
  {
    hide WellFormed, Expand, SeeAfter, See, RequiredOf;
    if branches != [] {
      var init, last := branches[..|branches| - 1], branches[|branches| - 1];
      StandInsRequire(init, defs, budget);
      Foreseen(last, defs, budget, ["required"]);
      RequiredSeen(Expand(last, defs, budget).value);
      StandInRequires(ListSeen(SeeAfter(last, defs, budget, ["required"])));
    }
  }

  lemma StandInRequires(required: seq<Json>)
    ensures RequiredOf(Obj([Field("required", Arr(required))])) == required
  {
  }
}
