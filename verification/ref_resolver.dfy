/**
 The `$ref` inliner (src/ref_resolver.rs): its recursion as functions, and the
 step-by-step code with its mutable `visiting` set proved equal to them.
 */
module RefResolver {
  import opened Json
  import opened Text

  datatype RefError = Unresolvable(reference: string) | Circular | MaxDepthExceeded

  datatype Result<+T> = Ok(value: T) | Err(error: RefError)

  const MAX_REF_DEPTH: nat := 32

  // ----- what the resolver does at a node -----

  /**
   The resolver's cases at one node. An inner node has parts to resolve first: the branches of a
   composition, one level deeper, or the members of an ordinary object, at the same depth.
   */
  datatype Shape = Leaf | Ref(path: string) | Inner(step: nat, parts: seq<Json>)

  function ShapeOf(node: Json): (s: Shape)
    ensures s.Inner? ==> node.Obj? && s.step <= 1 && SizeItems(s.parts) < Size(node)
  {
    if !node.Obj? then Leaf
    else if Has(node.fields, "$ref") then Ref(RefPath(Lookup(node.fields, "$ref").value))
    else
      match KeywordOf(node.fields)
      case Some(keyword) =>
        SizeOfMember(node.fields, keyword);
        Inner(1, ItemsOf(Lookup(node.fields, keyword)))
      case None =>
        SizeOfValues(node.fields);
        Inner(0, Values(node.fields))
  }

  function KeywordOf(obj: seq<Field>): (k: Option<string>)
    ensures k.Some? ==> Has(obj, k.value)
  {
    if Has(obj, "allOf") then Some("allOf")
    else if Has(obj, "anyOf") then Some("anyOf")
    else if Has(obj, "oneOf") then Some("oneOf")
    else None
  }

  /** A `$ref` that is not a string reads as the empty path. */
  function RefPath(v: Json): string {
    if v.Str? then v.s else ""
  }

  /** Only the text after the last `/` selects the definition. */
  function Target(defs: seq<Field>, path: string): Option<Json> {
    Lookup(defs, LastSegment(path))
  }

  // ----- composition merging -----

  function PropsOf(v: Json): seq<Field> {
    if v.Obj? then FieldsOf(Lookup(v.fields, "properties")) else []
  }

  function RequiredOf(v: Json): seq<Json> {
    if v.Obj? then ItemsOf(Lookup(v.fields, "required")) else []
  }

  /** Appends the items not yet present, one after the other. */
  function AppendNew(acc: seq<Json>, items: seq<Json>): seq<Json> {
    if items == [] then acc
    else
      var r := AppendNew(acc, items[..|items| - 1]);
      var last := items[|items| - 1];
      if last in r then r else r + [last]
  }

  function UnionProps(branches: seq<Json>): seq<Field> {
    if branches == [] then []
    else PutAll(UnionProps(branches[..|branches| - 1]), PropsOf(branches[|branches| - 1]))
  }

  function UnionRequired(parent: seq<Json>, branches: seq<Json>): seq<Json> {
    if branches == [] then AppendNew([], parent)
    else AppendNew(UnionRequired(parent, branches[..|branches| - 1]), RequiredOf(branches[|branches| - 1]))
  }

  /** The string items, in order. */
  function Strings(items: seq<Json>): seq<string> {
    if items == [] then []
    else
      var last := items[|items| - 1];
      Strings(items[..|items| - 1]) + (if last.Str? then [last.s] else [])
  }

  function StringSet(items: seq<Json>): set<string> {
    set s | s in Strings(items)
  }

  /** The names required by every branch, in the order of the first branch. */
  function SharedRequired(branches: seq<Json>): seq<Json> {
    if branches == [] then []
    else KeepIn(AppendNew([], AsStrings(Strings(RequiredOf(branches[0])))), Intersection(branches))
  }

  function AsStrings(names: seq<string>): seq<Json> {
    seq(|names|, i requires 0 <= i < |names| => Str(names[i]))
  }

  function KeepIn(items: seq<Json>, names: set<string>): seq<Json> {
    if items == [] then []
    else
      var last := items[|items| - 1];
      KeepIn(items[..|items| - 1], names) + (if last.Str? && last.s in names then [last] else [])
  }

  function Intersection(branches: seq<Json>): set<string>
    requires branches != []
  {
    var last := StringSet(RequiredOf(branches[|branches| - 1]));
    if |branches| == 1 then last else Intersection(branches[..|branches| - 1]) * last
  }

  /** The `required` list of an anyOf/oneOf node: the parent's names first, then the shared ones. */
  function CombineRequired(parent: Option<Json>, shared: seq<Json>): seq<Json> {
    if parent.Some? && parent.value.Arr?
    then AppendNew([], AsStrings(Strings(parent.value.items)) + shared)
    else shared
  }

  function MergedRequired(keyword: string, obj: seq<Field>, branches: seq<Json>): seq<Json> {
    if keyword == "allOf" then UnionRequired(ItemsOf(Lookup(obj, "required")), branches)
    else CombineRequired(Lookup(obj, "required"), SharedRequired(branches))
  }

  function MergedProps(obj: seq<Field>, branches: seq<Json>): seq<Field> {
    FillGaps(UnionProps(branches), FieldsOf(Lookup(obj, "properties")))
  }

  /** Members of the node other than the keyword that the merged object does not have yet. */
  function CarryOver(result: seq<Field>, obj: seq<Field>, keyword: string): seq<Field> {
    if obj == [] then result
    else
      var r := CarryOver(result, obj[..|obj| - 1], keyword);
      var last := obj[|obj| - 1];
      if last.key != keyword && !Has(r, last.key) then Put(r, last.key, last.value) else r
  }

  /** The object that replaces a composition node once its branches are resolved. */
  function Merged(keyword: string, obj: seq<Field>, branches: seq<Json>): (r: Json)
    ensures r.Obj?
  {
    Obj(CarryOver(
          [Field("properties", Obj(MergedProps(obj, branches))),
           Field("required", Arr(MergedRequired(keyword, obj, branches)))],
          obj, keyword))
  }

  // ----- the recursion -----

  /** Depth left before the limit, never below zero: composition may pass the limit, `$ref` may not. */
  function Remaining(depth: nat, maxDepth: nat): nat {
    if depth < maxDepth then maxDepth - depth else 0
  }

  function Less(budget: nat, step: nat): nat {
    if budget < step then 0 else budget - step
  }

  /** The value that replaces an inner node once its parts are resolved. */
  function Assemble(node: Json, parts: seq<Json>): Json
    requires ShapeOf(node).Inner? && |parts| == |ShapeOf(node).parts|
  {
    match KeywordOf(node.fields)
    case Some(keyword) => Merged(keyword, node.fields, parts)
    case None => Obj(Rebuild(node.fields, parts))
  }

  function Rebuild(fs: seq<Field>, values: seq<Json>): seq<Field>
    requires |fs| == |values|
  {
    if fs == [] then []
    else
      Put(Rebuild(fs[..|fs| - 1], values[..|fs| - 1]), fs[|fs| - 1].key, values[|fs| - 1])
  }

  function RebuildAll(fs: seq<Field>, values: Result<seq<Json>>): Result<seq<Field>>
    requires values.Ok? ==> |values.value| == |fs|
  {
    if values.Ok? then Ok(Rebuild(fs, values.value)) else Err(values.error)
  }

  function Resolve(node: Json, defs: seq<Field>, budget: nat, visiting: set<string>): Result<Json>
    decreases budget, Size(node), 1
  {
    match ShapeOf(node)
    case Leaf => Ok(node)
    case Ref(path) =>
      if budget == 0 then Err(MaxDepthExceeded)
      else if path in visiting then Err(Circular)
      else if Target(defs, path).None? then Err(Unresolvable(path))
      else Resolve(Target(defs, path).value, defs, budget - 1, visiting + {path})
    case Inner(step, parts) =>
      var r := ResolveItems(parts, defs, Less(budget, step), visiting);
      if r.Ok? then Ok(Assemble(node, r.value)) else Err(r.error)
  }

  /** Resolves items from the left; the first failure wins. */
  function ResolveItems(items: seq<Json>, defs: seq<Field>, budget: nat, visiting: set<string>): (r: Result<seq<Json>>)
    ensures r.Ok? ==> |r.value| == |items|
    decreases budget, SizeItems(items), 2
  {
    if items == [] then Ok([])
    else
      var init := ResolveItems(items[..|items| - 1], defs, budget, visiting);
      if init.Err? then init
      else
        var last := Resolve(items[|items| - 1], defs, budget, visiting);
        if last.Err? then Err(last.error) else Ok(init.value + [last.value])
  }

  /** `$defs` wins over `definitions` even when it is not an object. */
  function DefsOf(schema: Json): seq<Field> {
    if !schema.Obj? then []
    else if Has(schema.fields, "$defs") then FieldsOf(Lookup(schema.fields, "$defs"))
    else FieldsOf(Lookup(schema.fields, "definitions"))
  }

  function Strip(v: Json): Json {
    if v.Obj? then Obj(Remove(Remove(v.fields, "$defs"), "definitions")) else v
  }

  function ResolveRefs(schema: Json, maxDepth: nat): Result<Json> {
    var r := Resolve(schema, DefsOf(schema), maxDepth, {});
    if r.Ok? then Ok(Strip(r.value)) else r
  }

  // ----- the code: loops over branches and members, and a set shared by the whole walk -----

  /** The references being expanded, shared by reference through the recursion. */
  class Visiting {
    var paths: set<string>

    constructor ()
      ensures paths == {}
    {
      paths := {};
    }
  }

  method PushNew(list: seq<Json>, items: seq<Json>) returns (r: seq<Json>)
    ensures r == AppendNew(list, items)
  {
    r := list;
    assert items[..0] == [];
    for i := 0 to |items|
      invariant r == AppendNew(list, items[..i])
    {
      assert items[..i + 1][..i] == items[..i];
      if items[i] !in r {
        r := r + [items[i]];
      }
    }
    assert items[..|items|] == items;
  }

  method InsertAll(into: seq<Field>, fields: seq<Field>) returns (r: seq<Field>)
    ensures r == PutAll(into, fields)
  {
    r := into;
    assert fields[..0] == [];
    for i := 0 to |fields|
      invariant r == PutAll(into, fields[..i])
    {
      assert fields[..i + 1][..i] == fields[..i];
      r := Put(r, fields[i].key, fields[i].value);
    }
    assert fields[..|fields|] == fields;
  }

  method MergeAllOf(parentRequired: seq<Json>, branches: seq<Json>) returns (props: seq<Field>, required: seq<Json>)
    ensures props == UnionProps(branches)
    ensures required == UnionRequired(parentRequired, branches)
  {
    props := [];
    required := PushNew([], parentRequired);
    assert branches[..0] == [];
    for i := 0 to |branches|
      invariant props == UnionProps(branches[..i])
      invariant required == UnionRequired(parentRequired, branches[..i])
    {
      assert branches[..i + 1][..i] == branches[..i];
      props := InsertAll(props, PropsOf(branches[i]));
      required := PushNew(required, RequiredOf(branches[i]));
    }
    assert branches[..|branches|] == branches;
  }

  method MergeAnyOf(branches: seq<Json>) returns (props: seq<Field>, required: seq<Json>)
    ensures props == UnionProps(branches)
    ensures required == SharedRequired(branches)
  {
    props := [];
    var shared := {};
    assert branches[..0] == [];
    for i := 0 to |branches|
      invariant props == UnionProps(branches[..i])
      invariant i > 0 ==> shared == Intersection(branches[..i])
    {
      assert branches[..i + 1][..i] == branches[..i];
      props := InsertAll(props, PropsOf(branches[i]));
      var names := StringSet(RequiredOf(branches[i]));
      shared := if i == 0 then names else shared * names;
    }
    assert branches[..|branches|] == branches;
    required := if branches == [] then []
                else KeepIn(AppendNew([], AsStrings(Strings(RequiredOf(branches[0])))), shared);
  }

  /** The tail shared by allOf, anyOf and oneOf: parent properties fill gaps, other members are carried over. */
  method MergeInto(keyword: string, obj: seq<Field>, branches: seq<Json>) returns (r: Json)
    ensures r == Merged(keyword, obj, branches)
  {
    var props, required;
    if keyword == "allOf" {
      props, required := MergeAllOf(ItemsOf(Lookup(obj, "required")), branches);
    } else {
      props, required := MergeAnyOf(branches);
      required := CombineRequired(Lookup(obj, "required"), required);
    }
    props := FillGaps(props, FieldsOf(Lookup(obj, "properties")));
    var first := [Field("properties", Obj(props)), Field("required", Arr(required))];
    var result := first;
    assert obj[..0] == [];
    for i := 0 to |obj|
      invariant result == CarryOver(first, obj[..i], keyword)
    {
      assert obj[..i + 1][..i] == obj[..i];
      if obj[i].key != keyword && !Has(result, obj[i].key) {
        result := Put(result, obj[i].key, obj[i].value);
      }
    }
    assert obj[..|obj|] == obj;
    r := Obj(result);
  }

  /** On success the set is back to what it was, so siblings never see each other's references. */
  method ResolveNode(node: Json, defs: seq<Field>, depth: nat, maxDepth: nat, visiting: Visiting)
    returns (r: Result<Json>)
    modifies visiting
    ensures r == Resolve(node, defs, Remaining(depth, maxDepth), old(visiting.paths))
    ensures r.Ok? ==> visiting.paths == old(visiting.paths)
    decreases Remaining(depth, maxDepth), Size(node), 0
  {
    hide Target, ResolveItems, Merged, Rebuild;
    match ShapeOf(node) {
      case Leaf =>
        r := Ok(node);
      case Ref(path) =>
        if depth >= maxDepth {
          return Err(MaxDepthExceeded);
        }
        if path in visiting.paths {
          return Err(Circular);
        }
        var target := Target(defs, path);
        if target.None? {
          return Err(Unresolvable(path));
        }
        visiting.paths := visiting.paths + {path};
        r := ResolveNode(target.value, defs, depth + 1, maxDepth, visiting);
        if r.Ok? {
          visiting.paths := visiting.paths - {path};
        }
      case Inner(step, parts) =>
        match KeywordOf(node.fields) {
          case Some(keyword) =>
            var resolved := ResolveBranches(parts, defs, depth + 1, maxDepth, visiting);
            if resolved.Err? {
              return Err(resolved.error);
            }
            var merged := MergeInto(keyword, node.fields, resolved.value);
            r := Ok(merged);
          case None =>
            var resolved := ResolveMembers(node.fields, defs, depth, maxDepth, visiting);
            r := if resolved.Ok? then Ok(Obj(resolved.value)) else Err(resolved.error);
        }
    }
  }

  method ResolveBranches(branches: seq<Json>, defs: seq<Field>, depth: nat, maxDepth: nat, visiting: Visiting)
    returns (r: Result<seq<Json>>)
    modifies visiting
    ensures r == ResolveItems(branches, defs, Remaining(depth, maxDepth), old(visiting.paths))
    ensures r.Ok? ==> visiting.paths == old(visiting.paths)
    decreases Remaining(depth, maxDepth), SizeItems(branches), 0
  {
    hide Resolve, ResolveItems;
    ghost var budget, before := Remaining(depth, maxDepth), visiting.paths;
    var resolved := [];
    NoItems(defs, budget, before);
    assert branches[..0] == [];
    for i := 0 to |branches|
      invariant visiting.paths == before
      invariant ResolveItems(branches[..i], defs, budget, before) == Ok(resolved)
    {
      SizeOfItem(branches, branches[i]);
      var b := ResolveNode(branches[i], defs, depth, maxDepth, visiting);
      OneMoreItem(branches, i, defs, budget, before);
      if b.Err? {
        return Err(b.error);
      }
      resolved := resolved + [b.value];
    }
    assert branches[..|branches|] == branches;
    r := Ok(resolved);
  }

  method ResolveMembers(fields: seq<Field>, defs: seq<Field>, depth: nat, maxDepth: nat, visiting: Visiting)
    returns (r: Result<seq<Field>>)
    modifies visiting
    ensures r == RebuildAll(fields, ResolveItems(Values(fields), defs, Remaining(depth, maxDepth), old(visiting.paths)))
    ensures r.Ok? ==> visiting.paths == old(visiting.paths)
    decreases Remaining(depth, maxDepth), SizeItems(Values(fields)), 0
  {
    hide Resolve, ResolveItems, Rebuild;
    ghost var budget, before := Remaining(depth, maxDepth), visiting.paths;
    var resolved := [];
    ghost var values := [];
    NoItems(defs, budget, before);
    assert Values(fields)[..0] == [];
    RebuildNothing(fields);
    for i := 0 to |fields|
      invariant visiting.paths == before
      invariant ResolveItems(Values(fields)[..i], defs, budget, before) == Ok(values)
      invariant |values| == i && resolved == Rebuild(fields[..i], values)
    {
      SizeOfItem(Values(fields), Values(fields)[i]);
      var v := ResolveNode(fields[i].value, defs, depth, maxDepth, visiting);
      OneMoreItem(Values(fields), i, defs, budget, before);
      if v.Err? {
        return Err(v.error);
      }
      RebuildOneMore(fields, i, values, v.value);
      resolved, values := Put(resolved, fields[i].key, v.value), values + [v.value];
    }
    assert Values(fields)[..|fields|] == Values(fields);
    assert fields[..|fields|] == fields;
    r := Ok(resolved);
  }

  lemma NoItems(defs: seq<Field>, budget: nat, visiting: set<string>)
    ensures ResolveItems([], defs, budget, visiting) == Ok([])
  {
  }

  /** One more item resolved from the left, or the failure that decides the whole list. */
  lemma {:induction false} OneMoreItem(items: seq<Json>, i: nat, defs: seq<Field>, budget: nat, visiting: set<string>)
    requires i < |items|
    requires ResolveItems(items[..i], defs, budget, visiting).Ok?
    ensures var v := Resolve(items[i], defs, budget, visiting);
            if v.Err? then ResolveItems(items, defs, budget, visiting) == Err(v.error)
            else ResolveItems(items[..i + 1], defs, budget, visiting) ==
                 Ok(ResolveItems(items[..i], defs, budget, visiting).value + [v.value])
  {
    hide Resolve;
    assert items[..i + 1][..i] == items[..i];
    if i == |items| - 1 {
      assert items[..i + 1] == items;
    } else if Resolve(items[i], defs, budget, visiting).Err? {
      var init := items[..|items| - 1];
      assert init[..i] == items[..i];
      OneMoreItem(init, i, defs, budget, visiting);
    }
  }

  lemma RebuildNothing(fs: seq<Field>)
    ensures Rebuild(fs[..0], []) == []
  {
  }

  lemma RebuildOneMore(fs: seq<Field>, i: nat, values: seq<Json>, v: Json)
    requires i < |fs| && |values| == i
    ensures Rebuild(fs[..i + 1], values + [v]) == Put(Rebuild(fs[..i], values), fs[i].key, v)
  {
    assert fs[..i + 1][..i] == fs[..i];
    assert (values + [v])[..i] == values;
  }

  method ResolveRefsInPlace(schema: Json, maxDepth: nat) returns (r: Result<Json>)
    ensures r == ResolveRefs(schema, maxDepth)
  {
    var visiting := new Visiting();
    r := ResolveNode(schema, DefsOf(schema), 0, maxDepth, visiting);
    if r.Ok? {
      r := Ok(Strip(r.value));
    }
  }
}
