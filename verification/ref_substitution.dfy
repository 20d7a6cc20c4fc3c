/**
 The resolver refines plain substitution: the `visiting` set never changes a value, it only
 turns an expansion that cannot finish into an early error.
 */
module RefSubstitution {
  import opened Json
  import opened RefResolver

  /** Substitution with no `visiting` set: a reference stands for its definition, within a depth budget. */
  function Expand(node: Json, defs: seq<Field>, budget: nat): Option<Json>
    decreases budget, Size(node), 1
  {
    match ShapeOf(node)
    case Leaf => Some(node)
    case Ref(path) =>
      if budget == 0 || Target(defs, path).None? then None
      else Expand(Target(defs, path).value, defs, budget - 1)
    case Inner(step, parts) =>
      var r := ExpandItems(parts, defs, Less(budget, step));
      if r.Some? then Some(Assemble(node, r.value)) else None
  }

  function ExpandItems(items: seq<Json>, defs: seq<Field>, budget: nat): (r: Option<seq<Json>>)
    ensures r.Some? ==> |r.value| == |items|
    decreases budget, SizeItems(items), 2
  {
    if items == [] then Some([])
    else
      var init := ExpandItems(items[..|items| - 1], defs, budget);
      var last := Expand(items[|items| - 1], defs, budget);
      if init.Some? && last.Some? then Some(init.value + [last.value]) else None
  }

  /** The reference `path` can be expanded within `budget`. */
  predicate Expandable(defs: seq<Field>, path: string, budget: nat) {
    budget > 0 && Target(defs, path).Some? && Expand(Target(defs, path).value, defs, budget - 1).Some?
  }

  // ----- a larger budget changes nothing -----

  lemma {:induction false} ExpandMore(node: Json, defs: seq<Field>, budget: nat)
    requires Expand(node, defs, budget).Some?
    ensures Expand(node, defs, budget + 1) == Expand(node, defs, budget)
    decreases budget, Size(node), 1
  {
    hide ShapeOf, Assemble, Target;
    var shape := ShapeOf(node);
    if shape.Ref? {
      ExpandMore(Target(defs, shape.path).value, defs, budget - 1);
    } else if shape.Inner? && budget >= shape.step {
      ExpandItemsMore(shape.parts, defs, budget - shape.step);
    }
  }

  lemma {:induction false} ExpandItemsMore(items: seq<Json>, defs: seq<Field>, budget: nat)
    requires ExpandItems(items, defs, budget).Some?
    ensures ExpandItems(items, defs, budget + 1) == ExpandItems(items, defs, budget)
    decreases budget, SizeItems(items), 2
  {
    if items != [] {
      ExpandItemsMore(items[..|items| - 1], defs, budget);
      ExpandMore(items[|items| - 1], defs, budget);
    }
  }

  lemma {:induction false} ExpandableMore(defs: seq<Field>, path: string, less: nat, more: nat)
    requires less <= more && Expandable(defs, path, less)
    ensures Expandable(defs, path, more)
    decreases more - less
  {
    if less < more {
      ExpandMore(Target(defs, path).value, defs, less - 1);
      ExpandableMore(defs, path, less + 1, more);
    }
  }

  lemma {:induction false} ResolveMore(node: Json, defs: seq<Field>, budget: nat, visiting: set<string>)
    requires Resolve(node, defs, budget, visiting).Ok?
    ensures Resolve(node, defs, budget + 1, visiting) == Resolve(node, defs, budget, visiting)
    decreases budget, Size(node), 1
  {
    hide ShapeOf, Assemble, Target;
    var shape := ShapeOf(node);
    if shape.Ref? {
      ResolveMore(Target(defs, shape.path).value, defs, budget - 1, visiting + {shape.path});
    } else if shape.Inner? && budget >= shape.step {
      ResolveItemsMore(shape.parts, defs, budget - shape.step, visiting);
    }
  }

  lemma {:induction false} ResolveItemsMore(items: seq<Json>, defs: seq<Field>, budget: nat, visiting: set<string>)
    requires ResolveItems(items, defs, budget, visiting).Ok?
    ensures ResolveItems(items, defs, budget + 1, visiting) == ResolveItems(items, defs, budget, visiting)
    decreases budget, SizeItems(items), 2
  {
    if items != [] {
      ResolveItemsMore(items[..|items| - 1], defs, budget, visiting);
      ResolveMore(items[|items| - 1], defs, budget, visiting);
    }
  }

  /** Once a limit suffices, every larger limit gives the same value. */
  lemma {:induction false} LargerLimitSameValue(node: Json, defs: seq<Field>, less: nat, more: nat,
                                                visiting: set<string>)
    requires less <= more && Resolve(node, defs, less, visiting).Ok?
    ensures Resolve(node, defs, more, visiting) == Resolve(node, defs, less, visiting)
    decreases more - less
  {
    if less < more {
      ResolveMore(node, defs, less, visiting);
      LargerLimitSameValue(node, defs, less + 1, more, visiting);
    }
  }

  // ----- refinement -----

  lemma {:induction false} ResolvedIsExpanded(node: Json, defs: seq<Field>, budget: nat, visiting: set<string>)
    requires Resolve(node, defs, budget, visiting).Ok?
    ensures Expand(node, defs, budget) == Some(Resolve(node, defs, budget, visiting).value)
    decreases budget, Size(node), 1
  {
    hide ShapeOf, Assemble, Target;
    var shape := ShapeOf(node);
    if shape.Ref? {
      ResolvedIsExpanded(Target(defs, shape.path).value, defs, budget - 1, visiting + {shape.path});
    } else if shape.Inner? {
      ResolvedItemsAreExpanded(shape.parts, defs, Less(budget, shape.step), visiting);
    }
  }

  lemma {:induction false} ResolvedItemsAreExpanded(items: seq<Json>, defs: seq<Field>, budget: nat,
                                                    visiting: set<string>)
    requires ResolveItems(items, defs, budget, visiting).Ok?
    ensures ExpandItems(items, defs, budget) == Some(ResolveItems(items, defs, budget, visiting).value)
    decreases budget, SizeItems(items), 2
  {
    if items != [] {
      ResolvedItemsAreExpanded(items[..|items| - 1], defs, budget, visiting);
      ResolvedIsExpanded(items[|items| - 1], defs, budget, visiting);
    }
  }

  /** No reference being visited can be expanded within the budget that is left. */
  ghost predicate Exhausted(defs: seq<Field>, budget: nat, visiting: set<string>) {
    forall p | p in visiting :: !Expandable(defs, p, budget)
  }

  lemma ExhaustedLess(defs: seq<Field>, less: nat, more: nat, visiting: set<string>)
    requires less <= more && Exhausted(defs, more, visiting)
    ensures Exhausted(defs, less, visiting)
  {
    forall p | p in visiting
      ensures !Expandable(defs, p, less)
    {
      if Expandable(defs, p, less) {
        ExpandableMore(defs, p, less, more);
      }
    }
  }

  /**
   A finite expansion never meets one of its own ancestors. A reference is entered at the least
   budget that expands it, so within it the same reference would have to be expanded with less.
   */
  lemma {:induction false} ExpandedIsResolved(node: Json, defs: seq<Field>, budget: nat, visiting: set<string>)
    requires Expand(node, defs, budget).Some? && Exhausted(defs, budget, visiting)
    ensures Resolve(node, defs, budget, visiting).Ok?
    decreases budget, Size(node), 1
  {
    hide ShapeOf, Assemble, Target;
    var shape := ShapeOf(node);
    if shape.Ref? {
      var path := shape.path;
      assert Expandable(defs, path, budget);
      ExhaustedLess(defs, budget - 1, budget, visiting);
      if Expandable(defs, path, budget - 1) {
        ExpandedIsResolved(node, defs, budget - 1, visiting);
        ResolveMore(node, defs, budget - 1, visiting);
      } else {
        ExpandedIsResolved(Target(defs, path).value, defs, budget - 1, visiting + {path});
      }
    } else if shape.Inner? {
      ExhaustedLess(defs, Less(budget, shape.step), budget, visiting);
      ExpandedItemsAreResolved(shape.parts, defs, Less(budget, shape.step), visiting);
    }
  }

  lemma {:induction false} ExpandedItemsAreResolved(items: seq<Json>, defs: seq<Field>, budget: nat,
                                                    visiting: set<string>)
    requires ExpandItems(items, defs, budget).Some? && Exhausted(defs, budget, visiting)
    ensures ResolveItems(items, defs, budget, visiting).Ok?
    decreases budget, SizeItems(items), 2
  {
    if items != [] {
      ExpandedItemsAreResolved(items[..|items| - 1], defs, budget, visiting);
      ExpandedIsResolved(items[|items| - 1], defs, budget, visiting);
    }
  }

  /** From an empty set, the resolver succeeds exactly when plain substitution does, with the same value. */
  lemma ResolverRefinesSubstitution(node: Json, defs: seq<Field>, budget: nat, v: Json)
    ensures Resolve(node, defs, budget, {}) == Ok(v) <==> Expand(node, defs, budget) == Some(v)
  {
    if Resolve(node, defs, budget, {}).Ok? {
      ResolvedIsExpanded(node, defs, budget, {});
    }
    if Expand(node, defs, budget).Some? {
      ExpandedIsResolved(node, defs, budget, {});
      ResolvedIsExpanded(node, defs, budget, {});
    }
  }
}
