/**
 When the resolver fails and when it cannot: its errors against the graph whose nodes are
 reference strings and whose edges lead from a reference to those its definition mentions.
 */
module RefGraph {
  import opened Json
  import opened RefResolver
  import opened RefSubstitution
  import Text

  /** The references the resolver meets in a node before following any of them. */
  function RefsIn(node: Json): set<string>
    decreases Size(node), 1
  {
    match ShapeOf(node)
    case Leaf => {}
    case Ref(path) => {path}
    case Inner(_, parts) => RefsInItems(parts)
  }

  function RefsInItems(items: seq<Json>): set<string>
    decreases SizeItems(items), 2
  {
    if items == [] then {} else RefsInItems(items[..|items| - 1]) + RefsIn(items[|items| - 1])
  }

  predicate Edge(defs: seq<Field>, p: string, q: string) {
    Target(defs, p).Some? && q in RefsIn(Target(defs, p).value)
  }

  predicate Chain(defs: seq<Field>, ps: seq<string>) {
    ps != [] && forall i :: 0 <= i < |ps| - 1 ==> Edge(defs, ps[i], ps[i + 1])
  }

  /** A chain of references from `node` that ends in `q`. */
  predicate Leads(node: Json, defs: seq<Field>, ps: seq<string>, q: string) {
    Chain(defs, ps) && ps[0] in RefsIn(node) && ps[|ps| - 1] == q
  }

  ghost predicate Reachable(node: Json, defs: seq<Field>, q: string) {
    exists ps :: Leads(node, defs, ps, q)
  }

  predicate Loop(defs: seq<Field>, ps: seq<string>, q: string) {
    |ps| >= 2 && Chain(defs, ps) && ps[0] == q && ps[|ps| - 1] == q
  }

  /** The reference reaches itself through the definitions. */
  ghost predicate OnCycle(defs: seq<Field>, q: string) {
    exists ps :: Loop(defs, ps, q)
  }

  // ----- Circular and Unresolvable name a real defect -----

  /** Where an error comes from: a chain to the offending reference. */
  predicate Blames(node: Json, defs: seq<Field>, visiting: set<string>, error: RefError, ps: seq<string>) {
    && Chain(defs, ps) && ps[0] in RefsIn(node)
    && var last := ps[|ps| - 1];
       match error
       case Circular => last in visiting || last in ps[..|ps| - 1]
       case Unresolvable(reference) => last == reference && Target(defs, reference).None?
       case MaxDepthExceeded => true
  }

  lemma {:induction false} ErrorHasChain(node: Json, defs: seq<Field>, budget: nat, visiting: set<string>)
    returns (ps: seq<string>)
    requires Resolve(node, defs, budget, visiting).Err?
    ensures Blames(node, defs, visiting, Resolve(node, defs, budget, visiting).error, ps)
    decreases budget, Size(node), 1
  {
    hide ShapeOf, Assemble, Target;
    var shape := ShapeOf(node);
    if shape.Ref? {
      var path := shape.path;
      if budget == 0 || path in visiting || Target(defs, path).None? {
        ps := [path];
      } else {
        var tail := ErrorHasChain(Target(defs, path).value, defs, budget - 1, visiting + {path});
        ps := [path] + tail;
        assert forall i :: 0 < i < |ps| ==> ps[i] == tail[i - 1];
        assert ps[..|ps| - 1] == [path] + tail[..|tail| - 1];
      }
    } else {
      ps := ItemErrorHasChain(shape.parts, defs, Less(budget, shape.step), visiting);
    }
  }

  lemma {:induction false} ItemErrorHasChain(items: seq<Json>, defs: seq<Field>, budget: nat, visiting: set<string>)
    returns (ps: seq<string>)
    requires ResolveItems(items, defs, budget, visiting).Err?
    ensures Chain(defs, ps) && ps[0] in RefsInItems(items)
    ensures exists x :: x in items && Blames(x, defs, visiting, ResolveItems(items, defs, budget, visiting).error, ps)
    decreases budget, SizeItems(items), 2
  {
    var init, last := items[..|items| - 1], items[|items| - 1];
    if ResolveItems(init, defs, budget, visiting).Err? {
      ps := ItemErrorHasChain(init, defs, budget, visiting);
    } else {
      ps := ErrorHasChain(last, defs, budget, visiting);
      assert last in items;
    }
  }

  lemma CircularMeansCycle(node: Json, defs: seq<Field>, budget: nat)
    requires Resolve(node, defs, budget, {}) == Err(Circular)
    ensures exists q :: Reachable(node, defs, q) && OnCycle(defs, q)
  {
    var ps := ErrorHasChain(node, defs, budget, {});
    var last := |ps| - 1;
    var i :| 0 <= i < last && ps[i] == ps[last];
    forall j | 0 <= j < |ps[i..]| - 1
      ensures Edge(defs, ps[i..][j], ps[i..][j + 1])
    {
      assert Edge(defs, ps[i + j], ps[i + j + 1]);
    }
    assert Leads(node, defs, ps[..i + 1], ps[i]);
    assert Loop(defs, ps[i..], ps[i]);
    assert Reachable(node, defs, ps[i]) && OnCycle(defs, ps[i]);
  }

  lemma UnresolvableMeansMissing(node: Json, defs: seq<Field>, budget: nat, reference: string)
    requires Resolve(node, defs, budget, {}) == Err(Unresolvable(reference))
    ensures Reachable(node, defs, reference) && Target(defs, reference).None?
  {
    var ps := ErrorHasChain(node, defs, budget, {});
    assert Leads(node, defs, ps, reference);
  }

  // ----- success means no defect is reachable -----

  lemma {:induction false} RefsExpandable(node: Json, defs: seq<Field>, budget: nat, q: string)
    requires Expand(node, defs, budget).Some? && q in RefsIn(node)
    ensures Expandable(defs, q, budget)
    decreases Size(node), 1
  {
    hide ShapeOf, Assemble, Target;
    var shape := ShapeOf(node);
    if shape.Inner? {
      ItemRefsExpandable(shape.parts, defs, Less(budget, shape.step), q);
      ExpandableMore(defs, q, Less(budget, shape.step), budget);
    }
  }

  lemma {:induction false} ItemRefsExpandable(items: seq<Json>, defs: seq<Field>, budget: nat, q: string)
    requires ExpandItems(items, defs, budget).Some? && q in RefsInItems(items)
    ensures Expandable(defs, q, budget)
    decreases SizeItems(items), 2
  {
    if q in RefsIn(items[|items| - 1]) {
      RefsExpandable(items[|items| - 1], defs, budget, q);
    } else {
      ItemRefsExpandable(items[..|items| - 1], defs, budget, q);
    }
  }

  /** Following a chain costs one level for each reference. */
  lemma {:induction false} ChainExpandable(defs: seq<Field>, ps: seq<string>, budget: nat)
    requires Chain(defs, ps) && Expandable(defs, ps[0], budget)
    ensures budget >= |ps| && Expandable(defs, ps[|ps| - 1], budget - (|ps| - 1))
    decreases |ps|
  {
    if |ps| > 1 {
      assert Edge(defs, ps[0], ps[1]);
      RefsExpandable(Target(defs, ps[0]).value, defs, budget - 1, ps[1]);
      forall i | 0 <= i < |ps[1..]| - 1
        ensures Edge(defs, ps[1..][i], ps[1..][i + 1])
      {
        assert Edge(defs, ps[i + 1], ps[i + 1 + 1]);
      }
      ChainExpandable(defs, ps[1..], budget - 1);
    }
  }

  lemma {:induction false} CycleNeverExpands(defs: seq<Field>, q: string, budget: nat)
    requires OnCycle(defs, q)
    ensures !Expandable(defs, q, budget)
  {
    if Expandable(defs, q, budget) {
      var ps :| Loop(defs, ps, q);
      ChainExpandable(defs, ps, budget);
      CycleNeverExpands(defs, q, budget - (|ps| - 1));
    }
  }

  ghost predicate Sound(node: Json, defs: seq<Field>) {
    forall q :: Reachable(node, defs, q) ==> Target(defs, q).Some? && !OnCycle(defs, q)
  }

  /** With a reachable cycle or a missing target there is no limit under which resolution succeeds. */
  lemma OkMeansSound(node: Json, defs: seq<Field>, budget: nat)
    requires Resolve(node, defs, budget, {}).Ok?
    ensures Sound(node, defs)
  {
    ResolvedIsExpanded(node, defs, budget, {});
    forall q | Reachable(node, defs, q)
      ensures Target(defs, q).Some? && !OnCycle(defs, q)
    {
      var ps :| Leads(node, defs, ps, q);
      RefsExpandable(node, defs, budget, ps[0]);
      ChainExpandable(defs, ps, budget);
      if OnCycle(defs, q) {
        CycleNeverExpands(defs, q, budget - (|ps| - 1));
      }
    }
  }

  // ----- how much depth is enough -----

  /** The deepest nesting of compositions a node reaches without following a reference. */
  function Nesting(node: Json): nat
    decreases Size(node), 1
  {
    match ShapeOf(node)
    case Inner(step, parts) => step + NestingOfItems(parts)
    case _ => 0
  }

  function NestingOfItems(items: seq<Json>): nat
    decreases SizeItems(items), 2
  {
    if items == [] then 0
    else
      var init, last := NestingOfItems(items[..|items| - 1]), Nesting(items[|items| - 1]);
      if init > last then init else last
  }

  /** Every reference string mentioned by the node or by any definition. */
  function AllRefs(node: Json, defs: seq<Field>): set<string> {
    RefsIn(node) + RefsInItems(Values(defs))
  }

  /** The depth that `count` references still to be visited can use up, `nest` levels each. */
  function Levels(count: nat, nest: nat): nat {
    if count == 0 then 0 else Levels(count - 1, nest) + nest
  }

  lemma {:induction false} LevelsIsProduct(count: nat, nest: nat)
    ensures Levels(count, nest) == count * nest
  {
    if count > 0 {
      LevelsIsProduct(count - 1, nest);
    }
  }

  /**
   One composition nest for the node, one level plus one nest for each distinct reference, and one level
   to notice a repeated reference.
   */
  function Enough(node: Json, defs: seq<Field>): nat {
    Levels(|AllRefs(node, defs)|, 1 + NestingOfItems(Values(defs))) + 1 + Nesting(node)
  }

  lemma {:induction false} PartOfItems(items: seq<Json>, x: Json)
    requires x in items
    ensures RefsIn(x) <= RefsInItems(items) && Nesting(x) <= NestingOfItems(items)
  {
    if x != items[|items| - 1] {
      assert x in items[..|items| - 1];
      PartOfItems(items[..|items| - 1], x);
    }
  }

  lemma TargetIsPart(defs: seq<Field>, path: string)
    requires Target(defs, path).Some?
    ensures RefsIn(Target(defs, path).value) <= RefsInItems(Values(defs))
    ensures Nesting(Target(defs, path).value) <= NestingOfItems(Values(defs))
  {
    var key, v := Text.LastSegment(path), Target(defs, path).value;
    LookupIsMember(defs, key);
    var i :| 0 <= i < |defs| && defs[i] == Field(key, v);
    assert Values(defs)[i] == v;
    PartOfItems(Values(defs), v);
  }

  lemma OneLessToVisit(refs: set<string>, visiting: set<string>, path: string)
    requires path in refs && path !in visiting
    ensures |refs - visiting| == |refs - (visiting + {path})| + 1
  {
    assert refs - visiting == (refs - (visiting + {path})) + {path};
  }

  /** The visiting set grows with every reference followed, so the depth needed is bounded by what is left to visit. */
  lemma {:induction false} DepthSuffices(node: Json, defs: seq<Field>, budget: nat, visiting: set<string>,
                                         refs: set<string>)
    requires RefsIn(node) <= refs && RefsInItems(Values(defs)) <= refs && visiting <= refs
    requires budget >= Levels(|refs - visiting|, 1 + NestingOfItems(Values(defs))) + 1 + Nesting(node)
    ensures Resolve(node, defs, budget, visiting) != Err(MaxDepthExceeded)
    decreases budget, Size(node), 1
  {
    hide ShapeOf, Assemble, Target;
    var shape := ShapeOf(node);
    if shape.Ref? {
      var path := shape.path;
      if path !in visiting {
        OneLessToVisit(refs, visiting, path);
        if Target(defs, path).Some? {
          TargetIsPart(defs, path);
          DepthSuffices(Target(defs, path).value, defs, budget - 1, visiting + {path}, refs);
        }
      }
    } else if shape.Inner? {
      DepthSufficesForItems(shape.parts, defs, Less(budget, shape.step), visiting, refs);
    }
  }

  lemma {:induction false} DepthSufficesForItems(items: seq<Json>, defs: seq<Field>, budget: nat,
                                                 visiting: set<string>, refs: set<string>)
    requires RefsInItems(items) <= refs && RefsInItems(Values(defs)) <= refs && visiting <= refs
    requires budget >= Levels(|refs - visiting|, 1 + NestingOfItems(Values(defs))) + 1 + NestingOfItems(items)
    ensures ResolveItems(items, defs, budget, visiting) != Err(MaxDepthExceeded)
    decreases budget, SizeItems(items), 2
  {
    if items != [] {
      DepthSufficesForItems(items[..|items| - 1], defs, budget, visiting, refs);
      DepthSuffices(items[|items| - 1], defs, budget, visiting, refs);
    }
  }

  /**
   With enough depth the outcome is decided by the reference graph alone: success exactly when every
   reachable reference has a definition and none reaches itself. The depth limit is then never the reason.
   */
  lemma ErrorsAreExact(node: Json, defs: seq<Field>, budget: nat)
    requires budget >= Enough(node, defs)
    ensures Resolve(node, defs, budget, {}).Ok? <==> Sound(node, defs)
    ensures Resolve(node, defs, budget, {}) != Err(MaxDepthExceeded)
    ensures Resolve(node, defs, budget, {}).Ok? ==>
              Resolve(node, defs, budget, {}) == Resolve(node, defs, Enough(node, defs), {})
  {
    var refs := AllRefs(node, defs);
    assert refs - {} == refs;
    DepthSuffices(node, defs, budget, {}, refs);
    DepthSuffices(node, defs, Enough(node, defs), {}, refs);
    SoundMeansOk(node, defs, budget);
    SoundMeansOk(node, defs, Enough(node, defs));
    if Resolve(node, defs, budget, {}).Ok? {
      OkMeansSound(node, defs, budget);
      LargerLimitSameValue(node, defs, Enough(node, defs), budget, {});
    }
  }

  lemma SoundMeansOk(node: Json, defs: seq<Field>, budget: nat)
    requires Resolve(node, defs, budget, {}) != Err(MaxDepthExceeded)
    ensures Sound(node, defs) ==> Resolve(node, defs, budget, {}).Ok?
  {
    if Sound(node, defs) && Resolve(node, defs, budget, {}).Err? {
      match Resolve(node, defs, budget, {}).error
      case Circular => CircularMeansCycle(node, defs, budget);
      case Unresolvable(reference) => UnresolvableMeansMissing(node, defs, budget, reference);
    }
  }

  // ----- the least limit that suffices -----

  /**
   What an expansion costs: a reference one level more than its definition, a composition one level more
   than its dearest branch unless that needs none, an ordinary object its dearest member. `fuel` only
   bounds the references followed.
   */
  function Cost(node: Json, defs: seq<Field>, fuel: nat): nat
    decreases fuel, Size(node), 1
  {
    match ShapeOf(node)
    case Leaf => 0
    case Ref(path) =>
      if fuel == 0 || Target(defs, path).None? then 0 else 1 + Cost(Target(defs, path).value, defs, fuel - 1)
    case Inner(step, parts) =>
      var most := CostOfItems(parts, defs, Less(fuel, step));
      if most == 0 then 0 else step + most
  }

  function CostOfItems(items: seq<Json>, defs: seq<Field>, fuel: nat): nat
    decreases fuel, SizeItems(items), 2
  {
    if items == [] then 0
    else
      var init, last := CostOfItems(items[..|items| - 1], defs, fuel), Cost(items[|items| - 1], defs, fuel);
      if init > last then init else last
  }

  /** Whatever can be expanded at all is expanded within exactly the budgets that cover its cost. */
  lemma {:induction false} CostIsLeast(node: Json, defs: seq<Field>, fuel: nat, budget: nat)
    requires Expand(node, defs, fuel).Some?
    ensures Expand(node, defs, budget).Some? <==> budget >= Cost(node, defs, fuel)
    decreases fuel, Size(node), 1
  {
    hide ShapeOf, Assemble, Target;
    var shape := ShapeOf(node);
    if shape.Ref? {
      if budget > 0 {
        CostIsLeast(Target(defs, shape.path).value, defs, fuel - 1, budget - 1);
      }
    } else if shape.Inner? {
      CostOfItemsIsLeast(shape.parts, defs, Less(fuel, shape.step), Less(budget, shape.step));
    }
  }

  lemma {:induction false} CostOfItemsIsLeast(items: seq<Json>, defs: seq<Field>, fuel: nat, budget: nat)
    requires ExpandItems(items, defs, fuel).Some?
    ensures ExpandItems(items, defs, budget).Some? <==> budget >= CostOfItems(items, defs, fuel)
    decreases fuel, SizeItems(items), 2
  {
    if items != [] {
      CostOfItemsIsLeast(items[..|items| - 1], defs, fuel, budget);
      CostIsLeast(items[|items| - 1], defs, fuel, budget);
    }
  }

  function LeastLimit(node: Json, defs: seq<Field>): nat {
    Cost(node, defs, Enough(node, defs))
  }

  /** A sound schema fails below its least limit, for the depth alone, and nowhere else. */
  lemma SoundOutcome(node: Json, defs: seq<Field>, budget: nat)
    requires Sound(node, defs)
    ensures LeastLimit(node, defs) <= Enough(node, defs)
    ensures if budget >= LeastLimit(node, defs)
            then Resolve(node, defs, budget, {}) == Resolve(node, defs, Enough(node, defs), {})
                 && Resolve(node, defs, budget, {}).Ok?
            else Resolve(node, defs, budget, {}) == Err(MaxDepthExceeded)
  {
    hide Sound, Enough, Resolve, Expand, Cost;
    var enough := Enough(node, defs);
    ErrorsAreExact(node, defs, enough);
    var v := Resolve(node, defs, enough, {}).value;
    ResolverRefinesSubstitution(node, defs, enough, v);
    CostIsLeast(node, defs, enough, enough);
    CostIsLeast(node, defs, enough, budget);
    if budget >= LeastLimit(node, defs) {
      ResolverRefinesSubstitution(node, defs, budget, Expand(node, defs, budget).value);
      if budget <= enough {
        LargerLimitSameValue(node, defs, budget, enough, {});
      } else {
        LargerLimitSameValue(node, defs, enough, budget, {});
      }
    } else {
      if Resolve(node, defs, budget, {}).Ok? {
        ResolvedIsExpanded(node, defs, budget, {});
      }
      if Resolve(node, defs, budget, {}) != Err(MaxDepthExceeded) {
        SoundMeansOk(node, defs, budget);
      }
    }
  }

  /** The same for whole schemas: which limits resolve a sound one, with the program's own among them. */
  lemma SoundSchemaOutcome(schema: Json, maxDepth: nat)
    requires Sound(schema, DefsOf(schema))
    ensures ResolveRefs(schema, maxDepth).Ok? <==> maxDepth >= LeastLimit(schema, DefsOf(schema))
    ensures ResolveRefs(schema, maxDepth).Err? ==> ResolveRefs(schema, maxDepth) == Err(MaxDepthExceeded)
  {
    hide LeastLimit, Sound, Resolve, Strip, DefsOf;
    SoundOutcome(schema, DefsOf(schema), maxDepth);
  }

  /** The same for whole schemas, whose definitions are part of what is resolved. */
  lemma ResolveRefsIsExact(schema: Json, maxDepth: nat)
    requires maxDepth >= Enough(schema, DefsOf(schema))
    ensures ResolveRefs(schema, maxDepth).Ok? <==> Sound(schema, DefsOf(schema))
    ensures Sound(schema, DefsOf(schema)) ==>
              ResolveRefs(schema, maxDepth) == ResolveRefs(schema, Enough(schema, DefsOf(schema)))
  {
    hide Enough, Sound, Resolve, Strip, DefsOf;
    ErrorsAreExact(schema, DefsOf(schema), maxDepth);
    ErrorsAreExact(schema, DefsOf(schema), Enough(schema, DefsOf(schema)));
  }
}
