/**
 Whether what is given on a module's command line reaches the module (src/cli.rs, src/schema_parser.rs).
 The flags are registered from the resolved schema; the arguments are read back with a table derived
 again from the raw one.
 */
module ArgumentDelivery {
  import opened Json
  import opened ModuleCommand
  import opened SchemaParser
  import opened Sequences
  import InlinedRefs
  import RefResolver
  import RefSubstitution
  import ResolvedSchema
  import opened SchemaPaths

  // ----- what a table reads of a property -----

  /** A boolean becomes a pair of flags with a default, any other property one flag with its variants. */
  datatype Traits = Flags(default: bool) | Valued(variants: seq<Json>)

  function TraitsOf(schema: Json): Traits {
    if IsBoolean(schema) then Flags(Member(schema, "default") == Some(Bool(true))) else Valued(Variants(schema))
  }

  function TraitsIn(props: seq<Field>, k: string): Option<Traits> {
    if Has(props, k) then Some(TraitsOf(Lookup(props, k).value)) else None
  }

  /** What will be seen at a path of the resolved schema. */
  function Ahead(schema: Json, path: seq<string>): Sight {
    SeeAfter(schema, RefResolver.DefsOf(schema), RefResolver.MAX_REF_DEPTH, path)
  }

  /** The traits with which the property will be registered, from the raw schema. */
  function TraitsAfter(schema: Json, k: string): Option<Traits> {
    if Ahead(schema, ["properties", k]) == Absent then None
    else if Ahead(schema, ["properties", k, "type"]) == Scalar(Str("boolean")) then
      Some(Flags(Ahead(schema, ["properties", k, "default"]) == Scalar(Bool(true))))
    else Some(Valued(ListSeen(Ahead(schema, ["properties", k, "enum"]))))
  }

  lemma MemberSeen(v: Json, k: string)
    ensures See(v, [k]) ==
            match Member(v, k)
            case None => Absent
            case Some(w) => if w.Obj? then Object else Scalar(w)
  {
    if Member(v, k).Some? {
      assert See(Member(v, k).value, [k][1..]) == See(Member(v, k).value, []);
    }
  }

  lemma PropertySeen(v: Json, k: string, more: seq<string>)
    ensures See(v, ["properties", k] + more) ==
            if Has(RefResolver.PropsOf(v), k) then See(Lookup(RefResolver.PropsOf(v), k).value, more) else Absent
  {
    var path := ["properties", k] + more;
    PropsSeen(v, path);
    assert path[1..][1..] == more;
  }

  lemma TraitsSeen(v: Json, k: string)
    ensures TraitsIn(RefResolver.PropsOf(v), k) ==
            if See(v, ["properties", k]) == Absent then None
            else if See(v, ["properties", k, "type"]) == Scalar(Str("boolean")) then
              Some(Flags(See(v, ["properties", k, "default"]) == Scalar(Bool(true))))
            else Some(Valued(ListSeen(See(v, ["properties", k, "enum"]))))
  {
    hide See, Lookup, RefResolver.PropsOf;
    PropertySeen(v, k, []);
    PropertySeen(v, k, ["type"]);
    PropertySeen(v, k, ["default"]);
    PropertySeen(v, k, ["enum"]);
    assert ["properties", k] + [] == ["properties", k];
    assert ["properties", k] + ["type"] == ["properties", k, "type"];
    assert ["properties", k] + ["default"] == ["properties", k, "default"];
    assert ["properties", k] + ["enum"] == ["properties", k, "enum"];
    if Has(RefResolver.PropsOf(v), k) {
      var p := Lookup(RefResolver.PropsOf(v), k).value;
      SomethingSeen(p);
      MemberSeen(p, "type");
      MemberSeen(p, "default");
      MemberSeen(p, "enum");
    }
  }

  /** The registered traits are those foretold. */
  lemma TraitsForetold(schema: Json, k: string)
    requires WellFormed(schema) && RefResolver.ResolveRefs(schema, RefResolver.MAX_REF_DEPTH).Ok?
    ensures TraitsIn(ResolvedProperties(schema), k) == TraitsAfter(schema, k)
  {
    hide RefResolver.DefsOf, RefResolver.Resolve, SeeAfter, See, TraitsIn, WellFormed, ResolvedProperties;
    var defs, limit := RefResolver.DefsOf(schema), RefResolver.MAX_REF_DEPTH;
    ResolvedSchema.DefsWellFormed(schema);
    RefSubstitution.ResolvedIsExpanded(schema, defs, limit, {});
    var v := RefSubstitution.Expand(schema, defs, limit).value;
    ResolvedProps(schema, v);
    TraitsSeen(v, k);
    Foreseen(schema, defs, limit, ["properties", k]);
    Foreseen(schema, defs, limit, ["properties", k, "type"]);
    Foreseen(schema, defs, limit, ["properties", k, "default"]);
    Foreseen(schema, defs, limit, ["properties", k, "enum"]);
  }

  lemma ResolvedProps(schema: Json, v: Json)
    requires RefResolver.ResolveRefs(schema, RefResolver.MAX_REF_DEPTH) == RefResolver.Ok(RefResolver.Strip(v))
    ensures ResolvedProperties(schema) == RefResolver.PropsOf(v)
  {
    hide RefResolver.ResolveRefs, Lookup;
    if v.Obj? {
      ResolvedSchema.StrippedMember(v, "properties");
    }
  }

  // ----- distinct names -----

  lemma {:induction false} ExpandedPropsDistinct(node: Json, defs: seq<Field>, budget: nat)
    requires WellFormed(node) && ResolvedSchema.AllWellFormed(defs)
    requires RefSubstitution.Expand(node, defs, budget).Some?
    ensures DistinctKeys(RefResolver.PropsOf(RefSubstitution.Expand(node, defs, budget).value))
    decreases budget
  {
    hide RefResolver.Target, RefResolver.ShapeOf, RefResolver.Merged, RefResolver.Rebuild, RefResolver.MergedProps;
    hide RefSubstitution.ExpandItems, WellFormed, Lookup;
    var shape := RefResolver.ShapeOf(node);
    if shape.Ref? {
      ResolvedSchema.TargetWellFormed(defs, shape.path);
      ExpandedPropsDistinct(RefResolver.Target(defs, shape.path).value, defs, budget - 1);
    } else if shape.Leaf? {
      LeafHasNoProps(node);
    } else {
      ResolvedSchema.PartsWellFormed(node);
      match RefResolver.KeywordOf(node.fields)
      case Some(keyword) =>
        var branches := RefSubstitution.ExpandItems(shape.parts, defs, RefResolver.Less(budget, shape.step)).value;
        InlinedRefs.CompositionParts(node);
        InlinedRefs.MergedPropsMember(keyword, node.fields, branches);
        InlinedRefs.MergedPropsDistinct(node.fields, branches);
      case None =>
        PlainExpansion(node, defs, budget);
        ResolvedSchema.RebuildLookup(node.fields, defs, budget, "properties");
        if Has(node.fields, "properties") {
          MemberWellFormed(node, "properties");
          InlinedRefs.Foretold(Lookup(node.fields, "properties").value, defs, budget);
        }
    }
  }

  lemma LeafHasNoProps(node: Json)
    requires RefResolver.ShapeOf(node).Leaf?
    ensures RefResolver.PropsOf(node) == []
  {
  }

  lemma NamesAreDistinct(schema: Json)
    requires WellFormed(schema)
    ensures DistinctKeys(PropertiesOf(schema))
    ensures RefResolver.ResolveRefs(schema, RefResolver.MAX_REF_DEPTH).Ok? ==> DistinctKeys(ResolvedProperties(schema))
  {
    hide RefResolver.DefsOf, RefResolver.Resolve, ResolvedProperties, Lookup;
    if schema.Obj? && Has(schema.fields, "properties") {
      MemberWellFormed(schema, "properties");
    }
    if RefResolver.ResolveRefs(schema, RefResolver.MAX_REF_DEPTH).Ok? {
      var defs, limit := RefResolver.DefsOf(schema), RefResolver.MAX_REF_DEPTH;
      ResolvedSchema.DefsWellFormed(schema);
      RefSubstitution.ResolvedIsExpanded(schema, defs, limit, {});
      ResolvedProps(schema, RefSubstitution.Expand(schema, defs, limit).value);
      ExpandedPropsDistinct(schema, defs, limit);
    }
  }

  // ----- when the two tables agree -----

  /** An argument without its default text and without the check that a text is a path. */
  function Core(a: Arg): Arg {
    a.(kind := if a.kind.FileValue? then PlainValue else a.kind, default := None)
  }

  function Cores(args: seq<Arg>): set<Arg> {
    set a | a in args :: Core(a)
  }

  function Pairs(pairs: seq<BoolFlagPair>): set<BoolFlagPair> {
    set p | p in pairs
  }

  /** The same flags, the same boolean pairs with their defaults, the same variants, in whatever order. */
  predicate SameTables(a: SchemaArgs, b: SchemaArgs) {
    && Cores(a.args) == Cores(b.args)
    && Pairs(a.boolPairs) == Pairs(b.boolPairs)
    && a.enumMaps == b.enumMaps
  }

  function CoresFor(k: string, t: Traits, show: Json -> string): set<Arg> {
    match t
    case Flags(_) =>
      {Arg(k, FlagName(k), SetTrue, None), Arg("no-" + k, "no-" + FlagName(k), SetFalse, None)}
    case Valued(variants) =>
      {Arg(k, FlagName(k), if variants != [] then Choice(Texts(variants, show)) else PlainValue, None)}
  }

  lemma CoresOfProperty(p: Field, show: Json -> string)
    ensures Cores(PropArgs(p, show)) == CoresFor(p.key, TraitsOf(p.value), show)
  {
    hide IsBoolean, FlagName;
    var args := PropArgs(p, show);
    if IsBoolean(p.value) {
      assert args[0] in args && args[1] in args;
    } else {
      assert args[0] in args;
    }
  }

  ghost predicate HasCore(props: seq<Field>, c: Arg, show: Json -> string) {
    exists p :: p in props && c in CoresFor(p.key, TraitsOf(p.value), show)
  }

  lemma {:induction false} CoresOfTable(props: seq<Field>, c: Arg, show: Json -> string)
    ensures c in Cores(AllArgs(props, show)) <==> HasCore(props, c, show)
  {
    hide PropArgs, TraitsOf, CoresFor, Core;
    if props != [] {
      var init, p := props[..|props| - 1], props[|props| - 1];
      CoresOfTable(init, c, show);
      CoresOfProperty(p, show);
      assert props == init + [p];
      assert Cores(AllArgs(props, show)) == Cores(AllArgs(init, show)) + Cores(PropArgs(p, show));
    }
  }

  lemma {:induction false} PairsOfTable(props: seq<Field>, b: BoolFlagPair)
    ensures b in AllBoolPairs(props) <==>
            exists p :: p in props && TraitsOf(p.value) == Flags(b.defaultVal) && p.key == b.propName
                        && b.flagLong == FlagName(p.key)
  {
    hide IsBoolean, FlagName;
    if props != [] {
      var init, p := props[..|props| - 1], props[|props| - 1];
      PairsOfTable(init, b);
      assert props == init + [p];
    }
  }

  lemma {:induction false} EnumsOfTable(props: seq<Field>, k: string)
    requires DistinctKeys(props)
    ensures k in AllEnums(props) <==> Has(props, k) && Variants(Lookup(props, k).value) != []
    ensures k in AllEnums(props) ==> AllEnums(props)[k] == Variants(Lookup(props, k).value)
  {
    hide Variants;
    if props != [] {
      var init, p := props[..|props| - 1], props[|props| - 1];
      EnumsOfTable(init, k);
      LookupIsMember(init, p.key);
    }
  }

  ghost predicate SameTraits(ps: seq<Field>, qs: seq<Field>) {
    forall k :: TraitsIn(ps, k) == TraitsIn(qs, k)
  }

  lemma TraitsOfMember(props: seq<Field>, p: Field)
    requires DistinctKeys(props) && p in props
    ensures TraitsIn(props, p.key) == Some(TraitsOf(p.value))
  {
    LookupDistinct(props, p);
  }

  lemma MemberOfTraits(props: seq<Field>, k: string) returns (p: Field)
    requires TraitsIn(props, k).Some?
    ensures p in props && p.key == k && TraitsIn(props, k) == Some(TraitsOf(p.value))
  {
    LookupIsMember(props, k);
    p := Field(k, Lookup(props, k).value);
  }

  /** Equal traits make every entry of one table an entry of the other. */
  lemma EntriesCarryOver(ps: seq<Field>, qs: seq<Field>, show: Json -> string)
    requires DistinctKeys(ps) && DistinctKeys(qs) && SameTraits(ps, qs)
    ensures Cores(AllArgs(ps, show)) <= Cores(AllArgs(qs, show))
    ensures forall b | b in AllBoolPairs(ps) :: b in AllBoolPairs(qs)
  {
    hide TraitsIn, TraitsOf, CoresFor, Cores, AllArgs, AllBoolPairs;
    forall c | c in Cores(AllArgs(ps, show))
      ensures c in Cores(AllArgs(qs, show))
    {
      CoresOfTable(ps, c, show);
      CoresOfTable(qs, c, show);
      var p :| p in ps && c in CoresFor(p.key, TraitsOf(p.value), show);
      TraitsOfMember(ps, p);
      var q := MemberOfTraits(qs, p.key);
    }
    forall b | b in AllBoolPairs(ps)
      ensures b in AllBoolPairs(qs)
    {
      PairsOfTable(ps, b);
      PairsOfTable(qs, b);
      var p :| p in ps && TraitsOf(p.value) == Flags(b.defaultVal) && p.key == b.propName
               && b.flagLong == FlagName(p.key);
      TraitsOfMember(ps, p);
      var q := MemberOfTraits(qs, p.key);
    }
  }

  lemma SameEnums(ps: seq<Field>, qs: seq<Field>)
    requires DistinctKeys(ps) && DistinctKeys(qs) && SameTraits(ps, qs)
    ensures AllEnums(ps) == AllEnums(qs)
  {
    hide AllEnums;
    forall k
      ensures k in AllEnums(ps) <==> k in AllEnums(qs)
      ensures k in AllEnums(ps) ==> AllEnums(ps)[k] == AllEnums(qs)[k]
    {
      EnumsOfTable(ps, k);
      EnumsOfTable(qs, k);
      assert TraitsIn(ps, k) == TraitsIn(qs, k);
    }
  }

  /** A table tells the traits of its properties. */
  lemma TableTells(ps: seq<Field>, qs: seq<Field>, k: string, show: Json -> string)
    requires DistinctKeys(ps) && DistinctKeys(qs) && SameTables(ArgsOf(ps, show), ArgsOf(qs, show))
    requires TraitsIn(ps, k).Some?
    ensures TraitsIn(qs, k) == TraitsIn(ps, k)
  {
    hide TraitsIn, Cores, AllArgs, AllBoolPairs, AllEnums, FlagName, IsBoolean, Variants;
    var p := MemberOfTraits(ps, k);
    match TraitsOf(p.value)
    case Flags(default) =>
      var b := BoolFlagPair(k, FlagName(k), default);
      PairsOfTable(ps, b);
      PairsOfTable(qs, b);
      assert b in Pairs(AllBoolPairs(ps));
      var q :| q in qs && TraitsOf(q.value) == Flags(default) && q.key == k;
      TraitsOfMember(qs, q);
    case Valued(variants) =>
      var c := Arg(k, FlagName(k), if variants != [] then Choice(Texts(variants, show)) else PlainValue, None);
      assert c in CoresFor(k, TraitsOf(p.value), show);
      CoresOfTable(ps, c, show);
      CoresOfTable(qs, c, show);
      var q :| q in qs && c in CoresFor(q.key, TraitsOf(q.value), show);
      TraitsOfMember(qs, q);
      VariantsTell(ps, qs, k, p, q);
  }

  lemma VariantsTell(ps: seq<Field>, qs: seq<Field>, k: string, p: Field, q: Field)
    requires DistinctKeys(ps) && DistinctKeys(qs) && AllEnums(ps) == AllEnums(qs)
    requires p in ps && q in qs && p.key == q.key == k && TraitsOf(p.value).Valued? && TraitsOf(q.value).Valued?
    ensures TraitsOf(p.value) == TraitsOf(q.value)
  {
    hide AllEnums, Variants;
    LookupDistinct(ps, p);
    LookupDistinct(qs, q);
    EnumsOfTable(ps, k);
    EnumsOfTable(qs, k);
  }

  /** Two tables agree exactly when their properties have the same names and traits. */
  lemma SameTablesExactly(ps: seq<Field>, qs: seq<Field>, show: Json -> string)
    requires DistinctKeys(ps) && DistinctKeys(qs)
    ensures SameTables(ArgsOf(ps, show), ArgsOf(qs, show)) <==> SameTraits(ps, qs)
  {
    hide TraitsIn, Cores, AllArgs, AllBoolPairs, AllEnums;
    if SameTraits(ps, qs) {
      EntriesCarryOver(ps, qs, show);
      EntriesCarryOver(qs, ps, show);
      SameEnums(ps, qs);
    }
    if SameTables(ArgsOf(ps, show), ArgsOf(qs, show)) {
      forall k
        ensures TraitsIn(ps, k) == TraitsIn(qs, k)
      {
        if TraitsIn(ps, k).Some? {
          TableTells(ps, qs, k, show);
        } else if TraitsIn(qs, k).Some? {
          TableTells(qs, ps, k, show);
        }
      }
    }
  }

  /** Every property has, raw and foretold, the same traits; only the names that occur on either side matter. */
  predicate Agrees(schema: Json) {
    var names := InlinedRefs.PropsAfter(schema, RefResolver.DefsOf(schema), RefResolver.MAX_REF_DEPTH).keys;
    forall k | k in names + InlinedRefs.Keys(PropertiesOf(schema)) ::
      TraitsAfter(schema, k) == TraitsIn(PropertiesOf(schema), k)
  }

  lemma AgreesOnAllNames(schema: Json)
    requires WellFormed(schema) && RefResolver.ResolveRefs(schema, RefResolver.MAX_REF_DEPTH).Ok?
    ensures Agrees(schema) <==> SameTraits(ResolvedProperties(schema), PropertiesOf(schema))
  {
    hide RefResolver.DefsOf, RefResolver.ResolveRefs, InlinedRefs.PropsAfter, TraitsAfter, PropertiesOf;
    hide ResolvedProperties, Lookup, WellFormed, InlinedRefs.Keys;
    RegisteredNames(schema);
    forall k
      ensures TraitsIn(ResolvedProperties(schema), k) == TraitsAfter(schema, k)
      ensures k in InlinedRefs.Keys(ResolvedProperties(schema)) <==> TraitsIn(ResolvedProperties(schema), k).Some?
      ensures k in InlinedRefs.Keys(PropertiesOf(schema)) <==> TraitsIn(PropertiesOf(schema), k).Some?
    {
      TraitsForetold(schema, k);
      InlinedRefs.InKeys(ResolvedProperties(schema), k);
      InlinedRefs.InKeys(PropertiesOf(schema), k);
    }
  }

  /**
   For every schema that resolves, whatever its root, the registered and the re-derived table agree
   exactly when the raw schema foretells for every property the traits it shows.
   */
  lemma TablesAgreeExactly(schema: Json, show: Json -> string)
    requires WellFormed(schema) && RefResolver.ResolveRefs(schema, RefResolver.MAX_REF_DEPTH).Ok?
    ensures SameTables(ArgsOf(ResolvedProperties(schema), show), ArgsOf(PropertiesOf(schema), show)) <==>
            Agrees(schema)
  {
    hide RefResolver.ResolveRefs, Agrees, SameTables, SameTraits, ArgsOf, PropertiesOf, ResolvedProperties;
    NamesAreDistinct(schema);
    AgreesOnAllNames(schema);
    SameTablesExactly(ResolvedProperties(schema), PropertiesOf(schema), show);
  }

  // ----- what one table extracts under one name -----

  /** What the command line says about a property with these traits. */
  function Meant(k: string, t: Traits, matches: map<string, Stored>, show: Json -> string): Json {
    match t
    case Flags(default) => Bool(Reconciled(matches, k, default))
    case Valued(variants) =>
      var given := StoredText(matches, k);
      if given.Str? then Reconvert(given.s, variants, show) else given
  }

  /** The extraction skips flags named like a negation, unless they are one half of a pair. */
  predicate Read(k: string, t: Traits) {
    t.Flags? || !("no-" <= k)
  }

  lemma {:induction false} RawValues(args: seq<Arg>, matches: map<string, Stored>, id: string)
    ensures id in RawKwargs(args, matches) ==> RawKwargs(args, matches)[id] == StoredText(matches, id)
  {
    if args != [] {
      RawValues(args[..|args| - 1], matches, id);
    }
  }

  lemma {:induction false} RawNames(props: seq<Field>, matches: map<string, Stored>, show: Json -> string, k: string)
    ensures k in RawKwargs(AllArgs(props, show), matches) <==> Has(props, k) && !("no-" <= k)
  {
    hide PropArgs, RawKwargs;
    if props == [] {
      NoRawKwargs(matches);
    } else {
      var init, p := props[..|props| - 1], props[|props| - 1];
      RawNames(init, matches, show, k);
      RawKeysStep(AllArgs(init, show), p, show, matches);
    }
  }

  lemma NoRawKwargs(matches: map<string, Stored>)
    ensures RawKwargs([], matches) == map[]
  {
  }

  /** The boolean read under the name of a boolean property. */
  function PairValue(p: Json, k: string, matches: map<string, Stored>): Json {
    Bool(Reconciled(matches, k, Member(p, "default") == Some(Bool(true))))
  }

  lemma OneMoreKwarg(pairs: seq<BoolFlagPair>, b: BoolFlagPair, matches: map<string, Stored>)
    ensures BoolKwargs(pairs + [b], matches) ==
            BoolKwargs(pairs, matches)[b.propName := Bool(Reconciled(matches, b.propName, b.defaultVal))]
  {
    hide Reconciled;
    assert (pairs + [b])[..|pairs|] == pairs;
  }

  lemma OneMorePair(init: seq<Field>, p: Field, matches: map<string, Stored>)
    ensures BoolKwargs(AllBoolPairs(init + [p]), matches) ==
            var bools := BoolKwargs(AllBoolPairs(init), matches);
            if IsBoolean(p.value) then bools[p.key := PairValue(p.value, p.key, matches)] else bools
  {
    hide IsBoolean, FlagName, Reconciled, Member, BoolKwargs;
    assert (init + [p])[..|init|] == init;
    var b := BoolFlagPair(p.key, FlagName(p.key), Member(p.value, "default") == Some(Bool(true)));
    OneMoreKwarg(AllBoolPairs(init), b, matches);
    assert AllBoolPairs(init) + [] == AllBoolPairs(init);
  }

  lemma {:induction false} PairValues(props: seq<Field>, matches: map<string, Stored>, k: string)
    requires DistinctKeys(props)
    ensures var bools := BoolKwargs(AllBoolPairs(props), matches);
            && (k in bools <==> Has(props, k) && IsBoolean(Lookup(props, k).value))
            && (k in bools ==> bools[k] == PairValue(Lookup(props, k).value, k, matches))
  {
    hide IsBoolean, PairValue, AllBoolPairs, BoolKwargs;
    if props == [] {
      NoPairs(matches);
    } else {
      var init, p := props[..|props| - 1], props[|props| - 1];
      PairValues(init, matches, k);
      LookupIsMember(init, p.key);
      OneMorePair(init, p, matches);
      assert props == init + [p];
    }
  }

  lemma NoPairs(matches: map<string, Stored>)
    ensures BoolKwargs(AllBoolPairs([]), matches) == map[]
  {
  }

  /** Under each name a table extracts exactly what the traits of its property mean. */
  lemma ExtractedAt(props: seq<Field>, matches: map<string, Stored>, show: Json -> string, k: string)
    requires DistinctKeys(props) && Builds(props)
    ensures var kwargs, t := KwargsBy(props, matches, show), TraitsIn(props, k);
            && (k in kwargs <==> t.Some? && Read(k, t.value))
            && (k in kwargs ==> kwargs[k] == Meant(k, t.value, matches, show))
  {
    hide AllArgs, AllBoolPairs, AllEnums, RawKwargs, BoolKwargs, Builds, Reconciled, Reconvert, StoredText, Lookup;
    hide IsBoolean;
    RawValues(AllArgs(props, show), matches, k);
    RawNames(props, matches, show, k);
    PairValues(props, matches, k);
    EnumsOfTable(props, k);
    ReconvertNothing(props, k, show);
    var raw, bools := RawKwargs(AllArgs(props, show), matches), BoolKwargs(AllBoolPairs(props), matches);
    assert k in KwargsBy(props, matches, show) <==> k in raw || k in bools;
  }

  /** A boolean property yields what its two switches say, else its default. */
  lemma BooleanExtracted(props: seq<Field>, p: Field, matches: map<string, Stored>, show: Json -> string)
    requires DistinctKeys(props) && Builds(props) && p in props && Member(p.value, "type") == Some(Str("boolean"))
    ensures var kwargs, negation := KwargsBy(props, matches, show), "no-" + p.key;
            && p.key in kwargs
            && kwargs[p.key] ==
                 if p.key in matches && matches[p.key] == Switch(true) then Bool(true)
                 else if negation in matches && matches[negation] == Switch(true) then Bool(false)
                 else Bool(Member(p.value, "default") == Some(Bool(true)))
  {
    hide KwargsBy, Builds, TraitsIn, Member;
    TraitsOfMember(props, p);
    ExtractedAt(props, matches, show, p.key);
  }

  /** Any other property, unless named like a negation, yields its text as given, or null. */
  lemma TextExtracted(props: seq<Field>, p: Field, matches: map<string, Stored>, show: Json -> string)
    requires DistinctKeys(props) && Builds(props) && p in props && Member(p.value, "type") != Some(Str("boolean"))
    requires Member(p.value, "enum") == None && !("no-" <= p.key)
    ensures var kwargs := KwargsBy(props, matches, show);
            && p.key in kwargs
            && kwargs[p.key] ==
                 if p.key in matches && (matches[p.key].Text? || matches[p.key].FilePath?) then Str(matches[p.key].s)
                 else Null
  {
    hide KwargsBy, Builds, TraitsIn, Member;
    TraitsOfMember(props, p);
    ExtractedAt(props, matches, show, p.key);
    ReconvertNothing(props, p.key, show);
  }

  lemma ReconvertNothing(props: seq<Field>, k: string, show: Json -> string)
    ensures forall text :: Reconvert(text, [], show) == Str(text)
  {
  }

  // ----- when a value arrives -----

  /** What clap holds fits the registered arguments. */
  predicate Fits(matches: map<string, Stored>, args: seq<Arg>) {
    forall a | a in args && a.id in matches :: StoredFits(matches[a.id], a.kind)
  }

  predicate StoredFits(stored: Stored, kind: ArgKind) {
    match kind
    case SetTrue => stored.Switch?
    case SetFalse => stored.Switch?
    case Choice(texts) => stored.Text? && stored.s in texts
    case FileValue => stored.FilePath?
    case PlainValue => stored.Text?
  }

  /** The module gets, under the property's name, what the command line said about it. */
  predicate Arrives(schema: Json, k: string, t: Traits, matches: map<string, Stored>, show: Json -> string) {
    var kwargs := KwargsBy(PropertiesOf(schema), matches, show);
    k in kwargs && kwargs[k] == Meant(k, t, matches, show)
  }

  /** Every text that the registered variants admit is converted alike by the others. */
  predicate ReadAlike(registered: seq<Json>, derived: seq<Json>, show: Json -> string) {
    if registered == [] then
      forall w | w in derived :: Reconvert(TextOf(w, show), derived, show) == Str(TextOf(w, show))
    else
      forall v | v in registered ::
        Reconvert(TextOf(v, show), registered, show) == Reconvert(TextOf(v, show), derived, show)
  }

  /** The re-derived table reads the property as the registered one does. */
  predicate Delivers(k: string, registered: Traits, derived: Option<Traits>, show: Json -> string) {
    match registered
    case Flags(_) => derived == Some(registered)
    case Valued(variants) =>
      && derived.Some? && derived.value.Valued? && !("no-" <= k)
      && ReadAlike(variants, derived.value.variants, show)
  }

  lemma {:induction false} ReconvertUnlisted(text: string, variants: seq<Json>, show: Json -> string)
    requires forall v | v in variants :: TextOf(v, show) != text
    ensures Reconvert(text, variants, show) == Str(text)
  {
    hide TextOf;
    if variants != [] {
      assert variants == [variants[0]] + variants[1..];
      ReconvertUnlisted(text, variants[1..], show);
    }
  }

  /** The texts a registered argument may hold. */
  predicate Admits(variants: seq<Json>, text: string, show: Json -> string) {
    variants == [] || text in Texts(variants, show)
  }

  lemma AdmittedReadAlike(registered: seq<Json>, derived: seq<Json>, text: string, show: Json -> string)
    requires ReadAlike(registered, derived, show) && Admits(registered, text, show)
    ensures Reconvert(text, registered, show) == Reconvert(text, derived, show)
  {
    hide TextOf;
    if registered != [] {
      var i :| 0 <= i < |registered| && Texts(registered, show)[i] == text;
      assert registered[i] in registered;
    } else if exists w :: w in derived && TextOf(w, show) == text {
    } else {
      ReconvertUnlisted(text, derived, show);
    }
  }

  /** A text that is admitted and read differently, if there is one. */
  lemma ReadDifferently(registered: seq<Json>, derived: seq<Json>, show: Json -> string) returns (text: string)
    requires !ReadAlike(registered, derived, show)
    ensures Admits(registered, text, show)
    ensures Reconvert(text, registered, show) != Reconvert(text, derived, show)
  {
    hide TextOf;
    if registered == [] {
      var w :| w in derived && Reconvert(TextOf(w, show), derived, show) != Str(TextOf(w, show));
      text := TextOf(w, show);
    } else {
      var v :| v in registered &&
               Reconvert(TextOf(v, show), registered, show) != Reconvert(TextOf(v, show), derived, show);
      text := TextOf(v, show);
      var i :| 0 <= i < |registered| && registered[i] == v;
      assert Texts(registered, show)[i] == text;
    }
  }

  /** The one argument registered under the name of a property that is no boolean. */
  lemma ArgumentOf(props: seq<Field>, k: string, show: Json -> string) returns (p: Field)
    requires DistinctKeys(props) && Builds(props) && TraitsIn(props, k).Some? && TraitsIn(props, k).value.Valued?
    ensures TraitsIn(props, k) == Some(TraitsOf(p.value)) && p.key == k
    ensures ValueArg(p, show) in AllArgs(props, show)
    ensures forall a | a in AllArgs(props, show) && a.id == k :: a == ValueArg(p, show)
  {
    hide AllArgs, ValueArg, TraitsIn, FlagName, AllFlags, NoRepeats, NoneReserved;
    p := MemberOfTraits(props, k);
    ArgumentListed(props, p, show);
    IdsAreDistinct(props, show);
    var args := AllArgs(props, show);
    var i :| 0 <= i < |args| && args[i] == ValueArg(p, show);
    ValueArgId(p, show);
    forall a | a in args && a.id == k
      ensures a == ValueArg(p, show)
    {
      var j :| 0 <= j < |args| && args[j] == a;
      SameIdSameArg(args, i, j);
    }
  }

  lemma ValueArgId(p: Field, show: Json -> string)
    ensures ValueArg(p, show).id == p.key
  {
  }

  lemma SameIdSameArg(args: seq<Arg>, i: nat, j: nat)
    requires i < |args| && j < |args| && args[i].id == args[j].id && NoRepeats(Ids(args))
    ensures i == j
  {
    assert Ids(args)[i] == Ids(args)[j];
  }

  lemma {:induction false} ArgumentListed(props: seq<Field>, p: Field, show: Json -> string)
    requires p in props && TraitsOf(p.value).Valued?
    ensures ValueArg(p, show) in AllArgs(props, show)
  {
    hide ValueArg;
    if p != props[|props| - 1] {
      assert p in props[..|props| - 1];
      ArgumentListed(props[..|props| - 1], p, show);
    }
  }

  /** What a fitting argument holds is a text its variants admit. */
  lemma FittingText(props: seq<Field>, matches: map<string, Stored>, k: string, show: Json -> string)
    requires DistinctKeys(props) && Builds(props) && Fits(matches, AllArgs(props, show))
    requires TraitsIn(props, k).Some? && TraitsIn(props, k).value.Valued? && k in matches
    ensures !matches[k].Switch? && Admits(TraitsIn(props, k).value.variants, matches[k].s, show)
  {
    hide AllArgs, Builds, TraitsIn, IsFileProperty, Texts;
    var p := ArgumentOf(props, k, show);
    assert StoredFits(matches[ValueArg(p, show).id], ValueArg(p, show).kind);
  }

  /** Every admitted text can be what a fitting argument holds. */
  lemma HoldingText(props: seq<Field>, k: string, text: string, show: Json -> string)
    returns (matches: map<string, Stored>)
    requires DistinctKeys(props) && Builds(props)
    requires TraitsIn(props, k).Some? && TraitsIn(props, k).value.Valued?
    requires Admits(TraitsIn(props, k).value.variants, text, show)
    ensures Fits(matches, AllArgs(props, show)) && StoredText(matches, k) == Str(text)
  {
    hide AllArgs, Builds, TraitsIn, IsFileProperty, Texts;
    var p := ArgumentOf(props, k, show);
    var stored := if ValueArg(p, show).kind.FileValue? then FilePath(text) else Text(text);
    matches := map[k := stored];
    assert StoredFits(stored, ValueArg(p, show).kind);
  }

  /**
   For every schema whose command is built and every registered property: whatever the command line
   says about it arrives at the module, exactly when a table can be derived from the raw schema and that
   table reads the property as the registered one does.
   */
  lemma ArrivesExactly(schema: Json, k: string, show: Json -> string)
    requires WellFormed(schema) && RefResolver.ResolveRefs(schema, RefResolver.MAX_REF_DEPTH).Ok?
    requires Builds(ResolvedProperties(schema)) && TraitsAfter(schema, k).Some?
    ensures (forall matches | Fits(matches, AllArgs(ResolvedProperties(schema), show)) ::
               Arrives(schema, k, TraitsAfter(schema, k).value, matches, show)) <==>
            Builds(PropertiesOf(schema)) &&
            Delivers(k, TraitsAfter(schema, k).value, TraitsIn(PropertiesOf(schema), k), show)
  {
    hide RefResolver.ResolveRefs, TraitsAfter, TraitsIn, ResolvedProperties, PropertiesOf, Builds, AllArgs, Fits;
    hide Arrives, ReadAlike;
    var props, raw, t := ResolvedProperties(schema), PropertiesOf(schema), TraitsAfter(schema, k).value;
    NamesAreDistinct(schema);
    TraitsForetold(schema, k);
    if Builds(raw) && Delivers(k, t, TraitsIn(raw, k), show) {
      forall matches | Fits(matches, AllArgs(props, show))
        ensures Arrives(schema, k, t, matches, show)
      {
        DeliveredArrives(schema, k, t, matches, show);
      }
    } else {
      var matches := LostMatches(schema, k, t, show);
    }
  }

  lemma DeliveredArrives(schema: Json, k: string, t: Traits, matches: map<string, Stored>, show: Json -> string)
    requires DistinctKeys(PropertiesOf(schema)) && Builds(PropertiesOf(schema))
    requires RefResolver.ResolveRefs(schema, RefResolver.MAX_REF_DEPTH).Ok?
    requires DistinctKeys(ResolvedProperties(schema)) && Builds(ResolvedProperties(schema))
    requires TraitsIn(ResolvedProperties(schema), k) == Some(t)
    requires Fits(matches, AllArgs(ResolvedProperties(schema), show))
    requires Delivers(k, t, TraitsIn(PropertiesOf(schema), k), show)
    ensures Arrives(schema, k, t, matches, show)
  {
    hide RefResolver.ResolveRefs, TraitsIn, ResolvedProperties, PropertiesOf, Builds, AllArgs, Fits, KwargsBy;
    hide ReadAlike, Reconvert, Admits;
    ExtractedAt(PropertiesOf(schema), matches, show, k);
    if t.Valued? && k in matches {
      FittingText(ResolvedProperties(schema), matches, k, show);
      var derived := TraitsIn(PropertiesOf(schema), k).value;
      AdmittedReadAlike(t.variants, derived.variants, matches[k].s, show);
    }
  }

  /** A fitting command line whose word about the property is lost. */
  lemma LostMatches(schema: Json, k: string, t: Traits, show: Json -> string) returns (matches: map<string, Stored>)
    requires DistinctKeys(PropertiesOf(schema))
    requires RefResolver.ResolveRefs(schema, RefResolver.MAX_REF_DEPTH).Ok?
    requires DistinctKeys(ResolvedProperties(schema)) && Builds(ResolvedProperties(schema))
    requires TraitsIn(ResolvedProperties(schema), k) == Some(t)
    requires !(Builds(PropertiesOf(schema)) && Delivers(k, t, TraitsIn(PropertiesOf(schema), k), show))
    ensures Fits(matches, AllArgs(ResolvedProperties(schema), show)) && !Arrives(schema, k, t, matches, show)
  {
    hide RefResolver.ResolveRefs, TraitsIn, ResolvedProperties, PropertiesOf, AllArgs, Reconvert, NoneReserved;
    hide ReadAlike, Admits, NoRepeats, AllFlags;
    matches := map[];
    if Builds(PropertiesOf(schema)) {
      var derived := TraitsIn(PropertiesOf(schema), k);
      if t.Valued? && derived.Some? && derived.value.Valued? && !("no-" <= k) {
        var text := ReadDifferently(t.variants, derived.value.variants, show);
        matches := HoldingText(ResolvedProperties(schema), k, text, show);
      }
      ExtractedAt(PropertiesOf(schema), matches, show, k);
    }
  }

  // ----- where the tables agree nothing else can go wrong -----

  /** A property reduced to its name and to whether it is a boolean. */
  function Kinds(props: seq<Field>): seq<Field> {
    seq(|props|, i requires 0 <= i < |props| => Kind(props[i]))
  }

  function Kind(p: Field): Field {
    Field(p.key, if IsBoolean(p.value) then Obj([Field("type", Str("boolean"))]) else Null)
  }

  lemma KindKeepsFlags(p: Field)
    ensures PropFlags(Kind(p)) == PropFlags(p)
  {
    hide FlagName;
    assert [Field("type", Str("boolean"))][..0] == [];
  }

  lemma {:induction false} KindsKeepFlags(props: seq<Field>)
    ensures AllFlags(Kinds(props)) == AllFlags(props)
  {
    hide PropFlags, Kind;
    if props != [] {
      var init, p := props[..|props| - 1], props[|props| - 1];
      KindsKeepFlags(init);
      KindKeepsFlags(p);
      assert Kinds(props)[..|props| - 1] == Kinds(init);
    }
  }

  lemma KindsHaveNoRepeats(props: seq<Field>)
    requires DistinctKeys(props)
    ensures NoRepeats(Kinds(props))
  {
    forall i, j | 0 <= i < j < |props|
      ensures Kinds(props)[i] != Kinds(props)[j]
    {
      assert Kinds(props)[i].key == props[i].key && Kinds(props)[j].key == props[j].key;
    }
  }

  lemma KindsCarryOver(ps: seq<Field>, qs: seq<Field>)
    requires DistinctKeys(ps) && DistinctKeys(qs) && SameTraits(ps, qs)
    ensures forall x | x in Kinds(ps) :: x in Kinds(qs)
    ensures NoneReserved(qs) ==> NoneReserved(ps)
  {
    hide TraitsIn, IsBoolean, RESERVED_PROPERTY_NAMES;
    forall p | p in ps
      ensures Kind(p) in Kinds(qs) && exists q :: q in qs && q.key == p.key
    {
      TraitsOfMember(ps, p);
      var q := MemberOfTraits(qs, p.key);
      var j :| 0 <= j < |qs| && qs[j] == q;
      assert Kinds(qs)[j] == Kind(p);
    }
  }

  /** Tables with the same traits build alike. */
  lemma SameTraitsBuild(ps: seq<Field>, qs: seq<Field>)
    requires DistinctKeys(ps) && DistinctKeys(qs) && SameTraits(ps, qs)
    ensures Builds(ps) <==> Builds(qs)
  {
    hide TraitsIn, Kinds, AllFlags;
    KindsCarryOver(ps, qs);
    KindsCarryOver(qs, ps);
    KindsHaveNoRepeats(ps);
    KindsHaveNoRepeats(qs);
    SameElements(Kinds(ps), Kinds(qs));
    VerdictIgnoresOrder(Kinds(ps), Kinds(qs));
    KindsKeepFlags(ps);
    KindsKeepFlags(qs);
    KindsKeepNames(ps);
    KindsKeepNames(qs);
  }

  lemma KindsKeepNames(props: seq<Field>)
    ensures NoneReserved(Kinds(props)) <==> NoneReserved(props)
  {
    hide RESERVED_PROPERTY_NAMES;
    forall i | 0 <= i < |props|
      ensures Kinds(props)[i] in Kinds(props) && props[i] in props && Kinds(props)[i].key == props[i].key
    {
    }
  }

  /**
   Where the tables agree, the extraction gives for every command line what the registered table itself
   would give: only values of flags named like a negation are lost.
   */
  lemma AgreementDelivers(schema: Json, matches: map<string, Stored>, show: Json -> string)
    requires WellFormed(schema) && RefResolver.ResolveRefs(schema, RefResolver.MAX_REF_DEPTH).Ok?
    requires Agrees(schema)
    ensures KwargsBy(PropertiesOf(schema), matches, show) == KwargsBy(ResolvedProperties(schema), matches, show)
    ensures Builds(ResolvedProperties(schema)) ==>
              forall k | TraitsAfter(schema, k).Some? && Read(k, TraitsAfter(schema, k).value) ::
                Arrives(schema, k, TraitsAfter(schema, k).value, matches, show)
  {
    hide RefResolver.ResolveRefs, Agrees, TraitsIn, TraitsAfter, ResolvedProperties, PropertiesOf, Builds;
    hide Reconvert, ReconvertAll, AllArgs, AllBoolPairs, AllEnums;
    var props, raw := ResolvedProperties(schema), PropertiesOf(schema);
    NamesAreDistinct(schema);
    AgreesOnAllNames(schema);
    SameTraitsBuild(props, raw);
    if Builds(props) {
      forall k
        ensures k in KwargsBy(raw, matches, show) <==> k in KwargsBy(props, matches, show)
        ensures k in KwargsBy(raw, matches, show) ==>
                  KwargsBy(raw, matches, show)[k] == KwargsBy(props, matches, show)[k]
        ensures TraitsAfter(schema, k).Some? && Read(k, TraitsAfter(schema, k).value) ==>
                  Arrives(schema, k, TraitsAfter(schema, k).value, matches, show)
      {
        ExtractedAt(props, matches, show, k);
        ExtractedAt(raw, matches, show, k);
        TraitsForetold(schema, k);
      }
    }
  }
}
