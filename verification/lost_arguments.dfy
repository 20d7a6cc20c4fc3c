/**
 Schemas whose arguments are registered and do not reach the module (src/cli.rs): the cases in which the
 two tables of `ArgumentDelivery` read a property differently.
 */
module LostArguments {
  import opened ArgumentDelivery
  import opened Json
  import opened ModuleCommand
  import opened SchemaParser
  import opened SchemaPaths
  import InlinedRefs
  import RefResolver
  import RefSubstitution
  import ResolvedSchema

  const CORE_KEYS := {"$ref", "allOf", "anyOf", "oneOf"}

  lemma OneField(k: string, v: Json)
    ensures forall j :: Lookup([Field(k, v)], j) == if j == k then Some(v) else None
  {
    assert [Field(k, v)][..0] == [];
  }

  lemma TwoFields(a: string, v: Json, b: string, w: Json)
    ensures forall j :: Lookup([Field(a, v), Field(b, w)], j) ==
                        if j == b then Some(w) else if j == a then Some(v) else None
  {
    OneField(a, v);
    assert [Field(a, v), Field(b, w)][..1] == [Field(a, v)];
  }

  lemma OneFieldWellFormed(k: string, v: Json)
    requires WellFormed(v)
    ensures WellFormed(Obj([Field(k, v)]))
  {
    assert forall f | f in [Field(k, v)] :: f.value == v;
  }

  lemma TwoFieldsWellFormed(a: string, v: Json, b: string, w: Json)
    requires WellFormed(v) && WellFormed(w) && a != b
    ensures WellFormed(Obj([Field(a, v), Field(b, w)]))
  {
    assert forall f | f in [Field(a, v), Field(b, w)] :: f.value == v || f.value == w;
  }

  lemma OneItemWellFormed(v: Json)
    requires WellFormed(v)
    ensures WellFormed(Arr([v]))
  {
    assert forall x | x in [v] :: x == v;
  }

  /** A value with nothing to inline. */
  predicate Ready(v: Json) {
    WellFormed(v) && ResolvedSchema.NothingToInline(v)
  }

  lemma ReadyAsSeen(v: Json, defs: seq<Field>, budget: nat, path: seq<string>)
    requires Ready(v) && ResolvedSchema.AllWellFormed(defs)
    ensures SeeAfter(v, defs, budget, path) == See(v, path)
  {
    hide SeeAfter, See;
    ResolvedSchema.NothingInlined(v, defs, budget);
    Foreseen(v, defs, budget, path);
  }

  /** An object with these properties, none of which is named like a keyword. */
  predicate Declares(node: Json, inner: seq<Field>) {
    && node.Obj? && !Has(node.fields, "$ref") && RefResolver.KeywordOf(node.fields).None?
    && Lookup(node.fields, "properties") == Some(Obj(inner))
    && !Has(inner, "$ref") && RefResolver.KeywordOf(inner).None?
  }

  lemma AheadOfPlain(node: Json, inner: seq<Field>, defs: seq<Field>, budget: nat, k: string, more: seq<string>)
    requires Declares(node, inner)
    ensures SeeAfter(node, defs, budget, ["properties", k] + more) ==
            if Has(inner, k) then SeeAfter(Lookup(inner, k).value, defs, budget, more) else Absent
  {
    hide Lookup, RefResolver.KeywordOf;
    var path := ["properties", k] + more;
    assert path[1..] == [k] + more && path[1..][1..] == more;
    assert SeeAfter(node, defs, budget, path) == SeeAfter(Obj(inner), defs, budget, path[1..]);
  }

  lemma TraitsFromSight(schema: Json, k: string, prop: Json)
    requires forall more :: Ahead(schema, ["properties", k] + more) == See(prop, more)
    ensures TraitsAfter(schema, k) == Some(TraitsOf(prop))
  {
    hide Ahead, See;
    assert ["properties", k] + [] == ["properties", k];
    assert ["properties", k] + ["type"] == ["properties", k, "type"];
    assert ["properties", k] + ["default"] == ["properties", k, "default"];
    assert ["properties", k] + ["enum"] == ["properties", k, "enum"];
    SomethingSeen(prop);
    MemberSeen(prop, "type");
    MemberSeen(prop, "default");
    MemberSeen(prop, "enum");
  }

  lemma ExpandsResolves(schema: Json)
    requires RefSubstitution.Expand(schema, RefResolver.DefsOf(schema), RefResolver.MAX_REF_DEPTH).Some?
    ensures RefResolver.ResolveRefs(schema, RefResolver.MAX_REF_DEPTH).Ok?
  {
    hide RefResolver.Resolve, RefSubstitution.Expand, RefResolver.DefsOf;
    var defs, limit := RefResolver.DefsOf(schema), RefResolver.MAX_REF_DEPTH;
    RefSubstitution.ResolverRefinesSubstitution(schema, defs, limit, RefSubstitution.Expand(schema, defs, limit).value);
  }

  /** `{"properties": {k: prop}}` */
  function OneProperty(k: string, prop: Json): Json {
    Obj([Field("properties", Obj([Field(k, prop)]))])
  }

  lemma OneFieldIsReady(k: string, v: Json)
    requires Ready(v) && k !in CORE_KEYS
    ensures Ready(Obj([Field(k, v)]))
  {
    hide Lookup;
    OneField(k, v);
    assert forall f | f in [Field(k, v)] :: f.value == v;
  }

  lemma OnePropertyIsReady(k: string, prop: Json)
    requires Ready(prop) && k !in CORE_KEYS
    ensures Ready(OneProperty(k, prop)) && Declares(OneProperty(k, prop), [Field(k, prop)])
  {
    hide Lookup, Ready;
    OneField(k, prop);
    OneField("properties", Obj([Field(k, prop)]));
    OneFieldIsReady(k, prop);
    OneFieldIsReady("properties", Obj([Field(k, prop)]));
  }

  /** A root whose only branch declares one property. */
  predicate OneBranch(schema: Json, k: string, prop: Json) {
    && schema.Obj? && WellFormed(schema) && !Has(schema.fields, "$ref")
    && Lookup(schema.fields, "allOf") == Some(Arr([OneProperty(k, prop)]))
  }

  lemma OneBranchShape(schema: Json, k: string, prop: Json)
    requires OneBranch(schema, k, prop)
    ensures RefResolver.ShapeOf(schema) == RefResolver.Inner(1, [OneProperty(k, prop)])
    ensures RefResolver.KeywordOf(schema.fields) == Some("allOf")
  {
    hide Lookup;
  }

  lemma OneBranchResolves(schema: Json, k: string, prop: Json)
    requires OneBranch(schema, k, prop) && Ready(prop) && k !in CORE_KEYS
    ensures RefResolver.ResolveRefs(schema, RefResolver.MAX_REF_DEPTH).Ok?
    ensures TraitsAfter(schema, k) == Some(TraitsOf(prop))
  {
    hide RefResolver.ResolveRefs, RefResolver.DefsOf, RefResolver.ShapeOf, RefResolver.KeywordOf, RefResolver.Assemble;
    hide RefSubstitution.ExpandItems, ResolvedSchema.NothingToInline, WellFormed, Declares, TraitsOf, TraitsAfter, See;
    var defs, limit, branch := RefResolver.DefsOf(schema), RefResolver.MAX_REF_DEPTH, OneProperty(k, prop);
    OnePropertyIsReady(k, prop);
    OneBranchShape(schema, k, prop);
    ResolvedSchema.NothingInlinedInItems([branch], defs, limit - 1);
    assert RefSubstitution.Expand(schema, defs, limit).Some?;
    ExpandsResolves(schema);
    ResolvedSchema.DefsWellFormed(schema);
    forall more
      ensures Ahead(schema, ["properties", k] + more) == See(prop, more)
    {
      AheadOfBranch(schema, k, prop, more);
    }
    TraitsFromSight(schema, k, prop);
  }

  lemma AheadOfBranch(schema: Json, k: string, prop: Json, more: seq<string>)
    requires OneBranch(schema, k, prop) && Ready(prop) && k !in CORE_KEYS
    ensures Ahead(schema, ["properties", k] + more) == See(prop, more)
  {
    hide RefResolver.DefsOf, RefResolver.ShapeOf, RefResolver.KeywordOf, Lookup, Ready, See;
    hide Declares, WellFormed;
    var defs, limit, branch := RefResolver.DefsOf(schema), RefResolver.MAX_REF_DEPTH, OneProperty(k, prop);
    var path := ["properties", k] + more;
    OnePropertyIsReady(k, prop);
    OneBranchShape(schema, k, prop);
    OneField(k, prop);
    DefsReady(schema);
    AheadOfPlain(branch, [Field(k, prop)], defs, limit - 1, k, more);
    AheadOfPlain(branch, [Field(k, prop)], defs, limit - 1, k, []);
    ReadyAsSeen(prop, defs, limit - 1, more);
    ReadyAsSeen(prop, defs, limit - 1, []);
    SomethingSeen(prop);
    assert path[..2] == ["properties", k] + [];
    assert SeeInBranches([branch], defs, limit - 1, path) == Some(See(prop, more));
  }

  lemma DefsReady(schema: Json)
    requires WellFormed(schema)
    ensures ResolvedSchema.AllWellFormed(RefResolver.DefsOf(schema))
  {
    ResolvedSchema.DefsWellFormed(schema);
  }

  lemma AllOfAlone(branch: Json)
    requires Ready(branch)
    ensures var schema := Obj([Field("allOf", Arr([branch]))]);
            && WellFormed(schema) && !Has(schema.fields, "$ref")
            && Lookup(schema.fields, "allOf") == Some(Arr([branch])) && PropertiesOf(schema) == []
  {
    hide ResolvedSchema.NothingToInline, Lookup;
    OneField("allOf", Arr([branch]));
  }

  lemma NothingExtracted(show: Json -> string)
    ensures forall matches :: KwargsBy([], matches, show) == map[]
  {
    forall matches: map<string, Stored>
      ensures KwargsBy([], matches, show) == map[]
    {
      assert AllArgs([], show) == [] && AllBoolPairs([]) == [];
      assert RawKwargs([], matches) == map[] && BoolKwargs([], matches) == map[];
    }
  }

  lemma FlagOfTraits(props: seq<Field>, k: string)
    requires TraitsIn(props, k).Some?
    ensures FlagName(k) in AllFlags(props)
  {
    hide AllFlags, FlagName, TraitsIn;
    var p := MemberOfTraits(props, k);
    OwnFlagListed(props, p);
  }

  /** A property declared by an allOf branch gets a flag, and what is given for it never reaches the module. */
  lemma BranchPropertyIsLost(k: string, prop: Json, show: Json -> string) returns (schema: Json)
    requires Ready(prop) && k !in CORE_KEYS
    ensures WellFormed(schema) && RefResolver.ResolveRefs(schema, RefResolver.MAX_REF_DEPTH).Ok?
    ensures TraitsAfter(schema, k) == Some(TraitsOf(prop)) && FlagName(k) in AllFlags(ResolvedProperties(schema))
    ensures forall matches :: KwargsBy(PropertiesOf(schema), matches, show) == map[]
  {
    hide RefResolver.ResolveRefs, TraitsAfter, TraitsOf, TraitsIn, FlagName, ResolvedProperties, Ready, Lookup;
    hide AllFlags, KwargsBy, PropertiesOf, WellFormed, OneProperty;
    var branch := OneProperty(k, prop);
    schema := Obj([Field("allOf", Arr([branch]))]);
    OnePropertyIsReady(k, prop);
    AllOfAlone(branch);
    OneBranchResolves(schema, k, prop);
    TraitsForetold(schema, k);
    FlagOfTraits(ResolvedProperties(schema), k);
    NothingExtracted(show);
  }

  function Typed(name: string): Json {
    Obj([Field("type", Str(name))])
  }

  lemma TypedIsReady(name: string)
    ensures Ready(Typed(name))
    ensures TraitsOf(Typed(name)) == if name == "boolean" then Flags(false) else Valued([])
  {
    OneField("type", Str(name));
  }

  /** The switch registered for a boolean holds no text. */
  lemma SwitchHoldsNoText(props: seq<Field>, k: string, default: bool, matches: map<string, Stored>,
                          show: Json -> string)
    requires DistinctKeys(props) && TraitsIn(props, k) == Some(Flags(default))
    requires Fits(matches, AllArgs(props, show))
    ensures StoredText(matches, k) == Null
  {
    hide AllArgs, TraitsIn, TraitsOf, FlagName;
    var p := MemberOfTraits(props, k);
    var c := Arg(k, FlagName(k), SetTrue, None);
    assert c in CoresFor(k, Flags(default), show);
    CoresOfTable(props, c, show);
    var a :| a in AllArgs(props, show) && Core(a) == c;
  }

  lemma OneNameBuilds(k: string, v: Json)
    requires k !in RESERVED_PROPERTY_NAMES
    ensures Builds([Field(k, v)])
  {
    hide FlagName, IsBoolean, RESERVED_PROPERTY_NAMES;
    var props := [Field(k, v)];
    assert props[..0] == [];
    NegationDiffers(FlagName(k));
    assert AllFlags(props) == PropFlags(props[0]);
  }

  /** `{"properties": {k: {"type": "string"}}, "allOf": [{"properties": {k: {"type": "boolean"}}}]}` */
  function TwoKinds(k: string): Json {
    Obj([Field("properties", Obj([Field(k, Typed("string"))])),
         Field("allOf", Arr([OneProperty(k, Typed("boolean"))]))])
  }

  lemma TwoKindsShape(k: string)
    requires k !in CORE_KEYS
    ensures OneBranch(TwoKinds(k), k, Typed("boolean"))
    ensures PropertiesOf(TwoKinds(k)) == [Field(k, Typed("string"))]
  {
    hide Lookup, Declares, WellFormed, OneProperty, Typed;
    var own, branch := Obj([Field(k, Typed("string"))]), OneProperty(k, Typed("boolean"));
    TypedIsReady("boolean");
    TypedIsReady("string");
    OnePropertyIsReady(k, Typed("boolean"));
    OneFieldWellFormed(k, Typed("string"));
    OneItemWellFormed(branch);
    TwoFields("properties", own, "allOf", Arr([branch]));
    TwoFieldsWellFormed("properties", own, "allOf", Arr([branch]));
  }

  lemma ExtractedFromOne(k: string, v: Json, matches: map<string, Stored>, show: Json -> string)
    requires k !in RESERVED_PROPERTY_NAMES && !("no-" <= k)
    ensures TraitsIn([Field(k, v)], k) == Some(TraitsOf(v))
    ensures k in KwargsBy([Field(k, v)], matches, show)
    ensures KwargsBy([Field(k, v)], matches, show)[k] == Meant(k, TraitsOf(v), matches, show)
  {
    hide KwargsBy, Meant, Lookup, TraitsOf, Builds;
    OneField(k, v);
    OneNameBuilds(k, v);
    ExtractedAt([Field(k, v)], matches, show, k);
  }

  /**
   A branch that changes a property's kind adds no name, and still what is given for it is lost: the
   command has a pair of switches, the extraction looks for a text and finds none.
   */
  lemma BranchKindIsLost(k: string, show: Json -> string) returns (schema: Json)
    requires k !in CORE_KEYS && k !in RESERVED_PROPERTY_NAMES && !("no-" <= k)
    ensures WellFormed(schema) && RefResolver.ResolveRefs(schema, RefResolver.MAX_REF_DEPTH).Ok?
    ensures TraitsAfter(schema, k) == Some(Flags(false)) && TraitsIn(PropertiesOf(schema), k) == Some(Valued([]))
    ensures forall matches | Fits(matches, AllArgs(ResolvedProperties(schema), show)) ::
              k in KwargsBy(PropertiesOf(schema), matches, show)
              && KwargsBy(PropertiesOf(schema), matches, show)[k] == Null
  {
    hide RefResolver.ResolveRefs, TraitsAfter, TraitsIn, TraitsOf, ResolvedProperties, PropertiesOf, Ready, Lookup;
    hide KwargsBy, TwoKinds, Typed, Fits, StoredText, WellFormed, AllArgs, RESERVED_PROPERTY_NAMES, Reconciled;
    schema := TwoKinds(k);
    TwoKindsShape(k);
    TypedIsReady("boolean");
    TypedIsReady("string");
    OneBranchResolves(schema, k, Typed("boolean"));
    TraitsForetold(schema, k);
    NamesAreDistinct(schema);
    ExtractedFromOne(k, Typed("string"), map[], show);
    forall matches | Fits(matches, AllArgs(ResolvedProperties(schema), show))
      ensures k in KwargsBy(PropertiesOf(schema), matches, show)
      ensures KwargsBy(PropertiesOf(schema), matches, show)[k] == Null
    {
      ExtractedFromOne(k, Typed("string"), matches, show);
      SwitchHoldsNoText(ResolvedProperties(schema), k, false, matches, show);
    }
  }

  // ----- references -----

  function Reference(d: string): Json {
    Obj([Field("$ref", Str("#/$defs/" + d))])
  }

  lemma ReferenceShape(d: string, def: Json)
    requires '/' !in d
    ensures RefResolver.ShapeOf(Reference(d)) == RefResolver.Ref("#/$defs/" + d)
    ensures RefResolver.Target([Field(d, def)], "#/$defs/" + d) == Some(def)
  {
    OneField("$ref", Str("#/$defs/" + d));
    OneField(d, def);
    assert "#/$defs/" + d == "#/$defs" + "/" + d;
    InlinedRefs.LastOfPath("#/$defs", d);
  }

  lemma ReferenceWellFormed(d: string)
    ensures WellFormed(Reference(d))
  {
    OneFieldWellFormed("$ref", Str("#/$defs/" + d));
  }

  /** `{"properties": {k: {"$ref": "#/$defs/d"}}, "$defs": {d: def}}` */
  function Behind(k: string, d: string, def: Json): Json {
    Obj([Field("properties", Obj([Field(k, Reference(d))])), Field("$defs", Obj([Field(d, def)]))])
  }

  lemma BehindShape(k: string, d: string, def: Json)
    requires Ready(def) && k !in CORE_KEYS && '/' !in d
    ensures WellFormed(Behind(k, d, def)) && RefResolver.DefsOf(Behind(k, d, def)) == [Field(d, def)]
    ensures Declares(Behind(k, d, def), [Field(k, Reference(d))])
    ensures PropertiesOf(Behind(k, d, def)) == [Field(k, Reference(d))]
  {
    hide Lookup, ResolvedSchema.NothingToInline, WellFormed, Reference;
    var inner, definitions := Obj([Field(k, Reference(d))]), Obj([Field(d, def)]);
    ReferenceWellFormed(d);
    OneFieldWellFormed(k, Reference(d));
    OneFieldWellFormed(d, def);
    OneField(k, Reference(d));
    TwoFields("properties", inner, "$defs", definitions);
    TwoFieldsWellFormed("properties", inner, "$defs", definitions);
  }

  lemma ExpandReference(d: string, def: Json, budget: nat)
    requires Ready(def) && '/' !in d && budget > 0
    ensures RefSubstitution.Expand(Reference(d), [Field(d, def)], budget) == Some(def)
    ensures forall more :: SeeAfter(Reference(d), [Field(d, def)], budget, more) == See(def, more)
  {
    hide RefResolver.Target, RefResolver.ShapeOf, See, Reference;
    ReferenceShape(d, def);
    ResolvedSchema.NothingInlined(def, [Field(d, def)], budget - 1);
    forall more
      ensures SeeAfter(Reference(d), [Field(d, def)], budget, more) == See(def, more)
    {
      ReadyAsSeen(def, [Field(d, def)], budget - 1, more);
    }
  }

  lemma ExpandTwo(a: Json, b: Json, defs: seq<Field>, budget: nat)
    requires RefSubstitution.Expand(a, defs, budget).Some? && RefSubstitution.Expand(b, defs, budget).Some?
    ensures RefSubstitution.ExpandItems([a], defs, budget).Some?
    ensures RefSubstitution.ExpandItems([a, b], defs, budget).Some?
  {
    hide RefSubstitution.Expand;
    assert [a][..0] == [] && RefSubstitution.ExpandItems([a], defs, budget).Some?;
    assert [a, b][..1] == [a];
  }

  lemma ExpandPlain(node: Json, defs: seq<Field>, budget: nat)
    requires node.Obj? && !Has(node.fields, "$ref") && RefResolver.KeywordOf(node.fields).None?
    requires RefSubstitution.ExpandItems(Values(node.fields), defs, budget).Some?
    ensures RefSubstitution.Expand(node, defs, budget).Some?
  {
    hide RefSubstitution.ExpandItems, RefResolver.Assemble;
  }

  lemma BehindResolves(k: string, d: string, def: Json)
    requires Ready(def) && k !in CORE_KEYS && '/' !in d && d !in CORE_KEYS
    ensures RefResolver.ResolveRefs(Behind(k, d, def), RefResolver.MAX_REF_DEPTH).Ok?
  {
    hide RefResolver.ResolveRefs, RefResolver.ShapeOf, RefResolver.KeywordOf, RefSubstitution.Expand, Ready, Reference;
    hide RefSubstitution.ExpandItems, Lookup, RefResolver.DefsOf, WellFormed;
    var schema, inner, definitions := Behind(k, d, def), Obj([Field(k, Reference(d))]), Obj([Field(d, def)]);
    var defs, limit := [Field(d, def)], RefResolver.MAX_REF_DEPTH;
    BehindShape(k, d, def);
    ExpandReference(d, def, limit);
    assert Values(inner.fields) == [Reference(d)];
    assert Values(schema.fields) == [inner, definitions];
    ExpandTwo(Reference(d), Reference(d), defs, limit);
    ExpandPlain(inner, defs, limit);
    OneFieldIsReady(d, def);
    ResolvedSchema.NothingInlined(definitions, defs, limit) by { assert Ready(definitions); ReadyIs(definitions); }
    ExpandTwo(inner, definitions, defs, limit);
    ExpandPlain(schema, defs, limit);
    ExpandsResolves(schema);
  }

  lemma ReadyIs(v: Json)
    requires Ready(v)
    ensures WellFormed(v) && ResolvedSchema.NothingToInline(v)
  {
  }

  lemma BehindTraits(k: string, d: string, def: Json, j: string)
    requires Ready(def) && k !in CORE_KEYS && '/' !in d
    ensures TraitsAfter(Behind(k, d, def), j) == if j == k then Some(TraitsOf(def)) else None
  {
    hide RefResolver.DefsOf, SeeAfter, See, Lookup, Ready, Behind, Reference, Declares, TraitsOf;
    var schema, inner, defs, limit := Behind(k, d, def), [Field(k, Reference(d))], [Field(d, def)],
                                      RefResolver.MAX_REF_DEPTH;
    BehindShape(k, d, def);
    OneField(k, Reference(d));
    if j == k {
      ExpandReference(d, def, limit);
      forall more
        ensures Ahead(schema, ["properties", k] + more) == See(def, more)
      {
        AheadOfPlain(schema, inner, defs, limit, k, more);
      }
      TraitsFromSight(schema, k, def);
    } else {
      AheadOfPlain(schema, inner, defs, limit, j, []);
      assert ["properties", j] + [] == ["properties", j];
    }
  }

  lemma NamedAlike(props: seq<Field>, k: string)
    requires forall i :: 0 <= i < |props| ==> props[i].key == k
    ensures |props| >= 2 ==> !DistinctKeys(props)
  {
    if |props| >= 2 {
      assert props[0].key == props[1].key;
    }
  }

  lemma SingleName(props: seq<Field>, k: string)
    requires DistinctKeys(props) && forall j :: TraitsIn(props, j).Some? <==> j == k
    ensures exists v :: props == [Field(k, v)]
  {
    hide TraitsOf;
    forall i | 0 <= i < |props|
      ensures props[i].key == k
    {
      TraitsOfMember(props, props[i]);
    }
    var p := MemberOfTraits(props, k);
    NamedAlike(props, k);
    assert props == [Field(k, props[0].value)];
  }

  /**
   A property that is a reference is read by the extraction as plain text whatever it refers to. So what
   is given for it arrives exactly when its definition is no boolean, every variant there reads back as
   text, and the name does not look like a negation.
   */
  lemma ReferencedArrivesExactly(k: string, d: string, def: Json, show: Json -> string)
    requires Ready(def) && k !in CORE_KEYS && k !in RESERVED_PROPERTY_NAMES && '/' !in d && d !in CORE_KEYS
    ensures var schema := Behind(k, d, def);
            && RefResolver.ResolveRefs(schema, RefResolver.MAX_REF_DEPTH).Ok?
            && TraitsAfter(schema, k) == Some(TraitsOf(def)) && TraitsIn(PropertiesOf(schema), k) == Some(Valued([]))
            && ((forall matches | Fits(matches, AllArgs(ResolvedProperties(schema), show)) ::
                   Arrives(schema, k, TraitsOf(def), matches, show)) <==>
                TraitsOf(def).Valued? && !("no-" <= k) &&
                forall v | v in Variants(def) ::
                  Reconvert(TextOf(v, show), Variants(def), show) == Str(TextOf(v, show)))
  {
    hide RefResolver.ResolveRefs, TraitsAfter, TraitsIn, ResolvedProperties, PropertiesOf, Ready, Behind, AllArgs;
    hide Arrives, Fits, RESERVED_PROPERTY_NAMES, IsBoolean, TextOf, WellFormed, Builds;
    var schema := Behind(k, d, def);
    BehindShape(k, d, def);
    BehindResolves(k, d, def);
    NamesAreDistinct(schema);
    forall j
      ensures TraitsIn(ResolvedProperties(schema), j) == if j == k then Some(TraitsOf(def)) else None
    {
      BehindTraits(k, d, def, j);
      TraitsForetold(schema, j);
    }
    BehindTraits(k, d, def, k);
    SingleName(ResolvedProperties(schema), k);
    var v :| ResolvedProperties(schema) == [Field(k, v)];
    OneNameBuilds(k, v);
    OneNameBuilds(k, Reference(d));
    ReferenceIsPlain(k, d);
    ArrivesExactly(schema, k, show);
  }

  lemma ReferenceIsPlain(k: string, d: string)
    ensures TraitsIn([Field(k, Reference(d))], k) == Some(Valued([]))
  {
    OneField(k, Reference(d));
    OneField("$ref", Str("#/$defs/" + d));
  }

  /** A schema that is itself a reference: the definition's properties all get flags, and nothing is extracted. */
  lemma RootReferenceLosesAll(d: string, def: Json, k: string, show: Json -> string) returns (schema: Json)
    requires Ready(def) && '/' !in d
    ensures WellFormed(schema) && RefResolver.ResolveRefs(schema, RefResolver.MAX_REF_DEPTH).Ok?
    ensures TraitsIn(ResolvedProperties(schema), k) == TraitsIn(RefResolver.PropsOf(def), k)
    ensures forall matches :: KwargsBy(PropertiesOf(schema), matches, show) == map[]
  {
    hide RefResolver.ResolveRefs, RefResolver.Target, TraitsIn, ResolvedProperties, Ready, Lookup, KwargsBy, WellFormed;
    hide See, RefResolver.ShapeOf;
    var reference, definitions := Str("#/$defs/" + d), Obj([Field(d, def)]);
    schema := Obj([Field("$ref", reference), Field("$defs", definitions)]);
    TwoFields("$ref", reference, "$defs", definitions);
    ReadyIs(def);
    OneFieldWellFormed(d, def);
    TwoFieldsWellFormed("$ref", reference, "$defs", definitions);
    var defs, limit := [Field(d, def)], RefResolver.MAX_REF_DEPTH;
    ReferenceShape(d, def);
    RootShape(schema, d);
    ResolvedSchema.NothingInlined(def, defs, limit - 1);
    ExpandsResolves(schema);
    TraitsForetold(schema, k);
    forall path
      ensures Ahead(schema, path) == See(def, path)
    {
      ReadyAsSeen(def, defs, limit - 1, path);
    }
    TraitsSeen(def, k);
    NothingExtracted(show);
  }

  lemma RootShape(schema: Json, d: string)
    requires schema.Obj? && Lookup(schema.fields, "$ref") == Some(Str("#/$defs/" + d))
    ensures RefResolver.ShapeOf(schema) == RefResolver.Ref("#/$defs/" + d)
  {
  }
}
