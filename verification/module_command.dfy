/**
 The command built for a module and the arguments read back from it (src/cli.rs): the registered flags
 come from the resolved schema, the extraction derives them again from the raw one.
 */
module ModuleCommand {
  import opened Json
  import opened SchemaParser
  import opened Sequences
  import RefResolver
  import RefSubstitution
  import ResolvedSchema
  import InlinedRefs

  /** The long flags every module command has, whatever its schema. */
  const DISPATCH_FLAGS: seq<string> := [
    "input", "yes", "large-input", "format", "fields", "sandbox", "dry-run", "trace", "stream", "strategy",
    "approval-timeout", "approval-token"]

  const RESERVED_FLAG_NAMES: seq<string> := DISPATCH_FLAGS + ["all-options"]

  datatype CliError =
    | ReservedModuleId
    | SchemaRefResolution(source: RefResolver.RefError)
    | SchemaParserFailure(parse: ParseError)

  datatype CliResult<+T> = Success(value: T) | Failure(error: CliError)

  /** A built-in argument has its long flag as id. */
  function DispatchArgs(): seq<Arg> {
    seq(|DISPATCH_FLAGS|, i requires 0 <= i < |DISPATCH_FLAGS| =>
      Arg(DISPATCH_FLAGS[i], DISPATCH_FLAGS[i], PlainValue, None))
  }

  /** The built-in long flags, and with `all-options` the reserved ones. */
  lemma ReservedFlags(flag: string)
    ensures flag in DISPATCH_FLAGS <==>
            flag in ["approval-timeout", "approval-token", "dry-run", "fields", "format", "input", "large-input",
                     "sandbox", "strategy", "stream", "trace", "yes"]
    ensures flag in RESERVED_FLAG_NAMES <==> flag in DISPATCH_FLAGS || flag == "all-options"
  {
  }

  lemma ReservedAreDistinct()
    ensures NoRepeats(RESERVED_FLAG_NAMES)
  {
  }

  /** A reserved property name always turns into a reserved flag. */
  lemma ReservedNameIsReservedFlag(name: string)
    requires name in RESERVED_PROPERTY_NAMES
    ensures FlagName(name) in RESERVED_FLAG_NAMES
  {
    assert FlagName("large_input") == "large-input";
    assert FlagName("all_options") == "all-options";
    assert FlagName("dry_run") == "dry-run";
    assert FlagName("approval_timeout") == "approval-timeout";
    assert FlagName("approval_token") == "approval-token";
    if '_' !in name {
      assert FlagName(name) == name;
    }
  }

  function ResolvedProperties(schema: Json): seq<Field>
    requires RefResolver.ResolveRefs(schema, RefResolver.MAX_REF_DEPTH).Ok?
  {
    PropertiesOf(RefResolver.ResolveRefs(schema, RefResolver.MAX_REF_DEPTH).value)
  }

  lemma NoReservedFlag(props: seq<Field>)
    requires forall f | f in AllFlags(props) :: f !in RESERVED_FLAG_NAMES
    ensures NoneReserved(props)
  {
    hide RESERVED_FLAG_NAMES, RESERVED_PROPERTY_NAMES;
    forall p | p in props
      ensures p.key !in RESERVED_PROPERTY_NAMES
    {
      OwnFlagListed(props, p);
      if p.key in RESERVED_PROPERTY_NAMES {
        ReservedNameIsReservedFlag(p.key);
      }
    }
  }

  lemma {:induction false} OwnFlagListed(props: seq<Field>, p: Field)
    requires p in props
    ensures FlagName(p.key) in AllFlags(props)
  {
    var last := props[|props| - 1];
    if last != p {
      assert p in props[..|props| - 1];
      OwnFlagListed(props[..|props| - 1], p);
    }
  }

  /**
   A command is built exactly when the module id is free, the schema resolves, and the reserved flags
   together with all derived flags are pairwise distinct.
   */
  method BuildModuleCommand(reservedId: bool, inputSchema: Json, show: Json -> string) returns (r: CliResult<seq<Arg>>)
    ensures r.Success? <==>
            && !reservedId
            && RefResolver.ResolveRefs(inputSchema, RefResolver.MAX_REF_DEPTH).Ok?
            && NoRepeats(RESERVED_FLAG_NAMES + AllFlags(ResolvedProperties(inputSchema)))
    ensures r.Success? ==> r.value == DispatchArgs() + AllArgs(ResolvedProperties(inputSchema), show)
    ensures r.Failure? && r.error.SchemaRefResolution? <==>
            !reservedId && RefResolver.ResolveRefs(inputSchema, 32).Err?
  {
    hide RESERVED_FLAG_NAMES, DispatchArgs, RefResolver.ResolveRefs, PropertiesOf, AllFlags, AllArgs, NoneReserved;
    if reservedId {
      return Failure(ReservedModuleId);
    }
    var resolved := RefResolver.ResolveRefsInPlace(inputSchema, RefResolver.MAX_REF_DEPTH);
    if resolved.Err? {
      return Failure(SchemaRefResolution(resolved.error));
    }
    ghost var props := PropertiesOf(resolved.value);
    ReservedAreDistinct();
    NoRepeatsConcat(RESERVED_FLAG_NAMES, AllFlags(props));
    var parsed := SchemaToClapArgs(resolved.value, show);
    if parsed.Err? {
      if forall f | f in AllFlags(props) :: f !in RESERVED_FLAG_NAMES {
        NoReservedFlag(props);
      }
      return Failure(SchemaParserFailure(parsed.error));
    }
    LongsFromIds(props, show);
    var args := parsed.value.args;
    for i := 0 to |args|
      invariant forall j :: 0 <= j < i ==> args[j].long !in RESERVED_FLAG_NAMES
    {
      if args[i].long in RESERVED_FLAG_NAMES {
        assert Longs(args)[i] in AllFlags(props);
        return Failure(ReservedModuleId);
      }
    }
    forall f | f in AllFlags(props)
      ensures f !in RESERVED_FLAG_NAMES
    {
      var j :| 0 <= j < |args| && Longs(args)[j] == f;
    }
    r := Success(DispatchArgs() + args);
  }

  lemma BuiltinFlagNames()
    ensures forall a | a in DispatchArgs() :: a.long == FlagName(a.id)
    ensures Longs(DispatchArgs()) == DISPATCH_FLAGS
  {
    forall i | 0 <= i < |DISPATCH_FLAGS|
      ensures FlagName(DISPATCH_FLAGS[i]) == DISPATCH_FLAGS[i]
    {
      assert '_' !in DISPATCH_FLAGS[i];
    }
  }

  /** Built-in and derived arguments of one command never share a long flag or an id. */
  lemma CommandIsUnambiguous(props: seq<Field>, show: Json -> string)
    requires NoRepeats(RESERVED_FLAG_NAMES + AllFlags(props))
    ensures NoRepeats(Longs(DispatchArgs() + AllArgs(props, show)))
    ensures NoRepeats(Ids(DispatchArgs() + AllArgs(props, show)))
  {
    hide DISPATCH_FLAGS, DispatchArgs, AllFlags, AllArgs, FlagName;
    var args := DispatchArgs() + AllArgs(props, show);
    BuiltinFlagNames();
    LongsFromIds(props, show);
    assert Longs(args) == DISPATCH_FLAGS + AllFlags(props);
    NoRepeatsConcat(RESERVED_FLAG_NAMES, AllFlags(props));
    NoRepeatsConcat(DISPATCH_FLAGS, ["all-options"]);
    NoRepeatsConcat(DISPATCH_FLAGS, AllFlags(props));
    forall i, j | 0 <= i < j < |args|
      ensures args[i].id != args[j].id
    {
      assert Longs(args)[i] != Longs(args)[j];
      assert args[i] in args && args[j] in args;
    }
  }

  // ----- reading the arguments back -----

  /** What clap holds under an id after parsing. */
  datatype Stored = Text(s: string) | FilePath(s: string) | Switch(on: bool)

  /** The text or path under an id, or null: nothing there, or a value of another type. */
  function StoredText(matches: map<string, Stored>, id: string): Json {
    if id in matches && !matches[id].Switch? then Str(matches[id].s) else Null
  }

  predicate IsOn(matches: map<string, Stored>, id: string) {
    id in matches && matches[id].Switch? && matches[id].on
  }

  /** One pair of flags: the positive one wins, then the negative one, then the default. */
  function Reconciled(matches: map<string, Stored>, name: string, default: bool): bool {
    if IsOn(matches, name) then true else if IsOn(matches, "no-" + name) then false else default
  }

  /** Ids with `no-` in front are skipped as negations. */
  function RawKwargs(args: seq<Arg>, matches: map<string, Stored>): map<string, Json> {
    if args == [] then map[]
    else
      var rest, id := RawKwargs(args[..|args| - 1], matches), args[|args| - 1].id;
      if "no-" <= id then rest else rest[id := StoredText(matches, id)]
  }

  function BoolKwargs(pairs: seq<BoolFlagPair>, matches: map<string, Stored>): map<string, Json> {
    if pairs == [] then map[]
    else
      var last := pairs[|pairs| - 1];
      BoolKwargs(pairs[..|pairs| - 1], matches)[
        last.propName := Bool(Reconciled(matches, last.propName, last.defaultVal))]
  }

  predicate Builds(props: seq<Field>) {
    NoneReserved(props) && NoRepeats(AllFlags(props))
  }

  /** What is extracted by the table of these properties; without a table, nothing. */
  function KwargsBy(props: seq<Field>, matches: map<string, Stored>, show: Json -> string): map<string, Json> {
    if Builds(props) then
      ReconvertAll(RawKwargs(AllArgs(props, show), matches) + BoolKwargs(AllBoolPairs(props), matches),
                   AllEnums(props), show)
    else map[]
  }

  /** Under distinct names each pair gets its own boolean. */
  lemma {:induction false} PairsReconciled(pairs: seq<BoolFlagPair>, matches: map<string, Stored>, i: nat)
    requires i < |pairs| && forall j, k :: 0 <= j < k < |pairs| ==> pairs[j].propName != pairs[k].propName
    ensures pairs[i].propName in BoolKwargs(pairs, matches)
    ensures BoolKwargs(pairs, matches)[pairs[i].propName] ==
            var name, negation := pairs[i].propName, "no-" + pairs[i].propName;
            if name in matches && matches[name] == Switch(true) then Bool(true)
            else if negation in matches && matches[negation] == Switch(true) then Bool(false)
            else Bool(pairs[i].defaultVal)
  {
    if i < |pairs| - 1 {
      PairsReconciled(pairs[..|pairs| - 1], matches, i);
    }
  }

  method ReconcileBoolPairs(matches: map<string, Stored>, pairs: seq<BoolFlagPair>) returns (result: map<string, Json>)
    ensures result == BoolKwargs(pairs, matches)
    ensures (forall j, k :: 0 <= j < k < |pairs| ==> pairs[j].propName != pairs[k].propName) ==>
              forall i :: 0 <= i < |pairs| ==>
                var name, negation := pairs[i].propName, "no-" + pairs[i].propName;
                && name in result
                && result[name] ==
                     if name in matches && matches[name] == Switch(true) then Bool(true)
                     else if negation in matches && matches[negation] == Switch(true) then Bool(false)
                     else Bool(pairs[i].defaultVal)
  {
    result := map[];
    assert pairs[..0] == [];
    for i := 0 to |pairs|
      invariant result == BoolKwargs(pairs[..i], matches)
    {
      assert pairs[..i + 1][..i] == pairs[..i];
      var on := IsOn(matches, pairs[i].propName);
      var off := IsOn(matches, "no-" + pairs[i].propName);
      result := result[pairs[i].propName := Bool(if on then true else if off then false else pairs[i].defaultVal)];
    }
    assert pairs[..|pairs|] == pairs;
    if forall j, k :: 0 <= j < k < |pairs| ==> pairs[j].propName != pairs[k].propName {
      forall i | 0 <= i < |pairs| { PairsReconciled(pairs, matches, i); }
    }
  }

  /** The table is derived again, from the raw schema; `matches` is whatever clap holds. */
  method ExtractCliKwargs(inputSchema: Json, show: Json -> string, matches: map<string, Stored>)
    returns (kwargs: map<string, Json>)
    ensures kwargs == KwargsBy(PropertiesOf(inputSchema), matches, show)
  {
    hide AllFlags, AllArgs, AllBoolPairs, AllEnums, PropertiesOf, ReconvertAll;
    var parsed := SchemaToClapArgs(inputSchema, show);
    if parsed.Err? {
      return map[];
    }
    var args := parsed.value.args;
    kwargs := map[];
    assert args[..0] == [];
    for i := 0 to |args|
      invariant kwargs == RawKwargs(args[..i], matches)
    {
      assert args[..i + 1][..i] == args[..i];
      var id := args[i].id;
      if "no-" <= id {
        continue;
      }
      kwargs := kwargs[id := StoredText(matches, id)];
    }
    assert args[..|args|] == args;
    var bools := ReconcileBoolPairs(matches, parsed.value.boolPairs);
    kwargs := kwargs + bools;
    kwargs := ReconvertEnumValues(kwargs, parsed.value.enumMaps, show);
  }

  /** The extraction has an entry for the property: any boolean, and any other not named like a negation. */
  predicate Extracted(p: Field) {
    IsBoolean(p.value) || !("no-" <= p.key)
  }

  function NamesExtracted(props: seq<Field>): set<string> {
    set p | p in props && Extracted(p) :: p.key
  }

  lemma {:induction false} KwargsKeys(props: seq<Field>, show: Json -> string, matches: map<string, Stored>)
    ensures RawKwargs(AllArgs(props, show), matches).Keys + BoolKwargs(AllBoolPairs(props), matches).Keys ==
            NamesExtracted(props)
  {
    hide PropArgs, IsBoolean, FlagName, RawKwargs, BoolKwargs, NamesExtracted;
    if props == [] {
      NoKwargs(matches);
    } else {
      var init, p := props[..|props| - 1], props[|props| - 1];
      KwargsKeys(init, show, matches);
      RawKeysStep(AllArgs(init, show), p, show, matches);
      BoolKeysStep(init, p, matches);
      ExtractedStep(init, p);
      assert props == init + [p];
    }
  }

  lemma NoKwargs(matches: map<string, Stored>)
    ensures RawKwargs([], matches).Keys + BoolKwargs([], matches).Keys == NamesExtracted([])
  {
  }

  lemma ExtractedStep(init: seq<Field>, p: Field)
    ensures NamesExtracted(init + [p]) == NamesExtracted(init) + (if Extracted(p) then {p.key} else {})
  {
    hide Extracted;
  }

  lemma BoolKeysStep(init: seq<Field>, p: Field, matches: map<string, Stored>)
    ensures BoolKwargs(AllBoolPairs(init + [p]), matches).Keys ==
            BoolKwargs(AllBoolPairs(init), matches).Keys + (if IsBoolean(p.value) then {p.key} else {})
  {
    hide IsBoolean, FlagName;
    assert (init + [p])[..|init|] == init;
    var before, pairs := AllBoolPairs(init), AllBoolPairs(init + [p]);
    if IsBoolean(p.value) {
      assert pairs[..|pairs| - 1] == before;
    } else {
      assert pairs == before;
    }
  }

  lemma RawKeysStep(args: seq<Arg>, p: Field, show: Json -> string, matches: map<string, Stored>)
    ensures RawKwargs(args + PropArgs(p, show), matches).Keys ==
            RawKwargs(args, matches).Keys + (if "no-" <= p.key then {} else {p.key})
  {
    hide IsBoolean, FlagName;
    var all := args + PropArgs(p, show);
    if IsBoolean(p.value) {
      var positive := PropArgs(p, show)[0];
      assert all[..|all| - 1] == args + [positive] && (args + [positive])[..|args|] == args;
      assert "no-" <= "no-" + p.key;
    } else {
      assert all[..|args|] == args;
      assert ValueArg(p, show).id == p.key;
    }
  }

  /** The extracted keys are the property names, minus the non-boolean ones that start with `no-`. */
  lemma ExtractedNames(props: seq<Field>, show: Json -> string, matches: map<string, Stored>)
    ensures KwargsBy(props, matches, show).Keys == if Builds(props) then NamesExtracted(props) else {}
  {
    hide AllArgs, AllBoolPairs, AllEnums, RawKwargs, BoolKwargs, Builds;
    KwargsKeys(props, show, matches);
  }

  // ----- the two views of the properties -----

  /** The names that get a flag: what the schema foretells for its properties. */
  lemma RegisteredNames(schema: Json)
    requires WellFormed(schema) && RefResolver.ResolveRefs(schema, RefResolver.MAX_REF_DEPTH).Ok?
    ensures InlinedRefs.Keys(ResolvedProperties(schema)) ==
            InlinedRefs.PropsAfter(schema, RefResolver.DefsOf(schema), RefResolver.MAX_REF_DEPTH).keys
  {
    hide RefResolver.DefsOf, RefResolver.Resolve, InlinedRefs.PropsAfter, InlinedRefs.MembersAfter, WellFormed;
    var defs, limit := RefResolver.DefsOf(schema), RefResolver.MAX_REF_DEPTH;
    ResolvedSchema.DefsWellFormed(schema);
    RefSubstitution.ResolvedIsExpanded(schema, defs, limit, {});
    InlinedRefs.Foretold(schema, defs, limit);
    var v := RefSubstitution.Expand(schema, defs, limit).value;
    if v.Obj? {
      ResolvedSchema.StrippedMember(v, "properties");
    }
  }

  /**
   Under a composition every property name of the schema keeps its flag and every branch adds its own; the
   extraction sees the former only, so the names agree exactly when the branches declare no new one.
   */
  lemma RegisteredUnderComposition(schema: Json)
    requires WellFormed(schema) && RefResolver.ResolveRefs(schema, RefResolver.MAX_REF_DEPTH).Ok?
    requires RefResolver.ShapeOf(schema).Inner? && RefResolver.KeywordOf(schema.fields).Some?
    ensures var own, shape := InlinedRefs.Keys(PropertiesOf(schema)), RefResolver.ShapeOf(schema);
            var added := InlinedRefs.BranchPropsAfter(shape.parts, RefResolver.DefsOf(schema),
                                                      RefResolver.MAX_REF_DEPTH - shape.step).keys;
            && InlinedRefs.Keys(ResolvedProperties(schema)) == own + added
            && (InlinedRefs.Keys(ResolvedProperties(schema)) == own <==> added <= own)
  {
    hide RefResolver.DefsOf, RefResolver.ResolveRefs, InlinedRefs.BranchPropsAfter, WellFormed, ResolvedProperties;
    RegisteredNames(schema);
  }

  /** With nothing to inline, the flags registered from the resolved schema are those extracted from the raw one. */
  lemma RegisteredIsExtracted(schema: Json)
    requires WellFormed(schema) && ResolvedSchema.NothingToInline(schema)
    ensures RefResolver.ResolveRefs(schema, RefResolver.MAX_REF_DEPTH).Ok?
    ensures ResolvedProperties(schema) == PropertiesOf(schema)
  {
    ResolvedSchema.ResolveIsIdentity(schema, RefResolver.MAX_REF_DEPTH);
    if schema.Obj? {
      ResolvedSchema.StrippedMember(schema, "properties");
    }
  }
}
