/** Command-line flags derived from a JSON Schema (src/schema_parser.rs): the flag table and enum values. */
module SchemaParser {
  import opened Json
  import opened Sequences

  const RESERVED_PROPERTY_NAMES: set<string> := {
    "input", "yes", "large_input", "format", "fields", "sandbox", "all_options", "dry_run", "trace", "stream",
    "strategy", "approval_timeout", "approval_token"}

  datatype ParseError =
    | ReservedPropertyName(name: string)
    | FlagCollision(propA: string, propB: string, flag: string)

  datatype Result<+T> = Ok(value: T) | Err(error: ParseError)

  /** How a flag takes its value; help texts are not part of the model. */
  datatype ArgKind = SetTrue | SetFalse | Choice(values: seq<string>) | FileValue | PlainValue

  datatype Arg = Arg(id: string, long: string, kind: ArgKind, default: Option<string>)

  datatype BoolFlagPair = BoolFlagPair(propName: string, flagLong: string, defaultVal: bool)

  datatype SchemaArgs = SchemaArgs(args: seq<Arg>, boolPairs: seq<BoolFlagPair>, enumMaps: map<string, seq<Json>>)

  // ----- one property -----

  /** `s.replace('_', "-")` */
  function FlagName(s: string): string {
    seq(|s|, i requires 0 <= i < |s| => if s[i] == '_' then '-' else s[i])
  }

  function Member(schema: Json, key: string): Option<Json> {
    if schema.Obj? then Lookup(schema.fields, key) else None
  }

  predicate IsBoolean(schema: Json) {
    Member(schema, "type") == Some(Str("boolean"))
  }

  /** Compound values are printed by `show`, the JSON serializer. */
  function TextOf(v: Json, show: Json -> string): string {
    match v
    case Str(s) => s
    case Number(text) => text
    case Bool(b) => if b then "true" else "false"
    case Null => "null"
    case _ => show(v)
  }

  function Texts(vs: seq<Json>, show: Json -> string): seq<string> {
    seq(|vs|, i requires 0 <= i < |vs| => TextOf(vs[i], show))
  }

  predicate IsFileProperty(name: string, schema: Json) {
    || (|name| >= 5 && name[|name| - 5..] == "_file")
    || Member(schema, "x-cli-file") == Some(Bool(true))
  }

  /** The variants of a non-empty `enum`; a boolean property never reads its enum. */
  function Variants(schema: Json): seq<Json> {
    if IsBoolean(schema) then [] else ItemsOf(Member(schema, "enum"))
  }

  function ValueArg(p: Field, show: Json -> string): Arg {
    var default := Member(p.value, "default");
    Arg(p.key, FlagName(p.key),
        if Variants(p.value) != [] then Choice(Texts(Variants(p.value), show))
        else if Member(p.value, "type") == Some(Str("string")) && IsFileProperty(p.key, p.value) then FileValue
        else PlainValue,
        if default.Some? then Some(TextOf(default.value, show)) else None)
  }

  /** A boolean property becomes `--x` and `--no-x`, any other property one flag. */
  function PropArgs(p: Field, show: Json -> string): seq<Arg> {
    if IsBoolean(p.value) then
      [Arg(p.key, FlagName(p.key), SetTrue, None), Arg("no-" + p.key, "no-" + FlagName(p.key), SetFalse, None)]
    else [ValueArg(p, show)]
  }

  function PropFlags(p: Field): seq<string> {
    if IsBoolean(p.value) then [FlagName(p.key), "no-" + FlagName(p.key)] else [FlagName(p.key)]
  }

  // ----- all properties -----

  function AllFlags(props: seq<Field>): seq<string> {
    if props == [] then [] else AllFlags(props[..|props| - 1]) + PropFlags(props[|props| - 1])
  }

  function AllArgs(props: seq<Field>, show: Json -> string): seq<Arg> {
    if props == [] then [] else AllArgs(props[..|props| - 1], show) + PropArgs(props[|props| - 1], show)
  }

  function AllBoolPairs(props: seq<Field>): seq<BoolFlagPair> {
    if props == [] then []
    else
      var p := props[|props| - 1];
      AllBoolPairs(props[..|props| - 1]) +
      if IsBoolean(p.value)
      then [BoolFlagPair(p.key, FlagName(p.key), Member(p.value, "default") == Some(Bool(true)))]
      else []
  }

  function AllEnums(props: seq<Field>): map<string, seq<Json>> {
    if props == [] then map[]
    else
      var p := props[|props| - 1];
      var rest := AllEnums(props[..|props| - 1]);
      if Variants(p.value) != [] then rest[p.key := Variants(p.value)] else rest
  }

  function ArgsOf(props: seq<Field>, show: Json -> string): SchemaArgs {
    SchemaArgs(AllArgs(props, show), AllBoolPairs(props), AllEnums(props))
  }

  predicate NoneReserved(props: seq<Field>) {
    forall p | p in props :: p.key !in RESERVED_PROPERTY_NAMES
  }

  /** The property owns the flag: it is its own name, or the negation of a boolean. */
  predicate Owns(props: seq<Field>, name: string, flag: string) {
    exists p | p in props :: p.key == name && flag in PropFlags(p)
  }

  /** An error names the properties at fault. */
  predicate Explained(props: seq<Field>, e: ParseError) {
    match e
    case ReservedPropertyName(name) => name in RESERVED_PROPERTY_NAMES && exists p | p in props :: p.key == name
    case FlagCollision(a, b, flag) => (DistinctKeys(props) ==> a != b) && Owns(props, a, flag) && Owns(props, b, flag)
  }

  function PropertiesOf(schema: Json): seq<Field> {
    FieldsOf(Member(schema, "properties"))
  }

  /** Once a prefix has a repeated flag or a reserved name, so has the whole. */
  lemma {:induction false} BadPrefix(props: seq<Field>, n: nat)
    requires n <= |props|
    ensures NoRepeats(AllFlags(props)) ==> NoRepeats(AllFlags(props[..n]))
    ensures forall p | p in props[..n] :: p in props
    decreases |props| - n
  {
    hide PropFlags;
    if n == |props| {
      assert props[..n] == props;
    } else {
      BadPrefix(props, n + 1);
      assert props[..n + 1][..n] == props[..n];
      assert AllFlags(props[..n]) <= AllFlags(props[..n + 1]);
    }
  }

  /** The flag table: every long flag seen so far, with the property it came from. */
  ghost predicate TableFor(props: seq<Field>, seen: map<string, string>) {
    && (forall f :: f in seen <==> f in AllFlags(props))
    && (forall f | f in seen :: Owns(props, seen[f], f))
    && NoRepeats(AllFlags(props))
  }

  lemma NegationDiffers(s: string)
    ensures "no-" + s != s
  {
    assert |"no-" + s| == |s| + 3;
  }

  /** What one more property asks of the flags before it. */
  lemma DistinctStep(props: seq<Field>, i: nat)
    requires i < |props|
    ensures var flags, flag := AllFlags(props[..i]), FlagName(props[i].key);
            NoRepeats(AllFlags(props[..i + 1])) <==>
            NoRepeats(flags) && flag !in flags && (IsBoolean(props[i].value) ==> "no-" + flag !in flags)
  {
    hide FlagName, IsBoolean;
    var flags, flag := AllFlags(props[..i]), FlagName(props[i].key);
    assert props[..i + 1][..i] == props[..i];
    NoRepeatsAppend(flags, flag);
    NoRepeatsAppend(flags + [flag], "no-" + flag);
    NegationDiffers(flag);
    assert flags + [flag, "no-" + flag] == flags + [flag] + ["no-" + flag];
  }

  /** Registers the flags of one property; fails on a reserved name or a flag already in the table. */
  method Register(props: seq<Field>, i: nat, seen: map<string, string>) returns (r: Result<map<string, string>>)
    requires i < |props| && TableFor(props[..i], seen)
    ensures r.Ok? ==> props[i].key !in RESERVED_PROPERTY_NAMES && TableFor(props[..i + 1], r.value)
    ensures r.Err? ==> Explained(props, r.error)
    ensures r.Err? ==> props[i].key in RESERVED_PROPERTY_NAMES || !NoRepeats(AllFlags(props[..i + 1]))
  {
    hide FlagName, IsBoolean, AllFlags, NoRepeats, Owns;
    var p := props[i];
    if p.key in RESERVED_PROPERTY_NAMES {
      assert p in props;
      return Err(ReservedPropertyName(p.key));
    }
    DistinctStep(props, i);
    var flag := FlagName(p.key);
    NegationDiffers(flag);
    if flag in seen {
      Collides(props, i, seen[flag], flag);
      return Err(FlagCollision(p.key, seen[flag], flag));
    }
    r := Ok(seen[flag := p.key]);
    if IsBoolean(p.value) {
      var negation := "no-" + flag;
      if negation in r.value {
        Collides(props, i, seen[negation], negation);
        return Err(FlagCollision(p.key, seen[negation], negation));
      }
      r := Ok(r.value[negation := p.key]);
    }
    TableGrows(props, i, seen, r.value);
  }

  lemma Collides(props: seq<Field>, i: nat, owner: string, flag: string)
    requires i < |props| && Owns(props[..i], owner, flag) && flag in PropFlags(props[i])
    ensures DistinctKeys(props) ==> owner != props[i].key
    ensures Owns(props, owner, flag) && Owns(props, props[i].key, flag)
  {
    hide PropFlags;
    OwnerIsEarlier(props, i, owner, flag);
    assert props[i] in props;
  }

  lemma OwnerIsEarlier(props: seq<Field>, i: nat, owner: string, flag: string)
    requires i < |props| && Owns(props[..i], owner, flag)
    ensures DistinctKeys(props) ==> owner != props[i].key
    ensures Owns(props, owner, flag)
  {
    hide PropFlags;
    var p :| p in props[..i] && p.key == owner && flag in PropFlags(p);
    var k :| 0 <= k < i && props[..i][k] == p;
    assert props[k] == p;
  }

  lemma TableGrows(props: seq<Field>, i: nat, seen: map<string, string>, seen': map<string, string>)
    requires i < |props| && TableFor(props[..i], seen) && NoRepeats(AllFlags(props[..i + 1]))
    requires forall f :: f in seen' <==> f in seen || f in PropFlags(props[i])
    requires forall f | f in seen' :: seen'[f] == if f in PropFlags(props[i]) then props[i].key else seen[f]
    ensures TableFor(props[..i + 1], seen')
  {
    hide PropFlags;
    assert props[..i + 1][..i] == props[..i];
    assert props[i] in props[..i + 1];
    forall f | f in seen'
      ensures Owns(props[..i + 1], seen'[f], f)
    {
      if f !in PropFlags(props[i]) {
        var p :| p in props[..i] && p.key == seen[f] && f in PropFlags(p);
        assert p in props[..i + 1];
      }
    }
  }

  lemma NoProperties(show: Json -> string)
    ensures TableFor([], map[]) && NoneReserved([]) && ArgsOf([], show) == SchemaArgs([], [], map[])
  {
  }

  lemma ReservedFound(props: seq<Field>, i: nat)
    requires i < |props| && props[i].key in RESERVED_PROPERTY_NAMES
    ensures !NoneReserved(props)
  {
  }

  /** What the loop adds for one property. */
  lemma ArgsStep(props: seq<Field>, i: nat, show: Json -> string)
    requires i < |props|
    ensures var p, before, after := props[i], ArgsOf(props[..i], show), ArgsOf(props[..i + 1], show);
            && after.args == before.args + PropArgs(p, show)
            && after.boolPairs == before.boolPairs +
                 (if IsBoolean(p.value)
                  then [BoolFlagPair(p.key, FlagName(p.key), Member(p.value, "default") == Some(Bool(true)))] else [])
            && after.enumMaps ==
                 (if Variants(p.value) != [] then before.enumMaps[p.key := Variants(p.value)] else before.enumMaps)
    ensures NoneReserved(props[..i + 1]) <==> NoneReserved(props[..i]) && props[i].key !in RESERVED_PROPERTY_NAMES
  {
    hide IsBoolean, FlagName, Variants, PropArgs, RESERVED_PROPERTY_NAMES;
    assert props[..i + 1][..i] == props[..i];
    assert props[..i + 1] == props[..i] + [props[i]];
  }

  /**
   The flags are built exactly when no property name is reserved and no long flag, negations included,
   occurs twice; an error names properties that really clash.
   */
  method SchemaToClapArgs(schema: Json, show: Json -> string) returns (r: Result<SchemaArgs>)
    ensures r.Ok? <==> NoneReserved(PropertiesOf(schema)) && NoRepeats(AllFlags(PropertiesOf(schema)))
    ensures r.Ok? ==> r.value == ArgsOf(PropertiesOf(schema), show)
    ensures r.Err? && r.error.ReservedPropertyName? ==>
              exists p | p in PropertiesOf(schema) :: p.key == r.error.name && p.key in RESERVED_PROPERTY_NAMES
    ensures r.Err? && r.error.FlagCollision? ==>
              && Owns(PropertiesOf(schema), r.error.propA, r.error.flag)
              && Owns(PropertiesOf(schema), r.error.propB, r.error.flag)
              && (DistinctKeys(PropertiesOf(schema)) ==> r.error.propA != r.error.propB)
  {
    hide FlagName, IsBoolean, ValueArg, Variants, AllArgs, AllBoolPairs, AllEnums;
    hide AllFlags, NoRepeats, NoneReserved, Owns;
    var props := PropertiesOf(schema);
    var args, boolPairs, enumMaps, seen := [], [], map[], map[];
    assert props[..0] == [];
    NoProperties(show);
    for i := 0 to |props|
      invariant TableFor(props[..i], seen)
      invariant NoneReserved(props[..i])
      invariant args == AllArgs(props[..i], show)
      invariant boolPairs == AllBoolPairs(props[..i])
      invariant enumMaps == AllEnums(props[..i])
    {
      var p := props[i];
      ArgsStep(props, i, show);
      var table := Register(props, i, seen);
      if table.Err? {
        BadPrefix(props, i + 1);
        if p.key in RESERVED_PROPERTY_NAMES {
          ReservedFound(props, i);
        }
        return Err(table.error);
      }
      seen := table.value;
      if IsBoolean(p.value) {
        args := args + [Arg(p.key, FlagName(p.key), SetTrue, None),
                        Arg("no-" + p.key, "no-" + FlagName(p.key), SetFalse, None)];
        boolPairs := boolPairs + [BoolFlagPair(p.key, FlagName(p.key), Member(p.value, "default") == Some(Bool(true)))];
      } else {
        args := args + [ValueArg(p, show)];
      }
      if Variants(p.value) != [] {
        enumMaps := enumMaps[p.key := Variants(p.value)];
      }
    }
    assert props[..|props|] == props;
    r := Ok(SchemaArgs(args, boolPairs, enumMaps));
  }

  // ----- the verdict does not depend on the order of the properties -----

  lemma {:induction false} FlagsSplit(a: seq<Field>, p: Field, b: seq<Field>)
    ensures multiset(AllFlags(a + [p] + b)) == multiset(AllFlags(a + b)) + multiset(PropFlags(p))
  {
    hide PropFlags;
    if b == [] {
      assert (a + [p] + b)[..|a|] == a && a + b == a;
    } else {
      var init, last := b[..|b| - 1], b[|b| - 1];
      FlagsSplit(a, p, init);
      assert (a + [p] + b)[..|a + [p] + b| - 1] == a + [p] + init;
      assert (a + b)[..|a + b| - 1] == a + init;
    }
  }

  lemma {:induction false} FlagsPermuted(ps: seq<Field>, qs: seq<Field>)
    requires multiset(ps) == multiset(qs)
    ensures multiset(AllFlags(ps)) == multiset(AllFlags(qs))
    decreases |ps|
  {
    hide PropFlags;
    if ps == [] {
      assert |multiset(qs)| == 0;
    } else {
      var init, p := ps[..|ps| - 1], ps[|ps| - 1];
      assert ps == init + [p];
      var a, b := SplitPermutation(init, p, qs);
      FlagsPermuted(init, a + b);
      FlagsSplit(a, p, b);
    }
  }

  lemma {:induction false} DistinctByCount(flags: seq<string>)
    ensures NoRepeats(flags) <==> forall f :: multiset(flags)[f] <= 1
  {
    if flags != [] {
      var init, last := flags[..|flags| - 1], flags[|flags| - 1];
      assert flags == init + [last];
      DistinctByCount(init);
      NoRepeatsAppend(init, last);
      assert forall f :: multiset(flags)[f] == multiset(init)[f] + (if f == last then 1 else 0);
      assert last in init <==> multiset(init)[last] > 0;
    }
  }

  lemma VerdictIgnoresOrder(ps: seq<Field>, qs: seq<Field>)
    requires multiset(ps) == multiset(qs)
    ensures NoneReserved(ps) && NoRepeats(AllFlags(ps)) <==> NoneReserved(qs) && NoRepeats(AllFlags(qs))
  {
    FlagsPermuted(ps, qs);
    DistinctByCount(AllFlags(ps));
    DistinctByCount(AllFlags(qs));
    forall p
      ensures p in ps <==> p in qs
    {
      assert p in ps <==> p in multiset(ps);
      assert p in qs <==> p in multiset(qs);
    }
  }

  // ----- ids and long flags -----

  function Longs(args: seq<Arg>): seq<string> {
    seq(|args|, i requires 0 <= i < |args| => args[i].long)
  }

  function Ids(args: seq<Arg>): seq<string> {
    seq(|args|, i requires 0 <= i < |args| => args[i].id)
  }

  lemma LongsOfProperty(p: Field, show: Json -> string)
    ensures Longs(PropArgs(p, show)) == PropFlags(p)
    ensures forall a | a in PropArgs(p, show) :: a.long == FlagName(a.id)
  {
    assert FlagName("no-" + p.key) == "no-" + FlagName(p.key);
  }

  /** The pair of flags of a boolean property, whatever its `enum` and default. */
  lemma BooleanFlags(p: Field, show: Json -> string)
    requires Member(p.value, "type") == Some(Str("boolean"))
    ensures var args := PropArgs(p, show);
            && |args| == 2 && Variants(p.value) == []
            && args[0].id == p.key && args[0].kind == SetTrue && args[1].id == "no-" + p.key && args[1].kind == SetFalse
            && args[1].long == "no-" + args[0].long && args[0].default == args[1].default == None
  {
  }

  /** The names a property may not have. */
  lemma ReservedNames(name: string)
    ensures name in RESERVED_PROPERTY_NAMES <==>
            name in ["all_options", "approval_timeout", "approval_token", "dry_run", "fields", "format", "input",
                     "large_input", "sandbox", "strategy", "stream", "trace", "yes"]
  {
  }

  /**
   The value flag of a property that is no boolean: a non-empty `enum` gives a choice, a text property marked
   as a file or named like one gives a path, and a default is passed on as text.
   */
  lemma ValueFlag(p: Field, show: Json -> string)
    requires p.value.Obj?
    ensures var fields, arg := p.value.fields, ValueArg(p, show);
            && arg.id == p.key && |arg.long| == |p.key|
            && (forall i :: 0 <= i < |p.key| ==> arg.long[i] == if p.key[i] == '_' then '-' else p.key[i])
            && (Lookup(fields, "default") == None ==> arg.default == None)
            && (forall s :: Lookup(fields, "default") == Some(Str(s)) ==> arg.default == Some(s))
            && (forall t :: Lookup(fields, "default") == Some(Number(t)) ==> arg.default == Some(t))
            && (Lookup(fields, "default") == Some(Bool(true)) ==> arg.default == Some("true"))
            && (Lookup(fields, "default") == Some(Bool(false)) ==> arg.default == Some("false"))
            && (Lookup(fields, "default") == Some(Null) ==> arg.default == Some("null"))
            && (forall d | Lookup(fields, "default") == Some(d) && (d.Arr? || d.Obj?) :: arg.default == Some(show(d)))
    ensures var fields, arg := p.value.fields, ValueArg(p, show);
            Lookup(fields, "type") != Some(Str("boolean")) ==>
              && (forall items | Lookup(fields, "enum") == Some(Arr(items)) && items != [] ::
                    arg.kind == Choice(Texts(items, show)))
              && ((Lookup(fields, "enum") == None || !Lookup(fields, "enum").value.Arr? ||
                   Lookup(fields, "enum").value.items == []) ==>
                    arg.kind ==
                    if Lookup(fields, "type") == Some(Str("string"))
                       && ((|p.key| >= 5 && p.key[|p.key| - 5..] == "_file")
                           || Lookup(fields, "x-cli-file") == Some(Bool(true)))
                    then FileValue else PlainValue)
  {
    hide Lookup;
  }

  /** Each long flag is its id in kebab case, and the long flags are those the table checked. */
  lemma {:induction false} LongsFromIds(props: seq<Field>, show: Json -> string)
    ensures Longs(AllArgs(props, show)) == AllFlags(props)
    ensures forall a | a in AllArgs(props, show) :: a.long == FlagName(a.id)
  {
    hide PropArgs, PropFlags, FlagName;
    if props != [] {
      var init, p := props[..|props| - 1], props[|props| - 1];
      LongsFromIds(init, show);
      LongsOfProperty(p, show);
      assert Longs(AllArgs(props, show)) == Longs(AllArgs(init, show)) + Longs(PropArgs(p, show));
    }
  }

  lemma IdsAreDistinct(props: seq<Field>, show: Json -> string)
    requires NoRepeats(AllFlags(props))
    ensures NoRepeats(Ids(AllArgs(props, show)))
  {
    LongsFromIds(props, show);
    var args := AllArgs(props, show);
    forall i, j | 0 <= i < j < |args|
      ensures args[i].id != args[j].id
    {
      assert Longs(args)[i] != Longs(args)[j];
      assert args[i] in args && args[j] in args;
    }
  }

  // ----- enum values -----

  /** The first variant printed like the text decides; null, arrays and objects stay text. */
  function Reconvert(text: string, variants: seq<Json>, show: Json -> string): Json {
    if variants == [] then Str(text)
    else if TextOf(variants[0], show) == text then
      (if variants[0].Number? then Number(text)
       else if variants[0].Bool? then Bool(text == "true")
       else Str(text))
    else Reconvert(text, variants[1..], show)
  }

  /** Only string values of properties with variants change. */
  function ReconvertAll(kwargs: map<string, Json>, enums: map<string, seq<Json>>, show: Json -> string)
    : map<string, Json>
  {
    map k | k in kwargs ::
      if k in enums && kwargs[k].Str? then Reconvert(kwargs[k].s, enums[k], show) else kwargs[k]
  }

  method FindVariant(text: string, variants: seq<Json>, show: Json -> string) returns (v: Json)
    ensures v == Reconvert(text, variants, show)
  {
    for i := 0 to |variants|
      invariant Reconvert(text, variants, show) == Reconvert(text, variants[i..], show)
    {
      if TextOf(variants[i], show) == text {
        match variants[i] {
          case Number(_) => return Number(text);
          case Bool(_) => return Bool(text == "true");
          case _ => return Str(text);
        }
      }
      assert variants[i..][1..] == variants[i + 1..];
    }
    v := Str(text);
  }

  method ReconvertEnumValues(kwargs: map<string, Json>, enums: map<string, seq<Json>>, show: Json -> string)
    returns (result: map<string, Json>)
    ensures result == ReconvertAll(kwargs, enums, show)
  {
    result := kwargs;
    var todo := enums.Keys;
    while todo != {}
      invariant todo <= enums.Keys && result.Keys == kwargs.Keys
      invariant forall k | k in kwargs ::
                  result[k] == if k in todo then kwargs[k] else ReconvertAll(kwargs, enums, show)[k]
      decreases |todo|
    {
      var key :| key in todo;
      todo := todo - {key};
      if key in result && result[key].Str? {
        var v := FindVariant(result[key].s, enums[key], show);
        result := result[key := v];
      }
    }
  }

  predicate IsScalarVariant(v: Json) {
    v.Str? || v.Number? || v.Bool?
  }

  /** Variant `i` is the first one printed as `text`. */
  predicate FirstPrinted(variants: seq<Json>, text: string, i: nat, show: Json -> string) {
    && i < |variants| && TextOf(variants[i], show) == text
    && forall j :: 0 <= j < i ==> TextOf(variants[j], show) != text
  }

  /** Both are numbers, both booleans, or neither is either. */
  predicate SameKind(v: Json, w: Json) {
    v.Number? == w.Number? && v.Bool? == w.Bool?
  }

  /**
   Choosing a variant on the command line gives it back with its JSON type exactly when it is a string,
   number or boolean and the first variant that prints like it is of the same kind.
   */
  lemma {:induction false} VariantSurvives(variants: seq<Json>, k: nat, i: nat, show: Json -> string)
    requires k < |variants| && FirstPrinted(variants, TextOf(variants[k], show), i, show)
    ensures Reconvert(TextOf(variants[k], show), variants, show) == variants[k] <==>
            IsScalarVariant(variants[k]) && SameKind(variants[i], variants[k])
  {
    if i > 0 {
      assert k > 0;
      VariantSurvives(variants[1..], k - 1, i - 1, show);
    }
  }
}
