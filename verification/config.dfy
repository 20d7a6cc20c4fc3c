/**
 The configuration resolver (src/config.rs) keeps a parsed YAML tree and a flat map of dotted keys
 made from it; the two are looked up by different callers and should agree.
 */
module Config {
  import opened Json
  import opened Text

  /** `Other` stands for sequences and tagged values, kept as the text they are rendered with. */
  datatype Yaml =
    | Null
    | Bool(b: bool)
    | Number(text: string)
    | Str(s: string)
    | Other(repr: string)
    | Mapping(entries: seq<Entry>)

  datatype Entry = Entry(key: string, value: Yaml)

  function Render(v: Yaml): string
    requires !v.Mapping?
  {
    match v
    case Null => ""
    case Bool(b) => if b then "true" else "false"
    case Number(text) => text
    case Str(s) => s
    case Other(repr) => repr
  }

  function Get(entries: seq<Entry>, key: string): Option<Yaml> {
    if entries == [] then None
    else if entries[|entries| - 1].key == key then Some(entries[|entries| - 1].value)
    else Get(entries[..|entries| - 1], key)
  }

  /** A parsed mapping never repeats a key. */
  predicate WellFormed(v: Yaml) {
    v.Mapping? ==>
      && (forall i, j :: 0 <= i < j < |v.entries| ==> v.entries[i].key != v.entries[j].key)
      && forall e | e in v.entries :: WellFormed(e.value)
  }

  // ----- the flat map -----

  function FullKey(prefix: string, key: string): string {
    if prefix == "" then key else prefix + "." + key
  }

  function Flatten(v: Yaml, prefix: string, out: map<string, string>): map<string, string>
    decreases v, 0
  {
    if v.Mapping? then FlattenEntries(v.entries, prefix, out) else out[prefix := Render(v)]
  }

  function FlattenEntries(entries: seq<Entry>, prefix: string, out: map<string, string>): map<string, string>
    decreases entries, 1
  {
    if entries == [] then out
    else
      var last := entries[|entries| - 1];
      Flatten(last.value, FullKey(prefix, last.key), FlattenEntries(entries[..|entries| - 1], prefix, out))
  }

  method FlattenYamlValue(v: Yaml, prefix: string, into: map<string, string>) returns (out: map<string, string>)
    ensures out == Flatten(v, prefix, into)
    decreases v
  {
    out := into;
    if v.Mapping? {
      assert v.entries[..0] == [];
      for i := 0 to |v.entries|
        invariant out == FlattenEntries(v.entries[..i], prefix, into)
      {
        assert v.entries[..i + 1][..i] == v.entries[..i];
        out := FlattenYamlValue(v.entries[i].value, FullKey(prefix, v.entries[i].key), out);
      }
      assert v.entries[..|v.entries|] == v.entries;
    } else {
      out := out[prefix := Render(v)];
    }
  }

  // ----- the tree -----

  /** Follows a path of keys from a node. */
  function Walk(v: Yaml, path: seq<string>): Option<Yaml>
    decreases |path|
  {
    if path == [] then Some(v)
    else if v.Mapping? && Get(v.entries, path[0]).Some? then Walk(Get(v.entries, path[0]).value, path[1..])
    else None
  }

  method ResolveObject(root: Yaml, key: string) returns (r: Option<Yaml>)
    ensures r == Walk(root, Split(key, '.'))
  {
    var segments := Split(key, '.');
    var cursor := root;
    for i := 0 to |segments|
      invariant Walk(root, segments) == Walk(cursor, segments[i..])
    {
      if cursor.Mapping? && Get(cursor.entries, segments[i]).Some? {
        cursor := Get(cursor.entries, segments[i]).value;
        assert segments[i..][1..] == segments[i + 1..];
      } else {
        return None;
      }
    }
    r := Some(cursor);
  }

  /** The path ends in a value that is not a mapping. */
  predicate IsLeaf(v: Yaml, path: seq<string>) {
    Walk(v, path).Some? && !Walk(v, path).value.Mapping?
  }

  function LeafText(v: Yaml, path: seq<string>): string
    requires IsLeaf(v, path)
  {
    Render(Walk(v, path).value)
  }

  /** The flat key the traversal builds along a path. */
  function KeyOf(prefix: string, path: seq<string>): string
    decreases |path|
  {
    if path == [] then prefix else KeyOf(FullKey(prefix, path[0]), path[1..])
  }

  // ----- what the flat map holds -----

  /** Nothing is forgotten: keys present stay, and every leaf gets an entry under its flat key. */
  lemma {:induction false} FlattenKeeps(v: Yaml, prefix: string, out: map<string, string>)
    ensures out.Keys <= Flatten(v, prefix, out).Keys
    decreases v, 0
  {
    if v.Mapping? {
      FlattenEntriesKeeps(v.entries, prefix, out);
    }
  }

  lemma {:induction false} FlattenEntriesKeeps(entries: seq<Entry>, prefix: string, out: map<string, string>)
    ensures out.Keys <= FlattenEntries(entries, prefix, out).Keys
    decreases entries, 1
  {
    if entries != [] {
      var init, last := entries[..|entries| - 1], entries[|entries| - 1];
      FlattenEntriesKeeps(init, prefix, out);
      FlattenKeeps(last.value, FullKey(prefix, last.key), FlattenEntries(init, prefix, out));
    }
  }

  lemma {:induction false} LeafHasEntry(v: Yaml, prefix: string, out: map<string, string>, path: seq<string>)
    requires IsLeaf(v, path)
    ensures KeyOf(prefix, path) in Flatten(v, prefix, out)
    decreases v, 0
  {
    if path != [] {
      LeafHasEntryBelow(v.entries, prefix, out, path);
    }
  }

  lemma {:induction false} LeafHasEntryBelow(entries: seq<Entry>, prefix: string, out: map<string, string>,
                                             path: seq<string>)
    requires path != [] && Get(entries, path[0]).Some? && IsLeaf(Get(entries, path[0]).value, path[1..])
    ensures KeyOf(prefix, path) in FlattenEntries(entries, prefix, out)
    decreases entries, 1
  {
    var init, last := entries[..|entries| - 1], entries[|entries| - 1];
    if last.key == path[0] {
      LeafHasEntry(last.value, FullKey(prefix, last.key), FlattenEntries(init, prefix, out), path[1..]);
    } else {
      LeafHasEntryBelow(init, prefix, out, path);
      FlattenKeeps(last.value, FullKey(prefix, last.key), FlattenEntries(init, prefix, out));
    }
  }

  /** `path` leads to a leaf whose flat key is `k` and whose text is `s`. */
  predicate Explains(v: Yaml, prefix: string, k: string, s: string, path: seq<string>) {
    IsLeaf(v, path) && KeyOf(prefix, path) == k && LeafText(v, path) == s
  }

  /** Every entry of the flat map was there before or comes from some leaf. */
  lemma {:induction false} EntryHasLeaf(v: Yaml, prefix: string, out: map<string, string>, k: string)
    requires WellFormed(v) && k in Flatten(v, prefix, out)
    ensures var s := Flatten(v, prefix, out)[k];
            (k in out && out[k] == s) || exists path :: Explains(v, prefix, k, s, path)
    decreases v, 0
  {
    var s := Flatten(v, prefix, out)[k];
    if !v.Mapping? {
      if k == prefix {
        assert Explains(v, prefix, k, s, []);
      }
    } else if !(k in out && out[k] == s) {
      var path := EntryHasLeafBelow(v.entries, prefix, out, k);
      assert Explains(v, prefix, k, s, path);
    }
  }

  predicate DistinctEntries(entries: seq<Entry>) {
    && (forall i, j :: 0 <= i < j < |entries| ==> entries[i].key != entries[j].key)
    && forall e | e in entries :: WellFormed(e.value)
  }

  lemma {:induction false} EntryHasLeafBelow(entries: seq<Entry>, prefix: string, out: map<string, string>, k: string)
    returns (path: seq<string>)
    requires DistinctEntries(entries) && k in FlattenEntries(entries, prefix, out)
    requires !(k in out && out[k] == FlattenEntries(entries, prefix, out)[k])
    ensures path != [] && Get(entries, path[0]).Some?
    ensures Explains(Get(entries, path[0]).value, FullKey(prefix, path[0]), k, FlattenEntries(entries, prefix, out)[k],
                     path[1..])
    decreases entries, 1
  {
    var init, last := entries[..|entries| - 1], entries[|entries| - 1];
    var before := FlattenEntries(init, prefix, out);
    var s := FlattenEntries(entries, prefix, out)[k];
    EntryHasLeaf(last.value, FullKey(prefix, last.key), before, k);
    if tail :| Explains(last.value, FullKey(prefix, last.key), k, s, tail) {
      path := [last.key] + tail;
      assert path[1..] == tail;
    } else {
      path := EntryHasLeafBelow(init, prefix, out, k);
      GetIsEntry(init, path[0]);
    }
  }

  lemma GetIsEntry(entries: seq<Entry>, key: string)
    requires Get(entries, key).Some?
    ensures exists i :: 0 <= i < |entries| && entries[i].key == key
  {
    if entries[|entries| - 1].key != key {
      GetIsEntry(entries[..|entries| - 1], key);
      var i :| 0 <= i < |entries| - 1 && entries[..|entries| - 1][i].key == key;
      assert entries[i].key == key;
    }
  }

  // ----- when the two agree -----

  function FlatMap(root: Yaml): map<string, string> {
    Flatten(root, "", map[])
  }

  /** Tier 3 of `resolve`: the entry of the flat map. */
  function FromFlatMap(root: Yaml, k: string): Option<string> {
    if k in FlatMap(root) then Some(FlatMap(root)[k]) else None
  }

  /** What `resolve_object` finds under the same key, when that is not a mapping. */
  function FromTree(root: Yaml, k: string): Option<string> {
    var path := Split(k, '.');
    if IsLeaf(root, path) then Some(LeafText(root, path)) else None
  }

  ghost predicate Agree(root: Yaml) {
    forall k :: FromFlatMap(root, k) == FromTree(root, k)
  }

  /** No two leaves share a flat key. */
  ghost predicate NoCollision(root: Yaml) {
    forall p, q :: IsLeaf(root, p) && IsLeaf(root, q) && KeyOf("", p) == KeyOf("", q) ==> p == q
  }

  /** No key on the path contains a dot, and a nested path does not start with the empty key. */
  predicate CleanPath(path: seq<string>) {
    && (forall key | key in path :: '.' !in key)
    && (|path| >= 2 ==> path[0] != "")
  }

  ghost predicate Clean(root: Yaml) {
    forall p :: IsLeaf(root, p) ==> CleanPath(p)
  }

  lemma {:induction false} KeyBelowPrefix(prefix: string, path: seq<string>)
    requires prefix != "" && path != []
    ensures KeyOf(prefix, path) == prefix + "." + Join(path, ".")
    decreases |path|
  {
    var next := FullKey(prefix, path[0]);
    if |path| == 1 {
      assert KeyOf(next, path[1..]) == next;
    } else {
      KeyBelowPrefix(next, path[1..]);
      assert Join(path, ".") == path[0] + "." + Join(path[1..], ".");
      assert next + "." + Join(path[1..], ".") == prefix + "." + (path[0] + "." + Join(path[1..], "."));
    }
  }

  lemma CleanKey(path: seq<string>)
    requires path != [] && CleanPath(path)
    ensures KeyOf("", path) == Join(path, ".") && Split(KeyOf("", path), '.') == path
  {
    SplitJoin(path, '.');
    if |path| == 1 {
      assert KeyOf(path[0], path[1..]) == path[0];
    } else {
      KeyBelowPrefix(path[0], path[1..]);
    }
  }

  /** A flat key forgets leading empty keys. */
  lemma {:induction false} StripEmpty(path: seq<string>) returns (rest: seq<string>)
    requires path != [] && forall key | key in path :: '.' !in key
    ensures rest != [] && |rest| <= |path| && CleanPath(rest) && KeyOf("", rest) == KeyOf("", path)
    ensures rest == path ==> CleanPath(path)
  {
    if |path| >= 2 && path[0] == "" {
      assert KeyOf("", path) == KeyOf("", path[1..]);
      rest := StripEmpty(path[1..]);
    } else {
      rest := path;
    }
  }

  lemma EntryOfRoot(root: Yaml, k: string) returns (path: seq<string>)
    requires WellFormed(root) && root.Mapping? && k in FlatMap(root)
    ensures path != [] && Explains(root, "", k, FlatMap(root)[k], path)
  {
    EntryHasLeaf(root, "", map[], k);
    path :| Explains(root, "", k, FlatMap(root)[k], path);
  }

  lemma CleanAgrees(root: Yaml)
    requires WellFormed(root) && root.Mapping? && Clean(root)
    ensures Agree(root) && NoCollision(root)
  {
    hide FlatMap, IsLeaf, LeafText;
    forall p | IsLeaf(root, p)
      ensures p != [] && KeyOf("", p) == Join(p, ".") && Split(KeyOf("", p), '.') == p
    {
      LeafBelowMapping(root, p);
      CleanKey(p);
    }
    forall k
      ensures FromFlatMap(root, k) == FromTree(root, k)
    {
      if k in FlatMap(root) {
        var path := EntryOfRoot(root, k);
      }
      if IsLeaf(root, Split(k, '.')) {
        JoinSplit(k, '.');
        LeafInFlatMap(root, Split(k, '.'));
      }
    }
  }

  lemma LeafBelowMapping(root: Yaml, path: seq<string>)
    requires root.Mapping? && IsLeaf(root, path)
    ensures path != []
  {
  }

  lemma LeafInFlatMap(root: Yaml, path: seq<string>)
    requires IsLeaf(root, path)
    ensures KeyOf("", path) in FlatMap(root)
  {
    LeafHasEntry(root, "", map[], path);
  }

  /** With agreement, splitting the flat key of a leaf gives a leaf again. */
  lemma AgreedPath(root: Yaml, p: seq<string>) returns (q: seq<string>)
    requires Agree(root) && IsLeaf(root, p)
    ensures q == Split(KeyOf("", p), '.') && IsLeaf(root, q) && q != []
    ensures forall key | key in q :: '.' !in key
  {
    hide FlatMap, IsLeaf, LeafText, KeyOf;
    LeafInFlatMap(root, p);
    q := Split(KeyOf("", p), '.');
    assert FromTree(root, KeyOf("", p)) == FromFlatMap(root, KeyOf("", p));
  }

  /** A leaf path free of dots keeps its flat key when that key is split and joined, unless it collides. */
  lemma AgreedCleanPath(root: Yaml, q: seq<string>)
    requires Agree(root) && NoCollision(root) && IsLeaf(root, q)
    requires q != [] && forall key | key in q :: '.' !in key
    ensures CleanPath(q)
  {
    hide FlatMap, IsLeaf, LeafText, KeyOf, CleanPath;
    var rest := StripEmpty(q);
    var r := AgreedPath(root, q);
    CleanKey(rest);
    assert r == rest;
    assert q == rest;
  }

  lemma AgreeingIsClean(root: Yaml)
    requires WellFormed(root) && root.Mapping? && Agree(root) && NoCollision(root)
    ensures Clean(root)
  {
    hide FlatMap, IsLeaf, LeafText, KeyOf, CleanPath, Agree;
    forall p | IsLeaf(root, p)
      ensures CleanPath(p)
    {
      var q := AgreedPath(root, p);
      AgreedCleanPath(root, q);
      CleanKey(q);
      JoinSplit(KeyOf("", p), '.');
      assert p == q;
    }
  }

  /**
   The index and the tree agree, without two leaves fighting over a key, exactly when no key on the
   way to a leaf has a dot and no nested path starts with the empty key.
   */
  lemma IndexMatchesTree(root: Yaml)
    requires WellFormed(root) && root.Mapping?
    ensures Agree(root) && NoCollision(root) <==> Clean(root)
  {
    if Clean(root) {
      CleanAgrees(root);
    }
    if Agree(root) && NoCollision(root) {
      AgreeingIsClean(root);
    }
  }

  /** The text of every leaf of a clean file, by what the leaf is. */
  lemma LeafTexts(root: Yaml, path: seq<string>, v: Yaml)
    requires WellFormed(root) && root.Mapping? && Clean(root) && Walk(root, path) == Some(v) && !v.Mapping?
    ensures var flat, k := FlatMap(root), Join(path, ".");
            && k in flat
            && (v == Yaml.Bool(true) ==> flat[k] == "true") && (v == Yaml.Bool(false) ==> flat[k] == "false")
            && (v.Number? ==> flat[k] == v.text) && (v.Str? ==> flat[k] == v.s) && (v.Null? ==> flat[k] == "")
            && (v.Other? ==> flat[k] == v.repr)
  {
    hide FlatMap;
    CleanAgrees(root);
    LeafBelowMapping(root, path);
    CleanKey(path);
    LeafInFlatMap(root, path);
    assert FromFlatMap(root, Join(path, ".")) == FromTree(root, Join(path, "."));
  }

  /** Two clean files with the same leaves give the same flat map, in whatever order their keys are written. */
  lemma OrderIrrelevant(a: Yaml, b: Yaml)
    requires WellFormed(a) && a.Mapping? && Clean(a) && WellFormed(b) && b.Mapping? && Clean(b)
    requires forall k :: FromTree(a, k) == FromTree(b, k)
    ensures FlatMap(a) == FlatMap(b)
  {
    hide FlatMap, FromTree;
    CleanAgrees(a);
    CleanAgrees(b);
    forall k
      ensures k in FlatMap(a) <==> k in FlatMap(b)
      ensures k in FlatMap(a) ==> FlatMap(a)[k] == FlatMap(b)[k]
    {
      assert FromFlatMap(a, k) == FromTree(a, k) == FromTree(b, k) == FromFlatMap(b, k);
    }
  }

  /** A dotted key breaks the agreement: the flat map knows the key, the tree does not. */
  lemma DottedKeyDisagrees(key: string, leaf: Yaml)
    requires '.' in key && !leaf.Mapping?
    ensures WellFormed(Mapping([Entry(key, leaf)]))
    ensures FromFlatMap(Mapping([Entry(key, leaf)]), key) == Some(Render(leaf))
    ensures FromTree(Mapping([Entry(key, leaf)]), key) == None
  {
    var entries := [Entry(key, leaf)];
    assert entries[..0] == [];
    var path := Split(key, '.');
    assert path[0] in path;
    assert Get(entries, path[0]) == None;
    assert FlattenEntries(entries, "", map[]) == map[key := Render(leaf)];
  }

  /** An empty key above another mapping breaks it too: the flat key loses the empty segment. */
  lemma EmptyKeyDisagrees(key: string, leaf: Yaml)
    requires '.' !in key && key != "" && !leaf.Mapping?
    ensures var root := Mapping([Entry("", Mapping([Entry(key, leaf)]))]);
            FromFlatMap(root, key) == Some(Render(leaf)) && FromTree(root, key) == None
  {
    var inner, outer := [Entry(key, leaf)], [Entry("", Mapping([Entry(key, leaf)]))];
    assert inner[..0] == [] && outer[..0] == [];
    SplitAt(key, [], '.', false);
    assert Get(outer, key) == None;
    assert FlattenEntries(inner, "", map[]) == map[key := Render(leaf)];
    assert FlattenEntries(outer, "", map[]) == Flatten(Mapping(inner), "", map[]);
  }

  // ----- the resolver -----

  datatype ConfigResolver = ConfigResolver(
    cliFlags: map<string, Option<string>>,
    configFile: Option<map<string, string>>,
    configYaml: Option<Yaml>,
    defaults: map<string, string>)

  /** `load_config_both` after reading and parsing: only a mapping is kept, and both views come from it. */
  function Load(parsed: Option<Yaml>): (Option<map<string, string>>, Option<Yaml>) {
    if parsed.Some? && parsed.value.Mapping? then (Some(FlatMap(parsed.value)), parsed) else (None, None)
  }

  const NAMESPACE_MAP: seq<(string, string)> := [
    ("apcore-cli.stdin_buffer_limit", "cli.stdin_buffer_limit"),
    ("apcore-cli.auto_approve", "cli.auto_approve"),
    ("apcore-cli.help_text_max_length", "cli.help_text_max_length"),
    ("apcore-cli.logging_level", "logging.level")]

  function AlternateKey(key: string, names: seq<(string, string)>): Option<string> {
    if names == [] then None
    else if key == names[0].0 then Some(names[0].1)
    else if key == names[0].1 then Some(names[0].0)
    else AlternateKey(key, names[1..])
  }

  /** Four tiers: flag, environment, file (under either name), default. `env` is the variable's value, if it is set. */
  function Resolve(c: ConfigResolver, key: string, cliFlag: Option<string>, env: Option<string>): Option<string> {
    if cliFlag.Some? && cliFlag.value in c.cliFlags && c.cliFlags[cliFlag.value].Some? then
      c.cliFlags[cliFlag.value]
    else if env.Some? && env.value != "" then
      env
    else
      var file := if c.configFile.Some? then c.configFile.value else map[];
      var alternate := AlternateKey(key, NAMESPACE_MAP);
      if key in file then Some(file[key])
      else if alternate.Some? && alternate.value in file then Some(file[alternate.value])
      else if key in c.defaults then Some(c.defaults[key])
      else None
  }

  /** The two names of a setting point at each other. */
  lemma AlternateIsInvolution(key: string)
    ensures var other := AlternateKey(key, NAMESPACE_MAP);
            other.Some? ==> other.value != key && AlternateKey(other.value, NAMESPACE_MAP) == Some(key)
  {
    AlternateInFour(key, NAMESPACE_MAP);
    if AlternateKey(key, NAMESPACE_MAP).Some? {
      AlternateInFour(AlternateKey(key, NAMESPACE_MAP).value, NAMESPACE_MAP);
    }
  }

  lemma AlternateInFour(key: string, n: seq<(string, string)>)
    requires |n| == 4
    ensures AlternateKey(key, n) ==
            if key == n[0].0 then Some(n[0].1) else if key == n[0].1 then Some(n[0].0)
            else if key == n[1].0 then Some(n[1].1) else if key == n[1].1 then Some(n[1].0)
            else if key == n[2].0 then Some(n[2].1) else if key == n[2].1 then Some(n[2].0)
            else if key == n[3].0 then Some(n[3].1) else if key == n[3].1 then Some(n[3].0)
            else None
  {
    assert n[1..][1..][1..][1..] == [];
    assert AlternateKey(key, n[1..][1..][1..]) ==
           if key == n[3].0 then Some(n[3].1) else if key == n[3].1 then Some(n[3].0) else None;
    assert AlternateKey(key, n[1..][1..]) ==
           if key == n[2].0 then Some(n[2].1) else if key == n[2].1 then Some(n[2].0)
           else AlternateKey(key, n[1..][1..][1..]);
  }

  // ----- the tiers over a loaded file -----

  /** The first value that is there. */
  function FirstOf(tiers: seq<Option<string>>): Option<string> {
    if tiers == [] then None else if tiers[0].Some? then tiers[0] else FirstOf(tiers[1..])
  }

  function FlagTier(c: ConfigResolver, cliFlag: Option<string>): Option<string> {
    if cliFlag.Some? && cliFlag.value in c.cliFlags then c.cliFlags[cliFlag.value] else None
  }

  /** A variable set to the empty text counts as absent. */
  function EnvTier(env: Option<string>): Option<string> {
    if env == Some("") then None else env
  }

  /** The tree under the setting's other name. */
  function AlternateTier(root: Yaml, key: string): Option<string>
    requires root.Mapping?
  {
    var other := AlternateKey(key, NAMESPACE_MAP);
    if other.Some? then FromTree(root, other.value) else None
  }

  function DefaultTier(c: ConfigResolver, key: string): Option<string> {
    if key in c.defaults then Some(c.defaults[key]) else None
  }

  /**
   Over a clean file the lookup, which reads the flat map, is decided by the tree: flag, variable, the
   tree under the setting's own name, then under its other name, default; each tier hides the later ones.
   */
  lemma ResolveFollowsTree(c: ConfigResolver, root: Yaml, key: string, cliFlag: Option<string>, env: Option<string>)
    requires WellFormed(root) && root.Mapping? && Clean(root)
    requires (c.configFile, c.configYaml) == Load(Some(root))
    ensures Resolve(c, key, cliFlag, env) ==
            FirstOf([FlagTier(c, cliFlag), EnvTier(env), FromTree(root, key), AlternateTier(root, key),
                     DefaultTier(c, key)])
  {
    hide FlatMap, FromTree, AlternateKey, FirstOf;
    CleanAgrees(root);
    assert FromFlatMap(root, key) == FromTree(root, key);
    var other := AlternateKey(key, NAMESPACE_MAP);
    if other.Some? {
      assert FromFlatMap(root, other.value) == FromTree(root, other.value);
    }
    FirstOfFive(FlagTier(c, cliFlag), EnvTier(env), FromTree(root, key), AlternateTier(root, key), DefaultTier(c, key));
  }

  lemma FirstOfFive(a: Option<string>, b: Option<string>, c: Option<string>, d: Option<string>, e: Option<string>)
    ensures FirstOf([a, b, c, d, e]) ==
            if a.Some? then a else if b.Some? then b else if c.Some? then c else if d.Some? then d else e
  {
    assert [a, b, c, d, e][1..] == [b, c, d, e] && [b, c, d, e][1..] == [c, d, e];
    assert [c, d, e][1..] == [d, e] && [d, e][1..] == [e] && [e][1..] == [];
    assert FirstOf([e]) == e;
    assert FirstOf([d, e]) == if d.Some? then d else e;
    assert FirstOf([c, d, e]) == if c.Some? then c else if d.Some? then d else e;
  }

  /** No other setting has a second name. */
  lemma OnlyFourHaveTwoNames(key: string)
    ensures AlternateKey(key, NAMESPACE_MAP).Some? <==>
            key in {"apcore-cli.stdin_buffer_limit", "cli.stdin_buffer_limit", "apcore-cli.auto_approve",
                    "cli.auto_approve", "apcore-cli.help_text_max_length", "cli.help_text_max_length",
                    "apcore-cli.logging_level", "logging.level"}
  {
    AlternateInFour(key, NAMESPACE_MAP);
  }

  /** A setting written in the file under just one of its two names is found under both. */
  lemma EitherNameFinds(c: ConfigResolver, root: Yaml, written: string, other: string)
    requires WellFormed(root) && root.Mapping? && Clean(root)
    requires (c.configFile, c.configYaml) == Load(Some(root))
    requires
      var pairs := [("apcore-cli.stdin_buffer_limit", "cli.stdin_buffer_limit"),
                    ("apcore-cli.auto_approve", "cli.auto_approve"),
                    ("apcore-cli.help_text_max_length", "cli.help_text_max_length"),
                    ("apcore-cli.logging_level", "logging.level")];
      (written, other) in pairs || (other, written) in pairs
    requires FromTree(root, written).Some? && FromTree(root, other).None?
    ensures Resolve(c, written, None, None) == Resolve(c, other, None, None) == FromTree(root, written)
  {
    hide FromTree, AlternateKey, FirstOf, Resolve, Clean, Load;
    AlternateInFour(written, NAMESPACE_MAP);
    AlternateInFour(other, NAMESPACE_MAP);
    ResolveFollowsTree(c, root, written, None, None);
    ResolveFollowsTree(c, root, other, None, None);
    FirstOfFive(None, None, FromTree(root, written), AlternateTier(root, written), DefaultTier(c, written));
    FirstOfFive(None, None, FromTree(root, other), AlternateTier(root, other), DefaultTier(c, other));
  }
}
