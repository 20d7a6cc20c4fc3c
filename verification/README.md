# apcore-cli: verified models

These Dafny files model the algorithmic parts of `apcore-cli`, a command-line adapter for apcore modules, and
prove properties of them. Nothing here executes the program; each file names the source file it follows.

| file | source | subject |
|---|---|---|
| `json.dfy`, `text.dfy`, `sequences.dfy` | | JSON values, string operations of the standard library, sequences |
| `ref_resolver.dfy` | `src/ref_resolver.rs` | the `$ref` inliner: its recursion, and the code with its shared `visiting` set |
| `ref_substitution.dfy` | `src/ref_resolver.rs` | the inliner refines plain substitution |
| `ref_graph.dfy` | `src/ref_resolver.rs` | its errors against the graph of references |
| `composition.dfy` | `src/ref_resolver.rs` | allOf / anyOf / oneOf merging |
| `resolved_schema.dfy` | `src/ref_resolver.rs` | the demand of a schema before and after resolution; schemas with nothing to inline |
| `inlined_refs.dfy` | `src/ref_resolver.rs` | which references are left, foretold from the unresolved schema |
| `exposure.dfy`, `module_id.dfy` | `src/exposure.rs`, `src/cli.rs` | glob patterns, the exposure filter, module ids |
| `config.dfy` | `src/config.rs` | the flat configuration map against the YAML tree |
| `openapi_cmd.dfy` | `src/openapi_cmd.rs` | binding file names and the skip of existing files |
| `roff_date.dfy`, `shell.dfy` | `src/shell.rs` | calendar arithmetic, roff escaping, shell quoting |
| `resolver_contract.dfy` | `src/ref_resolver.rs` | the inliner with its keywords written out: compositions, ordinary objects, references |
| `schema_paths.dfy` | `src/ref_resolver.rs` | what resolution puts at any path of a schema, foretold without resolving it |
| `schema_parser.dfy`, `module_command.dfy` | `src/schema_parser.rs`, `src/cli.rs` | command-line flags from a schema, and the arguments read back |
| `argument_delivery.dfy`, `lost_arguments.dfy` | `src/cli.rs` | whether what is given for a flag reaches the module, and schemas for which it does not |
| `truncate.dfy` | `src/output.rs`, `src/schema_parser.rs` | two UTF-8-safe truncations |
| `system_usage.dfy` | `src/system_usage.rs` | the usage summary and the sort by usage |
| `dispatch.dfy` | `src/cli.rs` | one run of `dispatch_module` as a trace of events |

Code that works step by step is a method with loops (and, for the `visiting` set, a class shared by reference),
proved equal to a specification function; the properties are lemmas about that function.

## Main results

* **The `$ref` inliner.** Starting from an empty `visiting` set it returns a value exactly when substitution without
  any set does, and the same one. Given enough depth (a bound built from the number of distinct references and the
  nesting of compositions) it succeeds exactly when every reachable reference has a definition and none reaches
  itself; with such a defect it succeeds under no limit. Whatever keys satisfied the unresolved schema's `required`
  satisfy the resolved one's, and that list is the largest with this property. A sound schema has a least limit, below
  which it fails for the depth alone. What the result has at any path, and which of its members still hold a reference,
  is computed from the unresolved schema.
* **Glob compilation.** The replace, split, escape, join, replace pipeline builds the regex of one left-to-right scan,
  and that regex reads back as the scanned tokens, exactly for the patterns that do not spell the internal sentinel.
* **Configuration.** The flat map and the tree agree, with no two leaves sharing a key, exactly when no key on the way
  to a leaf has a dot and no nested path starts with the empty key.
* **File names.** Planned names are pairwise distinct, and skipping existing files is safe for every directory content
  exactly when the sanitized names of the batch are distinct.
* **Flags.** A command is built exactly when the reserved flags and all derived flags are pairwise distinct. For every
  schema that resolves, the flags registered from the resolved schema and the table derived again from the raw one
  agree, and what is given for a property reaches the module, exactly under conditions computed from the raw schema.
* **Runs.** The code of `dispatch_module` only produces traces a monitor permits, and the monitor guarantees at most one
  guarded execution and at most one truthful audit record.
* **Sort by usage.** Any stable sort gives the one list the model computes, in usage order over the tallies of the log.

## Where the code and its description differ

* `resolve_refs` is described as inlining all `$ref` pointers (`src/ref_resolver.rs:38`). A reference beside a
  composition keyword is copied unresolved and the definitions are then stripped: `ReferenceBesideAllOf` gives the
  schema. `AllRefsInlinedExactly` says, from the schema and the limit alone, exactly when no reference is left outside
  arrays; `AllRefsInlined` gives a simpler condition that suffices.
* `truncate` is described as keeping at most `max_length` characters. It decides by bytes (`TruncateCountsBytes`), and
  exceeds the limit when a text is cut and the limit is below 3 (`TruncateWithinLimit`). The help text, described as
  truncated to `max_len` characters, keeps that (`HelpWithinLimit`) but may be up to three bytes longer than `max_len`
  (`CutsCompared`).
* The sort by usage orders ties by ascending id in both directions, but without usage data a reversed listing reverses
  the ids too (`UsageOrder`).
* The approval gate is meant to fire on the union of the descriptor's annotation and an ACL rule's demand
  (`src/cli.rs:1329-1334`). The rule's demand is recorded only when the serialized descriptor has an annotations object
  (`src/cli.rs:1335-1342`): `UnapprovedRun` is a run that starts although the rule demanded an approval and none was
  asked for, and `DispatchModule` states that the gate asks as the union says exactly when there are annotations or the
  rule makes no such demand.
* `--sandbox` does not isolate a run together with `--stream` or `--trace`, nor a script module: a run that starts is
  sandboxed exactly when the flag is given without any of the three (`DispatchModule`).
* Glob patterns are described without exception, but a pattern that spells the internal sentinel, or its start before
  `**`, is compiled to something else (`CompileIsScan`, `SentinelAsPattern`).
* The flags of a command come from the resolved schema, and the arguments are read back with a table derived again from
  the raw one (`src/cli.rs:481-502`, `src/cli.rs:1030-1057`). `TablesAgreeExactly` says for every schema when the two
  tables agree, and `ArrivesExactly` for every property when what is given for it reaches the module. It is lost for a
  property only a branch declares (`BranchPropertyIsLost`), for one whose kind a branch changes (`BranchKindIsLost`),
  for a boolean or non-textual enumeration behind a reference (`ReferencedArrivesExactly`), and for all properties of a
  schema that is itself a reference (`RootReferenceLosesAll`). The value of a property that is no boolean is lost when its
  name starts with `no-` (`ExtractedNames`).
* `shell_quote` prints the empty text without quotes, so a shell sees no word at all (`ShellReadsBack`).

## Model

| member | source | states |
|---|---|---|
| RefResolver.ResolveNode | src/ref_resolver.rs:172-350 | the walk with the shared visiting set computes the resolver's recursion, and every success gives the set back as it was, so siblings do not affect each other |
| RefResolver.ResolveBranches | src/ref_resolver.rs:232-237 | branches are resolved one level deeper from the left, the first failure decides, and success leaves the visiting set unchanged |
| RefResolver.ResolveMembers | src/ref_resolver.rs:342-349 | members of an ordinary object are resolved at the same depth and put back under their keys |
| RefResolver.MergeAllOf | src/ref_resolver.rs:93-122 | the loops build the union of properties and the first-seen list of required items |
| RefResolver.MergeAnyOf | src/ref_resolver.rs:138-166 | the loops build the union of properties and the names shared by all branches |
| RefResolver.MergeInto | src/ref_resolver.rs:239-273 | parent properties fill gaps and the other members are carried over, for allOf and for anyOf/oneOf |
| RefResolver.ResolveRefsInPlace | src/ref_resolver.rs:53-79 | the entry point: definitions taken from the schema, resolution, definitions stripped |
| ResolverContract.CompositionIsMerged | src/ref_resolver.rs:224-338 | an object with `allOf`, else `anyOf`, else `oneOf`, comes back without it: branches resolved one level deeper, properties of the last branch declaring them or the node's own, required names of node and branches, other members kept |
| ResolverContract.PlainIsResolved | src/ref_resolver.rs:341-349 | without these keywords and `$ref` every key is kept, its value resolved at the same depth, and the definitions are gone |
| ResolverContract.ReferenceMeansDefinition | src/ref_resolver.rs:60-77 | a reference comes back as the definition named after its last slash, looked up in `$defs` if there is such a member and in `definitions` only if not |
| ResolverContract.ReferenceCostsOne | src/ref_resolver.rs:212-221 | a reference resolves to what its definition resolves to with one level less |
| ResolverContract.ReferenceErrors | src/ref_resolver.rs:188-210 | the depth limit is checked before the cycle, and that before the missing definition |
| RefSubstitution.ResolverRefinesSubstitution | src/ref_resolver.rs:172-222 | from an empty set, Ok(v) exactly when substitution without any visiting set gives v |
| RefSubstitution.ExpandedIsResolved | src/ref_resolver.rs:195-221 | a finite expansion never meets one of its own ancestors |
| RefSubstitution.LargerLimitSameValue | src/ref_resolver.rs:188-193 | once a limit suffices, every larger limit gives the same value |
| RefGraph.CircularMeansCycle | src/ref_resolver.rs:195-199 | Circular is returned only if a reachable reference string reaches itself through the definitions |
| RefGraph.UnresolvableMeansMissing | src/ref_resolver.rs:201-210 | Unresolvable names a reachable reference whose last segment has no definition |
| RefGraph.CycleNeverExpands | src/ref_resolver.rs:195-221 | a reference on a cycle is expanded within no depth at all |
| RefGraph.OkMeansSound | src/ref_resolver.rs:186-222 | success under any limit means no reachable cycle and no missing target |
| RefGraph.SoundMeansOk | src/ref_resolver.rs:186-222 | a sound schema fails for the depth limit or not at all |
| RefGraph.DepthSuffices | src/ref_resolver.rs:188-221 | with depth for every reference still to be visited, the depth limit is never reached, cycles or not |
| RefGraph.ErrorsAreExact | src/ref_resolver.rs:172-350 | with enough depth: success exactly when sound, never MaxDepthExceeded, and the value does not depend on the limit |
| RefGraph.ResolveRefsIsExact | src/ref_resolver.rs:53-79 | the same for whole schemas |
| RefGraph.LevelsIsProduct | src/ref_resolver.rs:188-193 | the bound is the number of distinct references times one level plus the deepest composition nesting |
| RefGraph.CostIsLeast | src/ref_resolver.rs:188-237 | what can be expanded at all is expanded within exactly the budgets that cover its cost |
| RefGraph.SoundOutcome | src/ref_resolver.rs:186-350 | a sound schema node succeeds from its least limit on, always with the same value, and fails below it with MaxDepthExceeded |
| RefGraph.SoundSchemaOutcome | src/ref_resolver.rs:53-79 | the same for whole schemas |
| Composition.AllOfRequired | src/ref_resolver.rs:93-122 | allOf demands exactly what the parent and all branches demand; the list has no repeats and starts with the parent's entries |
| Composition.AnyOfRequired | src/ref_resolver.rs:292-330 | anyOf/oneOf demand nothing that an instance of the parent and of some branch may lack |
| Composition.AnyOfRequiredIsLargest | src/ref_resolver.rs:125-166 | and no larger set of names has that property |
| Composition.PropertyLookup | src/ref_resolver.rs:101-110 | a property is that of the last branch declaring it, and the parent's own where no branch does |
| Composition.SomeIsLast | src/ref_resolver.rs:105-110 | a property that some branch declares has a last branch declaring it |
| Composition.MergedMembers | src/ref_resolver.rs:259-272 | other members of the parent are kept, the composition keyword is dropped |
| ResolvedSchema.DemandKept | src/ref_resolver.rs:172-350 | through references and nested compositions, keys accepted before resolution satisfy the resolved `required`; with allOf only, exactly those do |
| ResolvedSchema.DemandIsExact | src/ref_resolver.rs:172-350 | for all compositions: the resolved `required` names exactly what every key set accepted before resolution contains |
| InlinedRefs.Foretold | src/ref_resolver.rs:172-350 | the members and properties of the resolved node, and which of them hold a reference, are those read off the unresolved schema |
| InlinedRefs.NoRefLeftExactly | src/ref_resolver.rs:172-350 | a resolved node has no `$ref` key outside arrays exactly when its foretold outline is clean |
| InlinedRefs.AllRefsInlinedExactly | src/ref_resolver.rs:36-79 | the result of `resolve_refs` has no `$ref` key outside arrays exactly when, the stripped definitions aside, the outline foretold from schema, definitions and limit is clean |
| InlinedRefs.NoRefLeft | src/ref_resolver.rs:172-350 | with clean siblings at every composition reached, the resolved node has no `$ref` key outside arrays |
| InlinedRefs.AllRefsInlined | src/ref_resolver.rs:36-40 | the same for the result of `resolve_refs`; the definitions at the root do not count as siblings |
| InlinedRefs.MergedFreeExactly | src/ref_resolver.rs:239-273 | one merge leaves no `$ref` exactly when neither the members copied from beside the keyword nor the winner of any property holds one |
| InlinedRefs.ReferenceBesideAllOf | src/ref_resolver.rs:73-77 | a schema whose resolvable reference survives while its definitions are stripped |
| ResolvedSchema.ResolveIsIdentity | src/ref_resolver.rs:342-349 | without `$ref` and composition keywords, resolution only removes the top-level definitions |
| Exposure.CompileIsReread | src/exposure.rs:14-28 | for every pattern the pipeline yields the regex text of its marked text reread |
| Exposure.EscapedCharacter | src/exposure.rs:20-22 | exactly the characters with a meaning in a regex get a backslash |
| Exposure.CompileIsScan | src/exposure.rs:14-28 | it yields the regex text of one greedy left-to-right scan, and reads back as its literals, `[^.]*` and `.+`, exactly when the pattern does not spell the sentinel |
| Exposure.SentinelAsPattern | src/exposure.rs:15-16 | the sentinel as a pattern is taken for `**` |
| Exposure.LiteralPattern | src/exposure.rs:10-12 | a pattern without stars matches exactly itself |
| Exposure.SegmentPattern | src/exposure.rs:10-32 | `P.*` matches P, a dot and dot-free text |
| Exposure.AnyPattern | src/exposure.rs:10-32 | `P.**` matches P, a dot and at least one more character, dots included, line feeds not |
| Exposure.Dedup | src/exposure.rs:84-91 | keeps each pattern once and loses none |
| Exposure.NewFilter | src/exposure.rs:74-97 | unknown modes hide everything; include and exclude decide by the existence of a given pattern that matches, repeats irrelevant |
| Exposure.FilterModules | src/exposure.rs:121-132 | the loop splits the modules by exposure |
| Exposure.FilterPartitions | src/exposure.rs:120-132 | the two lists partition the modules and each holds only its own kind |
| ModuleId.IsValidModuleId | src/cli.rs:707-731 | accepts exactly identifiers joined by dots |
| ModuleId.ShortIds | src/cli.rs:718-731 | an identifier starts with a lower-case letter and goes on with those, digits and underscores |
| ModuleId.ValidateModuleId | src/cli.rs:673-685 | and at most 192 characters |
| ModuleId.OneSegmentBelow | src/exposure.rs:10-32 | for valid ids, `P.*` matches exactly the ids with one more segment |
| ModuleId.AnyDepthBelow | src/exposure.rs:10-32 | for valid ids, `P.**` matches exactly the ids with one or more further segments |
| Config.FlattenYamlValue | src/config.rs:278-316 | the recursive insertion computes the flat map |
| Config.ResolveObject | src/config.rs:200-214 | the cursor loop follows the dot-separated path through the tree |
| Config.IndexMatchesTree | src/config.rs:200-316 | flat map and tree agree without collisions exactly when every leaf path is clean |
| Config.LeafTexts | src/config.rs:298-315 | the text of every leaf of a clean file in the flat map: `true`, `false`, the number or string as it is, nothing for null |
| Config.OrderIrrelevant | src/config.rs:278-298 | clean files with the same leaves give the same flat map whatever the order of their keys |
| Config.DottedKeyDisagrees | src/config.rs:286-298 | a dotted key is in the flat map and not in the tree |
| Config.EmptyKeyDisagrees | src/config.rs:291-295 | an empty key above a mapping disappears from the flat key |
| Config.ResolveFollowsTree | src/config.rs:150-187 | over a clean file: flag, non-empty variable, the tree under the own name, the tree under the other name, default, in this order, for every key |
| Config.AlternateIsInvolution | src/config.rs:265-275 | the two names of a setting point at each other |
| Config.OnlyFourHaveTwoNames | src/config.rs:91-99 | the settings with two names |
| Config.EitherNameFinds | src/config.rs:168-183 | a setting written under just one of its two names is found under both |
| OpenapiCmd.SanitizeBindingFilename | src/openapi_cmd.rs:197-230 | the loop with its run counter computes the sanitized name |
| OpenapiCmd.SanitizeIsClean | src/openapi_cmd.rs:185-222 | emits only `[A-Za-z0-9._-]` without `..`, is the identity exactly on such names, and is idempotent |
| OpenapiCmd.SanitizeAroundCharacter | src/openapi_cmd.rs:197-222 | text on the two sides of a character other than a dot is sanitized independently |
| OpenapiCmd.SanitizeDots | src/openapi_cmd.rs:224-230 | a run of dots becomes nothing, a dot or one underscore |
| OpenapiCmd.TakenIsBounded | src/openapi_cmd.rs:247-250 | pigeonhole: the suffix loop passes at most as many candidates as there are names taken |
| OpenapiCmd.FreeName | src/openapi_cmd.rs:244-251 | the suffix loop ends at the least free counter |
| OpenapiCmd.PlannedPaths | src/openapi_cmd.rs:238-255 | one path per module, in order, as planned |
| OpenapiCmd.PlansAreDistinct | src/openapi_cmd.rs:238-255 | planned names are pairwise distinct |
| OpenapiCmd.CounterIsBounded | src/openapi_cmd.rs:246-250 | each name is the sanitized id, with an underscore and the least free counter if that is not zero, and the suffix; the counter is at most the number of modules planned before, so 32 bits suffice |
| OpenapiCmd.SkipExisting | src/openapi_cmd.rs:578-593 | the loop keeps the modules whose planned file is absent, or all with force, and counts the rest |
| OpenapiCmd.PlanOfSublist | src/openapi_cmd.rs:578-593 | with distinct sanitized names, planning a sub-list gives the sub-list of the plan |
| OpenapiCmd.SkipIsSafeIffDistinct | src/openapi_cmd.rs:578-595 | the writer never hits an existing file, whatever exists, exactly when the sanitized names are distinct |
| RoffDate.DateOfDays | src/shell.rs:901-936 | the year and month loops give a valid date whose day number is the input; the year is at most 1970 + days/365 |
| RoffDate.MonthsFillYear | src/shell.rs:914-934 | the month lengths add up to the year, so the month never passes 12 |
| RoffDate.DayNumberIsOrder | src/shell.rs:900-938 | later days have later dates and different dates are different days |
| RoffDate.DaysBeforeYearClosed | src/shell.rs:904-912 | the summed year lengths in closed form |
| RoffDate.YearFitsU32 | src/shell.rs:903-912 | the 32-bit year counter suffices exactly up to day 1568703873081 |
| RoffDate.FormatRoffDate | src/shell.rs:901-938 | the text is the padded date of that day |
| RoffDate.DateTextReadsBack | src/shell.rs:937 | the printed date reads back field by field, with a dash after a year of at least four and a month of two digits |
| Shell.RoffEscapeIsMap | src/shell.rs:717-721 | the three successive replacements equal one pass over the characters |
| Shell.EscapedAs | src/shell.rs:717-721 | what each character becomes |
| Shell.RoffReadsBack | src/shell.rs:717-721 | reading the escapes returns the text |
| Shell.BlockHasNoRequest | src/shell.rs:730-742 | no line of the escaped block begins with a dot or a quote |
| Shell.LineByLine | src/shell.rs:731-732 | lines end at a line feed, a carriage return before it dropped, and an empty rest is no line |
| Shell.BlockReadsBack | src/shell.rs:730-742 | reading the block returns the lines of the text |
| Shell.ShellReadsBack | src/shell.rs:170-177 | a POSIX reader sees exactly one word, the text itself, exactly when the text is not empty |
| Shell.QuotedWhenNeeded | src/shell.rs:170-177 | exactly texts of letters, digits, dashes and underscores are printed bare |
| SchemaParser.Register | src/schema_parser.rs:249-308 | one property enters the flag table, or an error names the real clash |
| SchemaParser.SchemaToClapArgs | src/schema_parser.rs:213-425 | succeeds exactly when no name is reserved and all long flags, negations included, are distinct; errors name properties that clash |
| SchemaParser.VerdictIgnoresOrder | src/schema_parser.rs:247-331 | the verdict does not depend on the order of the properties |
| SchemaParser.LongsFromIds | src/schema_parser.rs:88-91 | every long flag is its id with underscores turned into dashes |
| SchemaParser.ValueFlag | src/schema_parser.rs:148-184 | kind and default text of the flag of a property that is no boolean |
| SchemaParser.BooleanFlags | src/schema_parser.rs:271-325 | a boolean becomes a switch and its negation, whatever its `enum` |
| SchemaParser.ReservedNames | src/schema_parser.rs:18-32 | the reserved property names |
| SchemaParser.IdsAreDistinct | src/schema_parser.rs:276-312 | distinct long flags mean distinct ids |
| SchemaParser.ReconvertEnumValues | src/schema_parser.rs:443-496 | the loop converts string values of enum properties and nothing else |
| SchemaParser.VariantSurvives | src/schema_parser.rs:463-492 | a chosen variant comes back with its type exactly when it is a string, number or boolean and the first variant printing like it is of the same kind |
| ModuleCommand.BuildModuleCommand | src/cli.rs:463-540 | builds exactly when the id is free, the schema resolves, and reserved and derived flags are all distinct |
| ModuleCommand.ReservedNameIsReservedFlag | src/cli.rs:415-429 | every reserved property name turns into a reserved flag |
| ModuleCommand.ReservedFlags | src/cli.rs:415-429 | the reserved long flags |
| ModuleCommand.CommandIsUnambiguous | src/cli.rs:505-537 | built-in and derived arguments share no long flag and no id |
| ModuleCommand.ReconcileBoolPairs | src/cli.rs:987-1018 | with distinct names each is true if its id holds a set switch, else false if its negation does, else the default |
| ModuleCommand.ExtractCliKwargs | src/cli.rs:1024-1062 | the loop collects texts and paths, booleans override, enum values are converted; a rejected schema gives nothing |
| ModuleCommand.ExtractedNames | src/cli.rs:1037-1057 | the extracted keys are the property names minus the non-boolean ones starting with `no-` |
| ModuleCommand.RegisteredNames | src/cli.rs:481-502 | the properties that get flags are those foretold from the unresolved schema |
| ModuleCommand.RegisteredUnderComposition | src/cli.rs:1030-1057 | under a composition the extraction sees the registered property names exactly when the branches declare no new one |
| SchemaPaths.Foreseen | src/ref_resolver.rs:172-350 | what resolution puts at any path, `required` lists included, is what is read off the unresolved schema |
| ArgumentDelivery.TraitsForetold | src/schema_parser.rs:268-331 | for each property the registered kind, default and variants are those foretold from the raw schema |
| ArgumentDelivery.TablesAgreeExactly | src/cli.rs:1030-1033 | for every schema that resolves, whatever its root, registered and re-derived ids, flags, boolean pairs and variants agree exactly when the foretold traits equal the raw ones |
| ArgumentDelivery.ExtractedAt | src/cli.rs:1037-1061 | under each name a table extracts what the traits of that property mean, and nothing for names like negations |
| ArgumentDelivery.BooleanExtracted | src/cli.rs:1000-1016 | a boolean property yields what its two switches say, else its default |
| ArgumentDelivery.TextExtracted | src/cli.rs:1044-1053 | a property without variants yields the text or path stored, or null |
| ArgumentDelivery.ArrivesExactly | src/cli.rs:1024-1062 | for every schema and property: every fitting command line delivers its value exactly when the raw schema gives a table and that table reads the property alike |
| ArgumentDelivery.AgreementDelivers | src/cli.rs:1024-1062 | where the tables agree the extraction gives what the registered table itself would give |
| LostArguments.BranchPropertyIsLost | src/cli.rs:1030-1057 | a property of an allOf branch gets a flag and nothing is ever extracted |
| LostArguments.BranchKindIsLost | src/cli.rs:1044-1056 | a branch that turns a text property into a boolean adds no name, and every fitting command line yields null |
| LostArguments.ReferencedArrivesExactly | src/cli.rs:1030-1061 | a property behind a reference arrives exactly when its definition is no boolean, its variants read back as text and its name is no negation |
| LostArguments.RootReferenceLosesAll | src/cli.rs:1030-1036 | a schema that is a reference gets all its definition's flags and nothing is extracted |
| ModuleCommand.RegisteredIsExtracted | src/cli.rs:481-502 | with nothing to inline, registration and extraction see the same properties |
| Truncation.Truncate | src/output.rs:118-129 | walking back to a boundary gives the longest prefix within the cutoff, with dots |
| Truncation.CutCovers | src/schema_parser.rs:122-136 | the help text keeps the shortest prefix that covers the cutoff |
| Truncation.HelpKept | src/schema_parser.rs:122-140 | a text that fits in bytes, or any without a limit, is kept as it is |
| Truncation.DecodeEncoded | src/output.rs:115-117 | the byte model of characters is UTF-8: decoding undoes encoding |
| Truncation.BoundaryIsPrefix | src/output.rs:123-127 | a byte position is a character boundary exactly when it ends a prefix of characters |
| Truncation.CutsCompared | src/output.rs:118-129 | n-3 to n bytes against n to n+3; equal cuts exactly when byte n-3 starts a character |
| Truncation.AsciiCutsAgree | src/schema_parser.rs:122-140 | on ASCII both give exactly n bytes |
| Truncation.TruncateWithinLimit | src/output.rs:112-129 | counted in characters, the limit is kept exactly when the text fits in bytes or the limit is at least 3 |
| Truncation.TruncateCountsBytes | src/output.rs:112-120 | a text is left alone exactly when it fits in bytes |
| Truncation.HelpWithinLimit | src/schema_parser.rs:102-141 | the help text has at most `max_len` characters |
| SystemUsage.ComputeSummary | src/system_usage.rs:97-160 | the loops give exactly the modules with accepted lines, with their calls, errors and average |
| SystemUsage.SummaryFields | src/system_usage.rs:140-158 | calls, errors and the average of a summary are those of the log |
| SystemUsage.OneLine | src/system_usage.rs:120-138 | what one line adds: one call, an error if it is one, its duration, if it is recent enough and names the module |
| SystemUsage.TallyConcat | src/system_usage.rs:103-138 | two logs add up module by module |
| SystemUsage.TallyIgnoresOrder | src/system_usage.rs:103-138 | the order of the lines is irrelevant |
| SystemUsage.ErrorsWithinCalls | src/system_usage.rs:130-133 | errors never exceed calls |
| SystemUsage.CallsAreAcceptedLines | src/system_usage.rs:122-130 | the calls of all modules together are the accepted lines |
| SystemUsage.LongerPeriodAdds | src/system_usage.rs:97-124 | a longer period gives pointwise larger counts |
| SystemUsage.StableSortIsUnique | src/system_usage.rs:195-208 | order and keeping equal modules as they were determine the result: any stable sort gives it |
| SystemUsage.SortKeyIsTally | src/system_usage.rs:182-193 | the keys compared are the log's calls, errors, and latency per call |
| SystemUsage.SortModulesByUsage | src/system_usage.rs:168-210 | summarizes the log and reorders the slice in place into the specified order; reports whether the log has an accepted line |
| SystemUsage.UsageOrder | src/system_usage.rs:168-210 | usage order in either direction with ties by ascending id, a permutation; without data by id, reversed on request |
| SystemUsage.LexIsDictionary | src/system_usage.rs:205-208 | ids are ordered as in a dictionary |
| SystemUsage.SortIsStable | src/system_usage.rs:195-208 | modules that compare equal keep their order |
| Dispatch.DispatchModule | src/cli.rs:1118-1579 | every run is permitted by the monitor; over the inputs written out: each stop before the gate with its code, a dry run executing and recording nothing, when the gate asks and what answers it, when and on which path the target starts, every exit code, and when the gate asks as the union of demands says |
| Dispatch.UnapprovedRun | src/cli.rs:1329-1342 | a sandboxed run that starts unapproved although an ACL rule demanded an approval |
| Dispatch.PassGate | src/approval.rs:196-258 | the gate passes exactly when no approval is required or one is given |
| Dispatch.ApprovalComesFirst | src/cli.rs:1343-1352 | where the gate asked, the approval precedes the execution |
| Dispatch.ExecuteAndReport | src/cli.rs:1350-1579 | one execution, output before the success record, a record before the exit |
| Dispatch.ExecutionIsGuarded | src/cli.rs:1285-1352 | at most one execution, after the gate and any approval it asked for, after no refusal, and after an allow decision where the executor's ACL is bypassed |
| Dispatch.AuditIsTruthful | src/cli.rs:228-236 | at most one record, after the execution, with the exit code of the process, success exactly when 0 |
| Dispatch.AuditIsComplete | src/cli.rs:1551-1579 | a run that ended wrote a record exactly when an execution finished and auditing is on; an interrupted one exits with 130 |
| Dispatch.FailureIsNotSuccess | src/cli.rs:763-799 | no error code maps to exit code 0 |
| Dispatch.ErrorCodesByExit | src/cli.rs:763-799 | which error codes share which exit code |

## Left out

- ACL rule evaluation, the executor, the YAML writer, regex and clap internals: external crates, represented by inputs or small specification functions; the writer is taken to name files as `planned_paths` does, and ACL decisions not to change within one run; a call that stays in process is gated by the executor's own ACL and approval, which are outside the model.
- ExtractCliKwargs: what clap stores under an id is an input, in particular for a negative flag that is not given; paths are taken to be valid text.
- ArrivesExactly: an argument may be absent from the command lines it speaks of even if its flag has a default text.
- SameTables: default texts and the path check of a flag are not compared, because the extraction does not read them; nor are help texts.
- CommandIsUnambiguous: clap's own `--help` and the global `--identity-id`, `--identity-type` and `--role` (`src/acl_cmd.rs:188`) are not among the built-in arguments, and the code does not reserve their names.
- Help texts, value parsers beyond the kind of argument, and every rendering of tables, man pages and completions.
- `src/discovery.rs`, `src/openapi_source.rs`, scaffolding, visibility tiers: filters and branches that would add only easy members.
- Standard input merging, preflight checks and approval prompts inside `dispatch_module`: inputs of the run.
- Module ids and limits echoed in resolver error texts; only the kind of error and the unresolved reference are modelled.
- The order of keys in JSON objects: an insertion goes to the end, a removal keeps the order; no result depends on it.
- MergeAnyOf: the code lists the shared names in the iteration order of a hash set; the model fixes the order of the first branch, and the results about anyOf speak of the set of names.
- NoRefLeft: asks for clean siblings even where an enclosing merge drops them, and so does AllRefsInlined; `NoRefLeftExactly` and `AllRefsInlinedExactly` have the exact conditions.
- VariantSurvives: integers above the signed 64-bit range, which the code reparses as floating point, and floating-point printing are not modelled.
- ComputeSummary: starts from parsed lines; averages are exact fractions and the 64-bit sums do not overflow.
- HelpWithLimit: limits 1 and 2, for which the subtraction in the code underflows, are excluded.
- FlattenYamlValue: keys that are not strings, and the debug text of sequences and tagged values, are not modelled; the JSON twin of the traversal is the same recursion.
- ReadWords: gives no meaning to unquoted special characters, and reserved words and aliases are outside it.
- RoffRead: reads the escapes this program prints, not all of roff.
