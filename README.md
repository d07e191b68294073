# mimi-config: the configuration-manifest engine, modelled in Dafny

mimi-config reads a *manifest* that declares configurable parameters. Each
name has an optional description. A name may also have a `default`, which
makes it optional, or a `const` value, which fixes it. A name with neither is
required. The library then fills in each parameter's value from the process
environment. This model covers three near-identical copies of that engine:

- `Mimi::Config` (`lib/mimi/config.rb`);
- its earlier form `Nanobase::Config` (`lib/nanobase/config.rb`);
- the stand-alone `Mimi::Config::Manifest` hash (`lib/mimi/config/manifest.rb`),
  which also prints itself back as manifest text.

Layout, one Dafny module per file:

- `values.dfy` (`Values`) holds the values involved:
  - scalars (`nil`, strings, integers, booleans);
  - hash keys (String, Symbol, or anything without `to_sym`);
  - insertion-ordered Ruby hashes;
  - `stringify_keys`.
- `merge.dfy` (`Merge`) holds the manifest (names in insertion order plus one
  entry `{desc?, const?, default?}` per name) and the merge of parsed
  declarations into it:
  - `merge_manifest_key`, `merge_manifest_key_hash`;
  - the merge loop of `load_manifest`;
  - their copies `merge_key`, `merge_key_hash` and `load`.

  A merge yields the state reached together with the error it raised. A
  raise does not roll back what was already written, so that state matters.
- `resolution.dfy` (`Resolution`) holds the annotated manifest (`manifest`)
  and the `load_params` resolution against an environment map. It also holds
  `missing_params`, `include?`, `[]`, `to_h`, and the outcome of `load` as a
  whole. `missing_params`, `[]` and `load` appear in both config classes,
  and `include?` and `to_h` only in `Mimi::Config`. All of them only compute
  from the class's state, so they are functions of its state values.
- `yaml.dfy` (`Yaml`) holds `value_to_yaml` and `to_yaml` as functions. It
  proves what the printed text contains, and that merging the declarations
  it prints rebuilds the manifest.
- `mimi_config.dfy` (`MimiConfig.Config`) and `nanobase_config.dfy`
  (`NanobaseConfig.Config`) are the two config classes. Each has `@manifest`
  and `@params` fields. Their loads are methods that update these fields in
  place, with loops that mirror the Ruby `each` loops. Each method is proved
  equal to the functions above.
- `mimi_manifest.dfy` (`MimiManifest.Manifest`) is the Hash subclass. Its
  fields are the names and their entries. It has `load`, `merge_key`,
  `merge_key_hash` and the `to_yaml` loop.

The code is followed where the repository's tests or prose say otherwise:

- Values read from the environment are stored as the raw strings. No code
  converts them, although a test expects the integer `2`.
- `[]` accepts String keys as well as Symbols, because it calls `to_sym`,
  although a test expects a String key to raise.
- `load_params` never clears `@params`. A required parameter set by an
  earlier `load` keeps its value when a later environment lacks it, so that
  later load does not report it as missing.
- Failing to merge a pair stops the loop. The pairs merged before it, and a
  description written just before a `const`/`default` mix is rejected, stay
  in the manifest.

## Model

| member | source | states |
|---|---|---|
| Values.Lookup | lib/mimi/config.rb:177-188 | `key?` holds exactly when some binding has the key, and `[]` then gives a value bound to that key |
| Values.StringifiedLookup | lib/mimi/config/manifest.rb:69-70 | after `stringify_keys`, looking up `'desc'` finds the last field whose key reads `desc`, whether it was a String or a Symbol |
| Merge.StringifiedFields | lib/mimi/config/manifest.rb:69-81 | with stringified keys, `desc`, `const` and `default` are each found by their text, so String and Symbol field keys act alike |
| Merge.SymbolFieldsIgnored | lib/mimi/config.rb:177-188 | the config classes look fields up by String only, so a hash whose field keys are all Symbols declares nothing |
| Merge.MergeFields | lib/mimi/config.rb:176-190 | a given `desc` overwrites the description, even when the hash is then rejected; a hash raises exactly when it has both `const` and `default`; `default` gives `const=false` and stores the default; `const` gives `const=true` and stores the const value as the default; fields the hash does not give are kept; `const` and `default` stay present together; the same code sits at lib/nanobase/config.rb:142-156 |
| Merge.MergeFieldsTwice | lib/mimi/config.rb:176-190 | merging two valid hashes in turn equals merging their overlay: field-wise, the later one wins, and `const`/`default` move as one slot |
| Merge.MergeValue | lib/mimi/config.rb:166-173 | a nil value or a non-string, non-hash scalar leaves the entry as it was; a string replaces only the description; only a hash that mixes `const` and `default` raises; a default, once present, is never removed; the same code sits at lib/nanobase/config.rb:132-139 |
| Merge.Touch | lib/mimi/config.rb:165 | creating the entry on first sight (or-assigning `{}`) appends a new name with an empty entry and leaves a known name and every other entry unchanged |
| Merge.MergeKey | lib/mimi/config.rb:163-174 | a merge keeps the manifest well formed: names are unique, every name has one entry, and `const` and `default` are present together. It never undoes anything: names keep their order, none is lost, and an entry that has a default keeps one, so an optional or const name never becomes required again |
| Merge.MergeKeyFailure | lib/mimi/config.rb:163-190 | a merge raises exactly when the key has no `to_sym` or the hash mixes `const` and `default`, and the error names the culprit |
| Merge.MergeKeyFrame | lib/mimi/config.rb:163-174 | a key without `to_sym` changes nothing; otherwise the name list is the one after the entry is created, and no other name's entry changes |
| Merge.MergeKeyNew | lib/mimi/config.rb:165-173 | a name seen for the first time is appended, with the value merged into an empty entry |
| Merge.MergeKeyIdempotent | lib/mimi/config.rb:163-190 | merging the same accepted declaration twice leaves the same manifest as merging it once |
| Merge.MergePairs | lib/mimi/config.rb:135-137 | the `each` loop keeps the manifest well formed and only grows it |
| Merge.FirstRejected | lib/mimi/config.rb:135-137 | gives the position of the first pair that would raise, with every pair before it accepted |
| Merge.FirstRejection | lib/mimi/config.rb:135-140 | the loop raises exactly when some pair is rejected, and then with the error of the first rejected pair |
| Merge.LoadDocument | lib/mimi/config.rb:131-141 | a nil document leaves the manifest unchanged; an unreadable or non-Hash document raises and leaves it unchanged; a Hash merges without error exactly when every pair is accepted; every error comes out wrapped as a load failure; the same code sits at lib/nanobase/config.rb:97-107 |
| Resolution.Annotate | lib/mimi/config.rb:61-71 | one row per name, in manifest order; `required` holds exactly when the entry has no default; `const` is truthy exactly when the entry was declared const; `desc` and `default` are the entry's, or nil; the same code sits at lib/nanobase/config.rb:58-68 |
| Resolution.WithDotenv | lib/mimi/config.rb:146 | `Dotenv.load` adds the `.env` variables, but a variable the environment already sets keeps its value |
| Resolution.ResolveAllAt | lib/mimi/config.rb:147-159 | within the loop each name is written only by its own row, so its value follows that row's rule, and names outside the rows keep their value |
| Resolution.LoadParamsRules | lib/mimi/config.rb:145-161 | a const name takes its declared value whatever the environment holds; an optional name takes the environment's value, else its default; a required name takes the environment's value when there is one and otherwise keeps its previous value; undeclared names are never touched; the same code sits at lib/nanobase/config.rb:111-127 |
| Resolution.LoadParamsKeys | lib/mimi/config.rb:147-159 | `load_params` drops no parameter and only adds names the manifest declares |
| Resolution.Missing | lib/mimi/config.rb:54-57 | the missing names are exactly the required names without a value, each listed once; the same code sits at lib/nanobase/config.rb:51-54 |
| Resolution.NothingMissing | lib/mimi/config.rb:46-57 | an empty missing list means every required name has a value |
| Resolution.Includes | lib/mimi/config.rb:78-80 | `include?` raises only for a key without `to_sym`, and otherwise holds exactly when the name is declared |
| Resolution.Lookup | lib/mimi/config.rb:86-89 | `[]` succeeds exactly when `include?` holds; an undeclared String or Symbol name raises `Undefined parameter`; a declared name gives its value, or nil when it has none; the same code sits at lib/nanobase/config.rb:74-77 |
| Resolution.Snapshot | lib/mimi/config.rb:115-119 | `to_h` has one pair per declared name, in manifest order, each with what `[]` returns for it; a name appears exactly when it is declared, so undeclared environment variables never do |
| Resolution.LoadOutcome | lib/mimi/config.rb:41-50 | a failed manifest load raises before any parameter changes. Otherwise the parameters are resolved. The load then raises exactly when `raise_on_missing_params` is set and some required name is missing, and the error lists those names. The manifest stays well formed and only grows, and every parameter stays declared; the same code sits at lib/nanobase/config.rb:38-47 |
| Resolution.LoadLeavesNothingMissing | lib/mimi/config.rb:41-50 | a load that did not raise with `raise_on_missing_params` set leaves every required name with a value |
| MimiConfig.Config.constructor | lib/mimi/config.rb:32-34 | a new config has an empty manifest and no parameters |
| MimiConfig.Config.Create | lib/mimi/config.rb:32-36 | `new` with a manifest file is `load` on the empty config, and without one it leaves the config empty; either way `@params` stays within the manifest |
| MimiConfig.Config.Load | lib/mimi/config.rb:41-50 | the new manifest, parameters and raised error are those of `LoadOutcome`, and the invariant that every parameter is declared is kept |
| MimiConfig.Config.LoadManifest | lib/mimi/config.rb:131-141 | the loop leaves the manifest and the error of `LoadDocument`, and the parameters unchanged |
| MimiConfig.Config.LoadParams | lib/mimi/config.rb:145-161 | the loop over the annotated rows leaves the parameters of `LoadParams` under the effective environment; the manifest is unchanged |
| MimiConfig.Config.MergeManifestKey | lib/mimi/config.rb:163-174 | the in-place writes leave the manifest and the error of `MergeKey`, with field keys looked up as Strings only |
| MimiConfig.Config.MergeManifestKeyHash | lib/mimi/config.rb:176-190 | the field-by-field writes leave exactly that name's entry changed, as `MergeFields` says, and raise as it says |
| NanobaseConfig.Config.constructor | lib/nanobase/config.rb:29-31 | a new config has an empty manifest and no parameters |
| NanobaseConfig.Config.Create | lib/nanobase/config.rb:29-33 | `new` with a manifest file is `load` on the empty config, and without one it leaves the config empty; either way `@params` stays within the manifest |
| NanobaseConfig.Config.Load | lib/nanobase/config.rb:38-47 | the new manifest, parameters and raised error are those of `LoadOutcome`, and every parameter stays declared |
| NanobaseConfig.Config.LoadManifest | lib/nanobase/config.rb:97-107 | the loop leaves the manifest and the error of `LoadDocument`, and the parameters unchanged |
| NanobaseConfig.Config.LoadParams | lib/nanobase/config.rb:111-127 | the loop over the annotated rows leaves the parameters of `LoadParams` under the effective environment; the manifest is unchanged |
| NanobaseConfig.Config.MergeManifestKey | lib/nanobase/config.rb:129-140 | the in-place writes leave the manifest and the error of `MergeKey`, with field keys looked up as Strings only |
| NanobaseConfig.Config.MergeManifestKeyHash | lib/nanobase/config.rb:142-156 | the field-by-field writes leave exactly that name's entry changed, as `MergeFields` says, and raise as it says |
| MimiManifest.Manifest.constructor | lib/mimi/config/manifest.rb:3 | a new manifest hash is empty |
| MimiManifest.Manifest.Load | lib/mimi/config/manifest.rb:8-22 | a file is read and parsed, a Hash is used as given (as a value, so the caller's hash is never changed), and anything else counts as nil; the result is that of `LoadDocument` with stringified field keys, so nil returns the manifest unchanged, a non-Hash raises, and every error is wrapped |
| MimiManifest.Manifest.MergeKey | lib/mimi/config/manifest.rb:55-66 | the in-place writes leave the manifest and the error of `MergeKey` with stringified field keys |
| MimiManifest.Manifest.MergeKeyHash | lib/mimi/config/manifest.rb:68-83 | only that name's entry changes, as `MergeFields` on the stringified hash says |
| MimiManifest.Manifest.ToYaml | lib/mimi/config/manifest.rb:28-47 | the loop's text is the blocks of the entries in insertion order, joined by newlines |
| Yaml.ValueToYaml | lib/mimi/config/manifest.rb:51-53 | nil prints as the comment `# nil`, which reads back as null; no other value starts with `#`; a string starts with a double quote |
| Yaml.Block | lib/mimi/config/manifest.rb:30-44 | each block starts with `name:` and ends with its only empty line; an entry with a `:const` key gets the bare `name:` header; any other entry is one line |
| Yaml.OneBlankPerEntry | lib/mimi/config/manifest.rb:29-46 | the text has exactly one empty line per entry |
| Yaml.BlockWritesDeclaration | lib/mimi/config/manifest.rb:31-43 | each block is the manifest text of one declaration. An entry with a `:const` key prints a `desc:` line when it has a description, then a `const:` line when it is const, or else a `default:` line when it has a default. Any other entry prints its description on the header line, or nothing; a `nil` description prints as a comment, which reads back as a bare name |
| Yaml.ReloadEntry | lib/mimi/config/manifest.rb:31-43 | merging the declaration a block prints into an empty entry rebuilds the entry exactly when the entry is reloadable. An entry that is not reloadable is malformed, or has a non-string description on a one-line block, which reads back as a bare scalar and is dropped |
| Yaml.ReloadManifest | lib/mimi/config/manifest.rb:28-47 | merging the declarations that `to_yaml` prints, one `name:` block each keyed by its String name, into an empty manifest rebuilds the manifest, names in the same order, provided every entry is reloadable |

## Left out

- Reading and parsing files (`File.read`, `YAML.load`, `Pathname#expand_path`) is not modelled. The parsed document is an input: unreadable, nil, a Hash of parsed declarations, or any other value.
- `ENV` and `Dotenv.load` are not modelled as process state. The environment and the `.env` file are map parameters. `Dotenv.load` does write the `.env` variables into `ENV` for the rest of the process, and the model does not carry that write into later loads.
- `method_missing` and `respond_to_missing?` are left out. They are dynamic dispatch onto `[]` and `include?`, which are modelled, and nanobase's `method_missing` also prints with `puts`.
- The options are not modelled as hashes. `default_options` and `module_options.deep_merge` come from the mimi-core library, which is not part of this model. The options are two booleans, and The caller passes them already merged with the defaults.
- Type coercion and the `type` and `hidden` fields do not appear in the model, because no modelled code handles them.
- `to_s` (`to_h.to_s`) is left out, because it is Ruby's generic printing of a Hash.
- Scalars are `nil`, strings, integers and booleans; a parsed declaration that is a plain scalar (`Merge.Plain`) is an integer or a boolean, since a parsed string is a description and a parsed `nil` is a bare name. Floats, arrays and nested hashes as values are left out.
- Yaml.ValueToYaml: `inspect` is modelled for those scalars only. Its string escapes cover the double quote, the backslash, newline, tab and carriage return; Ruby's other escapes (other control characters, `#{`, non-ASCII text) are left out.
- Error messages are modelled as an error datatype, without their wording or their Ruby exception class.
- Yaml.ReloadManifest: the round trip is proved only for reloadable entries (well formed, and a string description when no `:const` key is present), because other entries do not survive it.
- Yaml.ReloadManifest: the YAML reader is assumed to return each printed `name:` header as its String name and each value as printed. That fails for names YAML reads as something else: numbers, booleans, null, dates, or names containing `: `. `merge_key` then raises on a key without `to_sym`. It also fails for descriptions whose Ruby `inspect` escapes (such as `\#{`) are not valid in a YAML double-quoted scalar. Such names can reach a manifest through a quoted YAML key or through `load` with a Hash.
- A Ruby Hash cannot hold the same key twice. Where a parsed hash is a list of bindings, a lookup takes the last binding of a key.
