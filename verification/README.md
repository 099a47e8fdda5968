# pig: `$ref` resolution and watch bookkeeping, in Dafny

pig renders Tera templates from an OpenAPI document. This project models the two
parts of it that decide what a template sees and when it is rendered again.

- **The resolver** (`src/resolver.rs`). `Resolver::new` opens the root document.
  `Resolver::resolve` then walks the JSON tree and replaces every `{"$ref": "<file>#/<k1>/…/<kn>"}`
  object with a resolved copy of its target. The copy carries four annotations:
  - `$ref`: the reference as text;
  - `$file`: its canonical file;
  - `$keys`: its key list;
  - `$name`: its last key.

  Files are loaded through a cache keyed by canonical path. The root is checked strictly against
  the OpenAPI model; other files are checked with the root's version, the placeholder `info` and an
  empty `paths` patched in.
- **The watch loop** (`src/pig.rs`). `Pig::oink` either:
  - renders every configured entry once; or
  - keeps one `WatcherEntry` per entry, which watches the files its context was resolved from and
    its template directory, and re-resolves or re-renders when one of them changes.

## Layout

| file | module | what it holds |
|---|---|---|
| `results.dfy` | `Results` | `Option`, and `Result` with failure propagation (Rust's `?`) |
| `text.dfy` | `Text` | Rust's `str::trim`, `split`, `join` and `ends_with`; the byte order of `String`, used by `BTreeMap` iteration |
| `json.dfy` | `JsonTree` | `Json` values, `get`, key-by-key navigation |
| `paths.dfy` | `Paths` | Unix paths (`is_absolute`, `parent`, `join`); the file system as data |
| `reference.dfy` | `References` | `Reference`, `Reference::new`, `display`, `Display::fmt`, the error values |
| `loading.dfy` | `Loading` | `Resolver::load` and `Resolver::new` as functions on the cache |
| `resolution.dfy` | `Resolution` | the inner `resolve` as functions, its termination measure and what it guarantees |
| `resolver.dfy` | `Resolvers` | the `Resolver` object and the reference stack, with methods proved equal to the functions |
| `pig.dfy` | `Pig` | the handler, templates and output paths, `context`, `run`, and the watcher classes |

## Modelling decisions

- **JSON and key order.**
  - `Json` has integer numbers only.
  - Objects are `map<string, Json>`.
  - serde_json's default `Map` is a `BTreeMap`, so objects are walked in ascending key order
    (`Text.Least`). The order matters because it decides which failure is reported first.
- **The file system** is data (`Paths.FileSystem`):
  - `canon` maps each existing path to its canonical form;
  - `files` gives each file's YAML parse, or `None` when the text is not YAML;
  - `openapi` stands for "deserialize into the OpenAPI model and serialize back", and gives `None`
    when deserialization fails.

  `FileSystem.Valid` states what `canonicalize` guarantees: the result is absolute, has no trailing
  `/`, no empty component and no `.` or `..` component (`Paths.Normal`), and canonicalizes to itself.
- **Failures.** Every `?`, `expect`, `unwrap`, `assert!` and `panic!` becomes an `Error` value
  (`References.Error`), never a precondition. `Reference::new` on text without `#` gives
  `MalformedReference`. A cycle gives `Cycle(chain)`, where the chain is the stack followed by the
  repeated reference.
- **Termination.** The inner `resolve` is not structurally recursive: it follows references into
  other files. The measure has two components:
  - first, the navigable `(file, keys)` pairs of the file system that are not on the stack
    (`Resolution.Measure`);
  - second, the value being resolved.
- **`Resolver`** is a class with fields `file` and `files`. The `&mut Vec<Reference>` is the class
  `ReferenceStack`. Each method is proved equal to the function in `Resolution` that specifies it.
- **Watchers.** The watchers in `pig.rs` are `NotifyWatcher` objects. Each holds the set of paths it
  watches.
- **The outside world** is a `World` value:
  - `listing` gives the files below a template directory;
  - `writable` says whether an output path can be written;
  - `config` is what reading the configuration again gives.

  A `Step` pairs each event with the world at that moment. The events are a finite sequence, so a
  watch that succeeds is one whose events ran out with no failure. The loop at
  `src/pig.rs:158-166` does not end while its watchers hold senders, so in the program watch mode
  never returns `Ok`; it ends only with a failure.
- **Resolving a context.** `src/pig.rs:47` destructures `(dependencies, openapi)` out of
  `Resolver::resolve`, but `src/resolver.rs:89` returns only the JSON value. The model takes the
  dependencies to be the key set of the resolver's cache after resolving: the canonical files it
  loaded.

## Model

| member | source | states |
|---|---|---|
| Text.Trim | src/resolver.rs:33 | the result has no surrounding whitespace, is no longer than the input, and is empty exactly when the input is all whitespace |
| Text.TrimStart | src/resolver.rs:33 | the longest suffix that does not start with white space: only white space is dropped |
| Text.TrimEnd | src/resolver.rs:33 | the longest prefix that does not end with white space: only white space is dropped |
| Text.TrimFacts | src/resolver.rs:48 | trimming the start and then the end leaves no whitespace at either end, and leaves nothing exactly for all-whitespace text |
| Text.TrimOfTrimmed | src/resolver.rs:48 | trimming text with no surrounding whitespace gives it back unchanged |
| Text.IndexOf | src/resolver.rs:25-29 | the position found holds the character, and no earlier position does |
| Text.Split | src/resolver.rs:47 | at least one piece; no piece contains the separator; joining the pieces with it gives the text back |
| Text.SplitJoin | src/resolver.rs:47 | splitting the join of separator-free pieces gives the pieces back |
| Text.SplitCons | src/resolver.rs:25-29 | splitting `a#b` with `a` free of `#` gives `a` followed by the pieces of `b` |
| Text.Join | src/resolver.rs:57 | no contract: `join`; see Text.Split and Text.SplitJoin |
| Text.LessEqTotal | src/resolver.rs:192 | byte order on strings is total (with LessEqReflexive, LessEqAntisymmetric, LessEqTransitive: a total order) |
| Text.LeastExists | src/resolver.rs:192 | a non-empty key set has a least key |
| Text.Least | src/resolver.rs:192 | the key chosen is in the set and no greater than any other |
| JsonTree.Get | src/resolver.rs:167 | a key is found exactly in an object that has it |
| JsonTree.Navigate | src/resolver.rs:166-169 | no contract: the walk through objects, key by key; see JsonTree.FirstMissing and JsonTree.NavigateAppend |
| JsonTree.FirstMissing | src/resolver.rs:166-169 | the position of the first key that is missing: every key before it is found, this one is not |
| JsonTree.FirstMissingAt | src/resolver.rs:166-169 | a key missing after a found prefix makes the walk fail, and at that key |
| JsonTree.NavigateAppend | src/resolver.rs:166-169 | walking `a + b` is walking `a`, then `b` from there |
| Paths.Parent | src/resolver.rs:37 | no parent exactly for `""` and `"/"`; otherwise a strictly shorter prefix |
| Paths.ParentOfNormal | src/resolver.rs:37 | for a canonical-shaped path other than the root, the parent is some and canonical-shaped, and the path is its parent joined with one last component that is non-empty and neither `.` nor `..`, as `Path::parent` gives |
| Paths.JoinPath | src/resolver.rs:40-42 | an absolute path replaces the base; a relative one is appended below it |
| Paths.JoinPathInjective | src/pig.rs:74-77 | two relative paths joined to the same base give the same path only if they are equal |
| Paths.IsAbsolute | src/resolver.rs:40 | no contract: a path is absolute when it starts with `/` |
| Paths.FileSystem.Canonicalize | src/resolver.rs:44 | fails exactly for a path that does not exist; on a valid file system it gives an absolute canonical path |
| References.Display | src/resolver.rs:61-70 | `Display::fmt` is `display` over all the keys |
| References.DisplayPrefix | src/resolver.rs:56-58 | no contract: `display(end)`, the file, `#/` and the first `end` keys joined by `/`; see References.DisplaySplits |
| References.SplitReferenceParts | src/resolver.rs:24-31 | fails exactly when there is no `#`; otherwise the file part is the text before the first `#` and the fragment runs to the second `#` or the end |
| References.SplitReference | src/resolver.rs:24-31 | no contract: the text before the first `#` and the text up to the second; see References.SplitReferenceParts |
| References.FragmentKeysWellFormed | src/resolver.rs:46-51 | every key is non-empty, free of `/` and has no surrounding whitespace |
| References.TrimAndDropKeys | src/resolver.rs:46-51 | trimming the pieces and dropping empty ones leaves only well-formed keys |
| References.TrimAndDropKeeps | src/resolver.rs:46-51 | well-formed keys pass through trimming and dropping unchanged |
| References.TrimAndDrop | src/resolver.rs:46-51 | no contract: trim every piece and drop the empty ones; see References.TrimAndDropKeys |
| References.FragmentKeys | src/resolver.rs:46-51 | no contract: the keys of a fragment; see References.FragmentKeysWellFormed |
| References.EmptyPieceDropped | src/resolver.rs:49 | a leading empty piece (the one before the fragment's first `/`) contributes no key, and two empty pieces give no keys |
| References.BlankPieceDropped | src/resolver.rs:46-51 | a piece that trims to nothing contributes no key wherever it stands, so `#/a//b`, `#/a/ /b` and `#/a/b` give the same keys |
| References.ResolveFilePartCases | src/resolver.rs:33-44 | a blank file part is the current file; a non-blank one is joined below the current file's parent (or replaces it when absolute); either way it is then canonicalized, and a current file without a parent fails |
| References.ResolveFilePart | src/resolver.rs:33-44 | on a valid file system a resolved file part is absolute and canonical |
| References.Canonical | src/resolver.rs:44 | fails, naming the path, exactly when the path does not exist; otherwise gives an absolute canonical path |
| References.New | src/resolver.rs:19-54 | the reference built names an absolute canonical file |
| References.NewParts | src/resolver.rs:19-54 | text without `#` fails; otherwise the keys are those of the fragment, well formed, and the file is the resolved file part |
| References.DisplaySplits | src/resolver.rs:56-70 | splitting the rendering of a reference at `#` gives back its file and `/`-joined keys |
| References.FragmentOfKeys | src/resolver.rs:46-51 | the keys read from the fragment `/k1/…/kn` of well-formed keys are `k1 … kn` |
| References.NewDisplay | src/resolver.rs:19-70 | a reference parses back from its own rendering: `Reference::new(current, r.to_string()) == r` |
| Loading.VersionOf | src/resolver.rs:222-225 | a version exactly when the root has a string `openapi` field, and then that string |
| Loading.Version | src/resolver.rs:219-226 | no contract: the version the checks use, that of the cached root; see Loading.ReadCases and Loading.Open |
| Loading.PatchShape | src/resolver.rs:230-243 | the validation copy of an object gets `openapi`, the placeholder `info` and an empty `paths`, and keeps every other key; a non-object is checked as it is |
| Loading.Patch | src/resolver.rs:230-243 | no contract: the validation copy; see Loading.PatchShape |
| Loading.ReadCases | src/resolver.rs:221-255 | a missing file, text that is not YAML and a file the OpenAPI model refuses each fail; with a version the raw parse is kept once its patched copy passes; without one the model's reserialized document is kept |
| Loading.Read | src/resolver.rs:221-255 | no contract: reading and checking one file; see Loading.ReadCases |
| Loading.Target | src/resolver.rs:212-217 | the path looked up is canonical |
| Loading.TargetCases | src/resolver.rs:212-217 | an absolute path is canonicalized as it is, a relative one below the root's parent |
| Loading.Load | src/resolver.rs:210-261 | the value given is the one cached under the canonical path; the cache gains that one key and keeps every old entry |
| Loading.LoadCached | src/resolver.rs:219 | a file already cached is not read again |
| Loading.LoadTwice | src/resolver.rs:219-260 | loading the same file again gives the same value and leaves the cache as it is |
| Loading.Open | src/resolver.rs:79-87 | a missing root fails; an opened root is canonical, read strictly, and the cache holding only it is consistent |
| Loading.LoadConsistent | src/resolver.rs:219-257 | loading keeps the cache consistent: every entry is what reading its canonical path gives |
| Resolution.MeasureDecreases | src/resolver.rs:123-133 | pushing a reference that is not on the stack and whose target exists lowers the termination measure |
| Resolution.Current | src/resolver.rs:115-119 | the file a `$ref` is read against (the top of the stack, else the root) is canonical whenever the root and the stacked files are, which is what the `debug_assert!` at src/resolver.rs:21 expects |
| Resolution.KeysJson | src/resolver.rs:141-150 | `$keys` holds the keys as strings, one for one |
| Resolution.Extension | src/resolver.rs:135-161 | the annotation has exactly the keys `$ref`, `$file`, `$keys` and `$name` |
| Resolution.CollisionCases | src/resolver.rs:181-185 | a collision exactly when the resolved object has a reserved key, and then the least such key in key order |
| Resolution.CollisionOrder | src/resolver.rs:181-185 | which reserved key is reported: `$file`, then `$keys`, then `$name`, then `$ref` |
| Resolution.Collision | src/resolver.rs:181-185 | no contract: the reserved key met first in key order; see Resolution.CollisionCases |
| Resolution.Annotate | src/resolver.rs:187 | extending an annotated object without reserved keys gives an annotated object carrying the reference's annotation |
| Resolution.AnnotatedGrows | src/resolver.rs:257 | annotations stay valid as the cache grows |
| Resolution.ResolveValue | src/resolver.rs:90-197 | resolving keeps the cache consistent and only adds to it |
| Resolution.ResolveItems | src/resolver.rs:97-101 | resolving array elements in order keeps the cache consistent and only adds to it |
| Resolution.ResolveFields | src/resolver.rs:191-195 | resolving object values in key order keeps the cache consistent and only adds to it |
| Resolution.ExpandReference | src/resolver.rs:103-133 | expanding a `$ref` object keeps the cache consistent and only adds to it |
| Resolution.Follow | src/resolver.rs:163-170 | following a reference keeps the cache consistent and only adds to it |
| Resolution.Descend | src/resolver.rs:172-189 | resolving and annotating the target keeps the cache consistent and only adds to it |
| Resolution.DistinctPush | src/resolver.rs:123-133 | a reference is pushed only when it is not on the stack, so the stack never holds a repeat |
| Resolution.Walk | src/resolver.rs:163-170 | a successful walk ends at the navigated target |
| Resolution.WalkCases | src/resolver.rs:166-169 | the walk fails exactly when some key is missing, reporting `NotFound` at the depth of the first missing key, whose prefix is found |
| Resolution.AttachCases | src/resolver.rs:178-187 | a non-object target fails; an object with a reserved key fails naming a reserved key it has; otherwise the result is the object plus the four annotations, every other key unchanged |
| Resolution.Attach | src/resolver.rs:178-187 | no contract: the object check, the collision check and the extension; see Resolution.AttachCases |
| Resolution.ValueSound | src/resolver.rs:90-197 | a success has the input's shape with every `$ref` object replaced by an object annotated with a cached file; a failure is reported as the source reports it (the cycle chain extends the stack with a repeated reference, extra keys exclude `$ref`, a missing key at its depth, a reserved key) |
| Resolution.ItemsSound | src/resolver.rs:97-101 | the array keeps its length; elements before the position are untouched and those after are resolved, in order |
| Resolution.FieldsSound | src/resolver.rs:191-195 | the object keeps its key set; the values still to visit are resolved and the others untouched |
| Resolution.ExpandSound | src/resolver.rs:103-133 | extra keys and a non-string `$ref` fail before anything is loaded; a reference already on the stack fails with the chain of the stack followed by it, and nothing is loaded; a success is an object carrying the annotation of exactly the reference `Reference::new` reads from the `$ref` text |
| Resolution.FollowSound | src/resolver.rs:163-190 | a success is an object carrying this reference's annotation, and the reference's file is cached |
| Resolution.DescendSound | src/resolver.rs:172-189 | resolving the target with the reference pushed gives an object carrying the annotation, or a well-reported failure |
| Resolution.PassValue | src/resolver.rs:95-101 | a tree with no `$ref` anywhere comes back unchanged and the cache is untouched |
| Resolution.PassItems | src/resolver.rs:97-101 | an array with no `$ref` anywhere comes back unchanged |
| Resolution.PassFields | src/resolver.rs:191-195 | an object with no `$ref` anywhere comes back unchanged |
| Resolution.FollowPlain | src/resolver.rs:163-189 | a reference to an object with no `$ref` inside and no reserved key gives that object, every entry unchanged, plus the reference's four annotations, and only the reference's file is loaded |
| Resolution.ReferenceToReference | src/resolver.rs:172-185 | a reference whose target is itself a `$ref` object always fails: with the inner failure, or with the collision on `$file` |
| Resolvers.ReferenceStack.constructor | src/resolver.rs:203 | resolution starts with an empty stack |
| Resolvers.Resolver.Empty | src/resolver.rs:80-83 | the resolver starts on the canonical file with an empty cache |
| Resolvers.Resolver.New | src/resolver.rs:79-87 | succeeds exactly when opening does, with the same failure; a new resolver caches only the root |
| Resolvers.Resolver.Load | src/resolver.rs:210-261 | gives the value and the new cache that `load` specifies, and leaves the cache alone on failure |
| Resolvers.Resolver.Resolve | src/resolver.rs:202-205 | gives the resolution of the root value from an empty stack, and the cache that resolution ends with |
| Resolvers.Resolver.ResolveValue | src/resolver.rs:90-101 | gives the specified resolution and cache; on success the stack is as it was |
| Resolvers.Resolver.ResolveArray | src/resolver.rs:97-101 | the loop over elements gives the specified resolution; on success the stack is as it was |
| Resolvers.Resolver.ResolveObject | src/resolver.rs:191-195 | the loop over values gives the specified resolution; on success the stack is as it was |
| Resolvers.Resolver.ExpandReference | src/resolver.rs:103-133 | the checks on a `$ref` object, and the cycle check that pushes the repeat before failing, give the specified outcome |
| Resolvers.Resolver.Follow | src/resolver.rs:163-170 | loading and the loop over keys give the specified outcome |
| Resolvers.Resolver.Descend | src/resolver.rs:172-189 | push, resolve, pop and attach give the specified outcome; the stack is restored on success |
| Resolvers.Resolver.Walk | src/resolver.rs:166-170 | the loop over keys gives the walk specified |
| Resolvers.Resolver.Attach | src/resolver.rs:178-187 | the loop over keys and the extension give the annotated object specified |
| Pig.TagSourceOf | src/pig.rs:87-92 | an event is determined by the closure that built it and the change it carries |
| Pig.Handle | src/pig.rs:123-144 | a notify error fails; an event is sent exactly for `Modify(Data(d))`, built by the handler's closure from `d`; every other kind is dropped |
| Pig.JinjaNames | src/pig.rs:61-70 | the names loaded are exactly the listed files ending in `.jinja` |
| Pig.Tera | src/pig.rs:61-70 | every template name ends in `.jinja`; loading fails exactly when the directory cannot be loaded |
| Pig.OutputPathOfStem | src/pig.rs:72-77 | `stem.jinja` renders to the output directory joined with `stem` |
| Pig.OutputPath | src/pig.rs:74-77 | no contract: the output directory joined with the template name less `.jinja`; see Pig.OutputPathOfStem |
| Pig.OutputPathInjective | src/pig.rs:72-77 | two relative templates never render to the same output path |
| Pig.FirstUnwritable | src/pig.rs:73-81 | the first template whose output cannot be written: all before it can be |
| Pig.Rendered | src/pig.rs:72-84 | no contract: the templates rendered in order; see Pig.RenderedCases |
| Pig.RenderedCases | src/pig.rs:72-84 | rendering succeeds exactly when every output path can be written, and then writes them all in template order; otherwise it fails on the first that cannot |
| Pig.Render | src/pig.rs:72-84 | the loop over templates gives the rendering specified |
| Pig.ContextSound | src/pig.rs:46-59 | a missing root fails; the dependencies hold the canonical root and only canonical paths; the context is an object whose `$ref` objects all name a dependency |
| Pig.ContextWatchable | src/pig.rs:219-224 | every dependency exists, so it can be watched |
| Pig.ContextOf | src/pig.rs:46-59 | no contract: resolve, write the two context files, convert; see Pig.ContextSound |
| Pig.Context | src/pig.rs:46-59 | the resolver object gives the context specified |
| Pig.FirstFailure | src/pig.rs:31-40 | the first failed step: all before it succeed |
| Pig.SequenceCases | src/pig.rs:31-40 | steps in order succeed exactly when none fails, and otherwise fail as the first failure did |
| Pig.Sequence | src/pig.rs:31-40 | no contract: steps in order, stopping at the first failure; see Pig.SequenceCases |
| Pig.EntryRun | src/pig.rs:32-37 | no contract: context, templates and rendering for one entry; see Pig.RunCases and Pig.WatcherEntry.Init |
| Pig.RunOf | src/pig.rs:31-40 | no contract: `run`; see Pig.RunCases |
| Pig.EntryRuns | src/pig.rs:32-37 | no contract: the outcome of each entry, in order; see Pig.RunCases |
| Pig.RunCases | src/pig.rs:31-40 | `run` succeeds exactly when every entry does, and otherwise fails with the first failing entry's failure, every earlier entry having succeeded |
| Pig.RunEntry | src/pig.rs:32-37 | context, templates and rendering for one entry |
| Pig.Run | src/pig.rs:31-40 | the loop over entries gives the run specified |
| Pig.NotifyWatcher.constructor | src/pig.rs:183-190 | a new watcher watches nothing |
| Pig.NotifyWatcher.Watch | src/pig.rs:204-205 | watching adds an existing path, and fails for a missing one |
| Pig.NotifyWatcher.Unwatch | src/pig.rs:216 | unwatching removes a watched path, and fails for one not watched |
| Pig.WatcherEntry.constructor | src/pig.rs:180-195 | two fresh idle watchers, no dependencies, an empty context, no templates |
| Pig.WatcherEntry.WatchAll | src/pig.rs:203-206 | every path is added to the schema watcher; it cannot fail when they all exist |
| Pig.WatcherEntry.Init | src/pig.rs:197-212 | dependencies and context come from a fresh context and the templates are reloaded, and what is written is what a run of the entry writes; afterwards the schema watcher has gained exactly the dependencies and the input watcher the input directory; a failed context changes nothing |
| Pig.WatcherEntry.UnwatchAll | src/pig.rs:215-217 | succeeds exactly when every path is watched, then removes them all; otherwise fails on a path not watched |
| Pig.WatcherEntry.OnOpenapi | src/pig.rs:214-229 | a stale dependency fails the unwatch; on success the schema watcher has lost the old dependencies and gained the new ones, so a watcher in sync stays in sync; the templates are unchanged; it succeeds whenever the watches, the context and rendering can |
| Pig.WatcherEntry.OnInput | src/pig.rs:231-237 | only the templates are replaced, then rendered; dependencies, context and watchers are untouched |
| Pig.FirstConfig | src/pig.rs:158-160 | the position of the first configuration change |
| Pig.Watcher.constructor | src/pig.rs:102-121 | one fresh entry per configured entry, with its own index and watchers, sharing no object |
| Pig.Watcher.Dispatch | src/pig.rs:161-162 | an event changes only the entry it names, and an index out of range fails; `Openapi` keeps the templates and `Input` keeps the dependencies, context and watchers |
| Pig.Watcher.InitEntry | src/pig.rs:151-153 | after `init` the entry watches exactly its dependencies, and a run of its configured entry succeeds |
| Pig.Watcher.InitAll | src/pig.rs:151-153 | after every `init` each entry watches exactly its dependencies, and a run of every configured entry succeeds |
| Pig.Watcher.Listen | src/pig.rs:158-166 | the entries stay in sync through the events, and every event before the first configuration change names an existing entry |
| Pig.Watcher.Watch | src/pig.rs:150-167 | on success the configuration file exists and is watched, every entry watches exactly its dependencies, a run of every configured entry succeeds, and every event before the first configuration change names a configured entry |
| Pig.Oink | src/pig.rs:23-29 | without watching, the outcome is that of `run` over the entries; in watch mode success means the configuration file exists, `run` over the entries would succeed, and every event before the first configuration change names a configured entry |

## Left out

- File reading, YAML and JSON parsing, and OpenAPI deserialization are data in `FileSystem` (`files`, `openapi`), not code.
- Tera is not modelled beyond which names it loads. `Tera::new` failing is `listing` giving `None`. Rendering a template is `writable` of its output path. The order of `get_template_names` is the listing's order.
- `create_dir_all`, `File::create` and `write` (`src/pig.rs:49-56`, `79-80`) are one yes/no per path (`writable`). A partly written file is not modelled.
- Serialization failures of `serde_json::to_string_pretty` and `serde_yaml::to_string` are not modelled. `Context::from_value` fails only on a non-object.
- `RecommendedWatcher::new` failing, the notify configuration with its 200 ms poll interval, the channel, and the threads are not modelled. The events a run receives are a sequence of `Step`s, and a watch error reaching the handler is `Handle` returning `WatcherFailed`.
- `Config::new` and `Args::parse` (`src/config.rs`, `src/main.rs`) are not part of this model. Reading the configuration again is `World.config`.
- Error messages are structured values, not formatted text.
- `debug_assert!` at `src/resolver.rs:21-22` is not modelled as a check. The current file is canonical (`Resolution.Current`); that it is a file and not a directory is not stated.
- `FileSystem.Valid` is assumed of the file system given to `Open`, `Resolver.New` and the pig functions. It states what `canonicalize` promises: an absolute path without a trailing `/`, an empty component or a `.` or `..` component that canonicalizes to itself. `Paths.Parent` is `Path::parent` only on paths of that shape (`Paths.ParentOfNormal`); a current file is always canonical, so only such paths reach it. Relative part names with `..` or `.` components are left to `canonicalize`.
- Pig.Watcher.Watch: when a configuration change rebuilds the watcher, the contract states nothing about the new watcher's entries, only what held of the old one before the change.
- Pig.ContextSound: states that every dependency is canonical and that the root is one, but not the converse of the annotation property, that every dependency other than the root is the `$file` of some annotation in the context. It holds of the code, since a file is cached only by an expansion that, when the whole resolution succeeds, leaves its annotation in the context, but it is not proved.
- Pig.Watcher.Dispatch: that no other entry changes is stated by its `modifies` frame, not by an `ensures`.
