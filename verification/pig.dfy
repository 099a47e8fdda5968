/**
 * The watch bookkeeping of src/pig.rs: which notifications become events,
 * where a template renders to, what each watcher entry holds and watches
 * after `init`, `on_openapi` and `on_input`, how the event loop dispatches,
 * and how `oink` picks a mode. Resolution is the model of src/resolver.rs;
 * the file system, Tera and notify are given as data (a `World`).
 */
module Pig {
  import opened Results
  import opened Text
  import opened JsonTree
  import opened Paths
  import opened References
  import Loading
  import Resolution
  import Resolvers

  // ---------------------------------------------------------------------------
  // Configuration and the outside world.

  /** One `ConfigEntry`: the root OpenAPI file, the template directory and the output directory. */
  datatype ConfigEntry = ConfigEntry(openapi: Path, input: Path, output: Path)

  /** `Config`: the configuration file itself, whether to watch, and the entries in order. */
  datatype Config = Config(file: Path, watch: bool, entries: seq<ConfigEntry>)

  /**
   * What the outside world answers at one moment:
   * - `fs`: the file system the resolver reads, and which paths exist to be watched;
   * - `listing`: the files below a directory, relative to it, in the order
   *   Tera finds them; `None` when `Tera::new` fails there;
   * - `writable`: whether a file can be created and written at a path;
   * - `config`: what reading the configuration again gives.
   */
  datatype World = World(
    fs: FileSystem,
    listing: Path -> Option<seq<string>>,
    writable: Path -> bool,
    config: Result<Config, Error>)

  // ---------------------------------------------------------------------------
  // The handler: which notifications reach the event loop.

  /** `notify::event::DataChange`. */
  datatype DataChange = AnyChange | Size | Content | OtherChange

  /** `notify::event::ModifyKind`, without the payloads the handler ignores. */
  datatype ModifyKind = ModifyAny | Data(change: DataChange) | Metadata | Name | ModifyOther

  /** `notify::EventKind`, without the payloads the handler ignores. */
  datatype EventKind = AnyKind | Access | Create | Modify(kind: ModifyKind) | Remove | OtherKind

  /** `Event`: the configuration file changed, or entry `index`'s schema or templates did. */
  datatype Event =
    | ConfigChanged(change: DataChange)
    | OpenapiChanged(index: nat, change: DataChange)
    | InputChanged(index: nat, change: DataChange)

  /** The closure `f` a handler is built with: `Event::Config`, or one entry's schema or input wrapper. */
  datatype Source = ConfigFile | OpenapiOf(index: nat) | InputOf(index: nat)

  /** `f(data)`. */
  function Tag(source: Source, change: DataChange): Event {
    match source
    case ConfigFile => ConfigChanged(change)
    case OpenapiOf(i) => OpenapiChanged(i, change)
    case InputOf(i) => InputChanged(i, change)
  }

  /** The closure an event was built by. */
  function SourceOf(e: Event): Source {
    match e
    case ConfigChanged(_) => ConfigFile
    case OpenapiChanged(i, _) => OpenapiOf(i)
    case InputChanged(i, _) => InputOf(i)
  }

  /** An event is determined by the closure that built it and the change it carries. */
  lemma TagSourceOf(e: Event)
    ensures Tag(SourceOf(e), e.change) == e
  {
  }

  /**
   * The handler on one notification: `Ok(None)` when it is dropped,
   * `Ok(Some(e))` when `e` is sent; a notify error panics.
   */
  function Handle(source: Source, notification: Result<EventKind, string>): (r: Result<Option<Event>, Error>)
    ensures r.Err? <==> notification.Err?
    ensures r.Err? ==> r.error == WatcherFailed
    ensures r.Ok? && r.value.Some? <==> notification.Ok? && notification.value.Modify? && notification.value.kind.Data?
    ensures r.Ok? && r.value.Some? ==>
              SourceOf(r.value.value) == source && r.value.value.change == notification.value.kind.change
  {
    match notification
    case Err(_) => Err(WatcherFailed)
    case Ok(Modify(Data(change))) => Ok(Some(Tag(source, change)))
    case Ok(_) => Ok(None)
  }

  // ---------------------------------------------------------------------------
  // Templates and the paths they render to.

  /** `Pig::JINJA`. */
  const Jinja: string := ".jinja"

  /** The names `Tera::new("<input>/**/*.jinja")` loads out of a listing: those ending in `.jinja`, in order. */
  function JinjaNames(files: seq<string>): (names: seq<string>)
    ensures forall i | 0 <= i < |names| :: EndsWith(names[i], Jinja)
    ensures forall f :: f in names <==> f in files && EndsWith(f, Jinja)
  {
    if files == [] then []
    else if EndsWith(files[0], Jinja) then [files[0]] + JinjaNames(files[1..])
    else JinjaNames(files[1..])
  }

  /** `Pig::tera`: the template names under the input directory, or the failure to load them. */
  function Tera(world: World, input: Path): (r: Result<seq<string>, Error>)
    ensures r.Ok? ==> forall i | 0 <= i < |r.value| :: EndsWith(r.value[i], Jinja)
    ensures world.listing(input).None? <==> r == Err(TemplateFailure(input))
  {
    match world.listing(input)
    case None => Err(TemplateFailure(input))
    case Some(files) => Ok(JinjaNames(files))
  }

  /** Names long enough to lose the `.jinja` suffix. */
  predicate Sliceable(names: seq<string>) {
    forall i | 0 <= i < |names| :: |names[i]| >= |Jinja|
  }

  /** The output path of a template: the output directory joined with the name minus its last six characters. */
  function OutputPath(output: Path, template: string): Path
    requires |template| >= |Jinja|
  {
    JoinPath(output, template[..|template| - |Jinja|])
  }

  /** A template `stem.jinja` renders to `output` joined with `stem`. */
  lemma OutputPathOfStem(output: Path, stem: string)
    ensures OutputPath(output, stem + Jinja) == JoinPath(output, stem)
  {
    assert (stem + Jinja)[..|stem|] == stem;
  }

  /** Two relative `.jinja` templates never render to the same path. */
  lemma OutputPathInjective(output: Path, t: string, u: string)
    requires EndsWith(t, Jinja) && EndsWith(u, Jinja) && !IsAbsolute(t) && !IsAbsolute(u)
    requires OutputPath(output, t) == OutputPath(output, u)
    ensures t == u
  {
    var st := t[..|t| - |Jinja|];
    var su := u[..|u| - |Jinja|];
    assert !IsAbsolute(st) by {
      if |st| > 0 {
        assert st[0] == t[0];
      }
    }
    assert !IsAbsolute(su) by {
      if |su| > 0 {
        assert su[0] == u[0];
      }
    }
    JoinPathInjective(output, st, su);
    assert t == st + Jinja;
    assert u == su + Jinja;
  }

  /** `written` followed by what the rest writes, or the failure of the rest. */
  function Prepend(written: seq<Path>, rest: Result<seq<Path>, Error>): Result<seq<Path>, Error> {
    match rest
    case Ok(more) => Ok(written + more)
    case Err(e) => Err(e)
  }

  lemma PrependNothing(rest: Result<seq<Path>, Error>)
    ensures Prepend([], rest) == rest
  {
    if rest.Ok? {
      assert [] + rest.value == rest.value;
    }
  }

  lemma PrependPrepend(a: seq<Path>, b: seq<Path>, rest: Result<seq<Path>, Error>)
    ensures Prepend(a, Prepend(b, rest)) == Prepend(a + b, rest)
  {
    if rest.Ok? {
      assert a + (b + rest.value) == (a + b) + rest.value;
    }
  }

  /** `Pig::render`: each template in turn is written to its output path; the first path that cannot be written fails. */
  function Rendered(world: World, output: Path, names: seq<string>): Result<seq<Path>, Error>
    requires Sliceable(names)
  {
    if names == [] then Ok([])
    else
      var path := OutputPath(output, names[0]);
      if !world.writable(path) then Err(Io(path))
      else Prepend([path], Rendered(world, output, names[1..]))
  }

  /** The position of the first template whose output path cannot be written, or the count when there is none. */
  function FirstUnwritable(world: World, output: Path, names: seq<string>): (n: nat)
    requires Sliceable(names)
    ensures n <= |names|
    ensures forall j | 0 <= j < n :: world.writable(OutputPath(output, names[j]))
    ensures n < |names| ==> !world.writable(OutputPath(output, names[n]))
  {
    if names == [] || !world.writable(OutputPath(output, names[0])) then 0
    else 1 + FirstUnwritable(world, output, names[1..])
  }

  /**
   * Rendering succeeds exactly when every output path can be written, and
   * then writes them all, in template order; otherwise it fails on the
   * first one that cannot.
   */
  lemma {:induction false} RenderedCases(world: World, output: Path, names: seq<string>)
    requires Sliceable(names)
    ensures var n, r := FirstUnwritable(world, output, names), Rendered(world, output, names);
            && (r.Ok? <==> n == |names|)
            && (r.Err? ==> r.error == Io(OutputPath(output, names[n])))
            && (r.Ok? ==> |r.value| == |names| && forall i | 0 <= i < |names| :: r.value[i] == OutputPath(output, names[i]))
  {
    if names != [] && world.writable(OutputPath(output, names[0])) {
      var tail := names[1..];
      RenderedCases(world, output, tail);
      assert FirstUnwritable(world, output, names) == 1 + FirstUnwritable(world, output, tail);
      var n := FirstUnwritable(world, output, tail);
      if n < |tail| {
        assert names[n + 1] == tail[n];
      } else {
        var rest := Rendered(world, output, tail).value;
        assert Rendered(world, output, names).value == [OutputPath(output, names[0])] + rest;
        forall i | 1 <= i < |names| ensures Rendered(world, output, names).value[i] == OutputPath(output, names[i]) {
          assert names[i] == tail[i - 1];
        }
      }
    }
  }

  /** The loop of `Pig::render`. */
  method Render(world: World, output: Path, names: seq<string>) returns (r: Result<seq<Path>, Error>)
    requires Sliceable(names)
    ensures r == Rendered(world, output, names)
  {
    var written: seq<Path> := [];
    var i := 0;
    assert names[i..] == names;
    PrependNothing(Rendered(world, output, names));
    while i < |names|
      invariant 0 <= i <= |names|
      invariant Rendered(world, output, names) == Prepend(written, Rendered(world, output, names[i..]))
    {
      var path := OutputPath(output, names[i]);
      assert names[i..][1..] == names[i + 1..];
      if !world.writable(path) {
        return Err(Io(path));
      }
      PrependPrepend(written, [path], Rendered(world, output, names[i + 1..]));
      written := written + [path];
      i := i + 1;
    }
    assert names[i..] == [];
    assert written + [] == written;
    return Ok(written);
  }

  // ---------------------------------------------------------------------------
  // The context of one entry.

  /** The two files `Pig::context` writes the resolved document to. */
  const ContextJson: Path := ".pig.context.json"
  const ContextYaml: Path := ".pig.context.yaml"

  /**
   * `Pig::context`: open and resolve the entry's root, write the two context
   * files, and turn the document into a Tera context, which must be an
   * object. The dependencies are the files the resolver cached.
   */
  function ContextOf(world: World, entry: ConfigEntry): Result<(set<Path>, Json), Error>
    requires world.fs.Valid()
  {
    var s :- Loading.Open(world.fs, entry.openapi);
    var o := Resolution.ResolveValue(s, map[s.root := s.rootValue], [], s.rootValue);
    var json :- o.value;
    var jsonPath := JoinPath(entry.output, ContextJson);
    var yamlPath := JoinPath(entry.output, ContextYaml);
    if !world.writable(jsonPath) then Err(Io(jsonPath))
    else if !world.writable(yamlPath) then Err(Io(yamlPath))
    else if !json.Obj? then Err(NotAContext)
    else Ok((o.cache.Keys, json))
  }

  /**
   * The dependencies hold the canonical root and only canonical paths, and
   * every expanded object in the context names one of them; a missing root
   * fails to open.
   */
  lemma ContextSound(world: World, entry: ConfigEntry)
    requires world.fs.Valid()
    ensures !world.fs.Exists(entry.openapi) ==> ContextOf(world, entry) == Err(Io(entry.openapi))
    ensures ContextOf(world, entry).Ok? ==> var (deps, context) := ContextOf(world, entry).value;
              && Canonical(world.fs, entry.openapi).Ok? && Canonical(world.fs, entry.openapi).value in deps
              && (forall p | p in deps :: world.fs.IsCanonical(p))
              && context.Obj? && Resolution.Annotated(context, deps)
  {
    var session := Loading.Open(world.fs, entry.openapi);
    if session.Ok? {
      var s := session.value;
      Resolution.ValueSound(s, map[s.root := s.rootValue], [], s.rootValue);
    }
  }

  /** Every dependency of a context exists, so it can be watched. */
  lemma ContextWatchable(world: World, entry: ConfigEntry)
    requires world.fs.Valid()
    ensures ContextOf(world, entry).Ok? ==> forall p | p in ContextOf(world, entry).value.0 :: world.fs.Exists(p)
  {
    ContextSound(world, entry);
  }

  /** `Pig::context` with the resolver object. */
  method Context(world: World, entry: ConfigEntry) returns (r: Result<(set<Path>, Json), Error>)
    requires world.fs.Valid()
    ensures r == ContextOf(world, entry)
  {
    var resolver :- Resolvers.Resolver.New(world.fs, entry.openapi);
    var json :- resolver.Resolve();
    var jsonPath := JoinPath(entry.output, ContextJson);
    if !world.writable(jsonPath) {
      return Err(Io(jsonPath));
    }
    var yamlPath := JoinPath(entry.output, ContextYaml);
    if !world.writable(yamlPath) {
      return Err(Io(yamlPath));
    }
    if !json.Obj? {
      return Err(NotAContext);
    }
    return Ok((resolver.files.Keys, json));
  }

  // ---------------------------------------------------------------------------
  // One-shot mode.

  /** One entry of `Pig::run`: context, templates, render; the paths written. */
  function EntryRun(world: World, entry: ConfigEntry): Result<seq<Path>, Error>
    requires world.fs.Valid()
  {
    var _ :- ContextOf(world, entry);
    var names :- Tera(world, entry.input);
    Rendered(world, entry.output, names)
  }

  /** Steps taken in order, each giving what it wrote or its failure; the first failure stops the rest. */
  function Sequence(steps: seq<Result<seq<Path>, Error>>): Result<seq<Path>, Error> {
    if steps == [] then Ok([])
    else
      match steps[0]
      case Err(e) => Err(e)
      case Ok(written) => Prepend(written, Sequence(steps[1..]))
  }

  /** The position of the first failed step, or the count when there is none. */
  function FirstFailure(steps: seq<Result<seq<Path>, Error>>): (n: nat)
    ensures n <= |steps|
    ensures forall j | 0 <= j < n :: steps[j].Ok?
    ensures n < |steps| ==> steps[n].Err?
  {
    if steps == [] || steps[0].Err? then 0 else 1 + FirstFailure(steps[1..])
  }

  /** A sequence of steps succeeds exactly when no step fails, and otherwise fails as the first failed step did. */
  lemma {:induction false} SequenceCases(steps: seq<Result<seq<Path>, Error>>)
    ensures var n, r := FirstFailure(steps), Sequence(steps);
            && (r.Ok? <==> n == |steps|)
            && (r.Err? ==> r.error == steps[n].error)
  {
    if steps != [] && steps[0].Ok? {
      var tail := steps[1..];
      SequenceCases(tail);
      assert FirstFailure(steps) == 1 + FirstFailure(tail);
      var n := FirstFailure(tail);
      if n < |tail| {
        assert steps[n + 1] == tail[n];
      }
    }
  }

  /** What each entry's run gives, in order. */
  function EntryRuns(world: World, entries: seq<ConfigEntry>): seq<Result<seq<Path>, Error>>
    requires world.fs.Valid()
  {
    seq(|entries|, i requires 0 <= i < |entries| => EntryRun(world, entries[i]))
  }

  /** `Pig::run`: the entries in order, stopping at the first failure; everything written. */
  function RunOf(world: World, entries: seq<ConfigEntry>): Result<seq<Path>, Error>
    requires world.fs.Valid()
  {
    Sequence(EntryRuns(world, entries))
  }

  /**
   * A run succeeds exactly when every entry does, and otherwise fails with
   * the failure of the first entry that fails, all entries before it having
   * succeeded.
   */
  lemma RunCases(world: World, entries: seq<ConfigEntry>)
    requires world.fs.Valid()
    ensures RunOf(world, entries).Ok? <==> forall i | 0 <= i < |entries| :: EntryRun(world, entries[i]).Ok?
    ensures RunOf(world, entries).Err? ==> var n := FirstFailure(EntryRuns(world, entries));
              && n < |entries| && RunOf(world, entries).error == EntryRun(world, entries[n]).error
              && forall j | 0 <= j < n :: EntryRun(world, entries[j]).Ok?
  {
    var steps := EntryRuns(world, entries);
    assert |steps| == |entries| && forall i | 0 <= i < |entries| :: steps[i] == EntryRun(world, entries[i]);
    SequenceCases(steps);
    var n := FirstFailure(steps);
    if n < |entries| {
      assert !EntryRun(world, entries[n]).Ok?;
    }
  }

  /** One pass of the loop of `Pig::run`. */
  method RunEntry(world: World, entry: ConfigEntry) returns (r: Result<seq<Path>, Error>)
    requires world.fs.Valid()
    ensures r == EntryRun(world, entry)
  {
    var _ :- Context(world, entry);
    var names :- Tera(world, entry.input);
    r := Render(world, entry.output, names);
  }

  /** The loop of `Pig::run`. */
  method Run(world: World, entries: seq<ConfigEntry>) returns (r: Result<seq<Path>, Error>)
    requires world.fs.Valid()
    ensures r == RunOf(world, entries)
  {
    ghost var steps := EntryRuns(world, entries);
    var written: seq<Path> := [];
    var i := 0;
    assert steps[i..] == steps;
    PrependNothing(Sequence(steps));
    while i < |entries|
      invariant 0 <= i <= |entries|
      invariant RunOf(world, entries) == Prepend(written, Sequence(steps[i..]))
    {
      assert steps[i..][1..] == steps[i + 1..];
      var rendered :- RunEntry(world, entries[i]);
      PrependPrepend(written, rendered, Sequence(steps[i + 1..]));
      written := written + rendered;
      i := i + 1;
    }
    assert steps[i..] == [];
    assert written + [] == written;
    return Ok(written);
  }

  // ---------------------------------------------------------------------------
  // Watch mode.

  /** A `RecommendedWatcher`, as the set of paths it watches. */
  class NotifyWatcher {
    var watched: set<Path>

    constructor ()
      ensures watched == {}
    {
      watched := {};
    }

    /** `watch(path, Recursive)`: fails for a path that does not exist. */
    method Watch(fs: FileSystem, path: Path) returns (r: Result<(), Error>)
      modifies this
      ensures fs.Exists(path) ==> r == Ok(()) && watched == old(watched) + {path}
      ensures !fs.Exists(path) ==> r == Err(Io(path)) && watched == old(watched)
    {
      if !fs.Exists(path) {
        return Err(Io(path));
      }
      watched := watched + {path};
      return Ok(());
    }

    /** `unwatch(path)`: fails for a path that is not watched. */
    method Unwatch(path: Path) returns (r: Result<(), Error>)
      modifies this
      ensures path in old(watched) ==> r == Ok(()) && watched == old(watched) - {path}
      ensures path !in old(watched) ==> r == Err(WatchNotFound(path)) && watched == old(watched)
    {
      if path !in watched {
        return Err(WatchNotFound(path));
      }
      watched := watched - {path};
      return Ok(());
    }
  }

  /** `WatcherEntry`: one entry's configuration, its two watchers and what it last computed. */
  class WatcherEntry {
    const config: ConfigEntry
    const index: nat
    /** `openapi_watcher`: watches the dependencies, sending `OpenapiChanged(index, _)`. */
    const schema: NotifyWatcher
    /** `input_watcher`: watches the input directory, sending `InputChanged(index, _)`. */
    const templates: NotifyWatcher
    var dependencies: set<Path>
    var context: Json
    var tera: seq<string>

    /** The two watchers are distinct and every template name ends in `.jinja`. */
    ghost predicate Valid()
      reads this
    {
      && schema != templates
      && forall i | 0 <= i < |tera| :: EndsWith(tera[i], Jinja)
    }

    /** The schema watcher watches exactly the dependencies. */
    ghost predicate InSync()
      reads this, schema
    {
      schema.watched == dependencies
    }

    /** `WatcherEntry::new`: two idle watchers, no dependencies, an empty context, no templates. */
    constructor (config: ConfigEntry, index: nat)
      ensures this.config == config && this.index == index
      ensures fresh(schema) && fresh(templates) && Valid()
      ensures schema.watched == {} && templates.watched == {}
      ensures dependencies == {} && context == Obj(map[]) && tera == []
    {
      this.config := config;
      this.index := index;
      schema := new NotifyWatcher();
      templates := new NotifyWatcher();
      dependencies := {};
      context := Obj(map[]);
      tera := [];
    }

    /** Watching every path of `paths` with the schema watcher. */
    method WatchAll(fs: FileSystem, paths: set<Path>) returns (r: Result<(), Error>)
      modifies schema
      ensures (forall p | p in paths :: fs.Exists(p)) ==> r.Ok?
      ensures r.Ok? ==> schema.watched == old(schema.watched) + paths
    {
      var todo := paths;
      while todo != {}
        invariant todo <= paths
        invariant schema.watched == old(schema.watched) + (paths - todo)
        decreases |todo|
      {
        var p :| p in todo;
        var u :- schema.Watch(fs, p);
        todo := todo - {p};
      }
      return Ok(());
    }

    /**
     * `init`: compute the context, load the templates, render, then watch
     * every dependency and the input directory. Gives the paths rendered.
     */
    method Init(world: World) returns (r: Result<seq<Path>, Error>)
      requires Valid() && world.fs.Valid()
      modifies this, schema, templates
      ensures Valid()
      ensures ContextOf(world, config).Err? ==> r == Err(ContextOf(world, config).error) && unchanged(this, schema, templates)
      ensures r.Ok? ==> ContextOf(world, config) == Ok((dependencies, context)) && Tera(world, config.input) == Ok(tera)
      ensures r.Ok? ==> Rendered(world, config.output, tera) == Ok(r.value)
      ensures r.Ok? ==> EntryRun(world, config) == Ok(r.value)
      ensures r.Ok? ==> schema.watched == old(schema.watched) + dependencies
      ensures r.Ok? ==> templates.watched == old(templates.watched) + {config.input}
    {
      var computed :- Context(world, config);
      dependencies, context := computed.0, computed.1;
      var names :- Tera(world, config.input);
      tera := names;
      var written :- Render(world, config.output, tera);
      var u :- WatchAll(world.fs, dependencies);
      var v :- templates.Watch(world.fs, config.input);
      return Ok(written);
    }

    /** Unwatching every path of `paths` with the schema watcher. */
    method UnwatchAll(paths: set<Path>) returns (r: Result<(), Error>)
      modifies schema
      ensures r.Ok? <==> paths <= old(schema.watched)
      ensures r.Err? ==> r.error.WatchNotFound? && r.error.path in paths - old(schema.watched)
      ensures r.Ok? ==> schema.watched == old(schema.watched) - paths
    {
      var todo := paths;
      while todo != {}
        invariant todo <= paths
        invariant paths - todo <= old(schema.watched)
        invariant schema.watched == old(schema.watched) - (paths - todo)
        decreases |todo|
      {
        var p :| p in todo;
        var _ :- schema.Unwatch(p);
        todo := todo - {p};
      }
      return Ok(());
    }

    /**
     * `on_openapi`: unwatch every old dependency, compute the context again,
     * watch every new dependency, and render with the templates as they are.
     */
    method OnOpenapi(world: World) returns (r: Result<seq<Path>, Error>)
      requires Valid() && world.fs.Valid()
      modifies this`dependencies, this`context, schema
      ensures Valid() && tera == old(tera)
      ensures !(old(dependencies) <= old(schema.watched)) ==>
                r.Err? && r.error.WatchNotFound? && r.error.path in old(dependencies) - old(schema.watched)
      ensures r.Ok? ==> ContextOf(world, config) == Ok((dependencies, context))
      ensures r.Ok? ==> schema.watched == (old(schema.watched) - old(dependencies)) + dependencies
      ensures r.Ok? ==> Rendered(world, config.output, tera) == Ok(r.value)
      ensures (old(dependencies) <= old(schema.watched) && ContextOf(world, config).Ok?
                && Rendered(world, config.output, tera).Ok?) ==> r.Ok?
      ensures old(InSync()) && r.Ok? ==> InSync()
    {
      var _ :- UnwatchAll(dependencies);
      var computed :- Context(world, config);
      dependencies, context := computed.0, computed.1;
      ContextWatchable(world, config);
      var watched := WatchAll(world.fs, dependencies);
      match watched
      case Err(e) => r := Err(e);
      case Ok(_) => r := Render(world, config.output, tera);
    }

    /** `on_input`: load the templates again and render with the context as it is. */
    method OnInput(world: World) returns (r: Result<seq<Path>, Error>)
      requires Valid()
      modifies this`tera
      ensures Valid() && dependencies == old(dependencies) && context == old(context)
      ensures Tera(world, config.input).Err? ==> r == Err(Tera(world, config.input).error) && tera == old(tera)
      ensures r.Ok? ==> Tera(world, config.input) == Ok(tera) && Rendered(world, config.output, tera) == Ok(r.value)
    {
      var names :- Tera(world, config.input);
      tera := names;
      r := Render(world, config.output, tera);
    }
  }

  /** An event together with the world as it is when the event is handled. */
  datatype Step = Step(event: Event, world: World)

  /** The position of the first configuration change, or the length when there is none. */
  function FirstConfig(steps: seq<Step>): (n: nat)
    ensures n <= |steps|
    ensures forall m | 0 <= m < n :: !steps[m].event.ConfigChanged?
    ensures n < |steps| ==> steps[n].event.ConfigChanged?
  {
    if steps == [] || steps[0].event.ConfigChanged? then 0 else 1 + FirstConfig(steps[1..])
  }

  /** `Watcher`: the configuration, its watcher, and one entry per configured entry. */
  class Watcher {
    const config: Config
    const configWatcher: NotifyWatcher
    const entries: seq<WatcherEntry>
    ghost const Repr: set<object>

    /** The objects of entry `i`. */
    ghost function Parts(i: nat): set<object>
      requires i < |entries|
    {
      {entries[i], entries[i].schema, entries[i].templates}
    }

    /**
     * Entry `i` is built from configured entry `i`, and no two entries, nor
     * the configuration watcher, share an object.
     */
    ghost predicate Disjoint() {
      && |entries| == |config.entries|
      && configWatcher in Repr
      && (forall i | 0 <= i < |entries| ::
            && entries[i].config == config.entries[i] && entries[i].index == i
            && Parts(i) <= Repr && configWatcher !in Parts(i))
      && (forall i, j | 0 <= i < |entries| && 0 <= j < |entries| && i != j :: Parts(i) !! Parts(j))
    }

    /** `Watcher::new`: one fresh entry per configured entry. */
    constructor (config: Config)
      ensures this.config == config && Disjoint() && fresh(Repr)
      ensures configWatcher.watched == {}
      ensures forall i | 0 <= i < |entries| :: entries[i].Valid() && entries[i].schema.watched == {}
    {
      var watcher := new NotifyWatcher();
      var built: seq<WatcherEntry> := [];
      ghost var repr: set<object> := {watcher};
      var i := 0;
      while i < |config.entries|
        invariant 0 <= i <= |config.entries| && |built| == i
        invariant watcher in repr && fresh(repr) && watcher.watched == {}
        invariant forall j | 0 <= j < i ::
                    && built[j].config == config.entries[j] && built[j].index == j
                    && {built[j], built[j].schema, built[j].templates} <= repr
                    && watcher !in {built[j], built[j].schema, built[j].templates}
                    && built[j].Valid() && built[j].schema.watched == {}
        invariant forall j, k | 0 <= j < i && 0 <= k < i && j != k ::
                    {built[j], built[j].schema, built[j].templates} !! {built[k], built[k].schema, built[k].templates}
      {
        var entry := new WatcherEntry(config.entries[i], i);
        built := built + [entry];
        repr := repr + {entry, entry.schema, entry.templates};
        i := i + 1;
      }
      this.config := config;
      configWatcher := watcher;
      entries := built;
      Repr := repr;
    }

    /**
     * One event of the loop of `Watcher::watch`, other than a configuration
     * change: only the entry it names changes, and an index out of range fails.
     */
    method Dispatch(world: World, event: Event) returns (r: Result<seq<Path>, Error>)
      requires Disjoint() && world.fs.Valid() && !event.ConfigChanged?
      requires event.index < |entries| ==> entries[event.index].Valid()
      modifies if event.index < |entries| then Parts(event.index) else {}
      ensures event.index >= |entries| ==> r == Err(NoSuchEntry(event.index))
      ensures event.index < |entries| ==> entries[event.index].Valid()
      ensures event.index < |entries| && old(entries[event.index].InSync()) && r.Ok? ==> entries[event.index].InSync()
      ensures event.index < |entries| && event.OpenapiChanged? ==> entries[event.index].tera == old(entries[event.index].tera)
      ensures event.index < |entries| && event.InputChanged? ==>
                && entries[event.index].dependencies == old(entries[event.index].dependencies)
                && entries[event.index].context == old(entries[event.index].context)
                && unchanged(entries[event.index].schema, entries[event.index].templates)
    {
      if event.index >= |entries| {
        return Err(NoSuchEntry(event.index));
      }
      var entry := entries[event.index];
      if event.OpenapiChanged? {
        r := entry.OnOpenapi(world);
      } else {
        r := entry.OnInput(world);
      }
    }

    /**
     * `Watcher::watch`: initialize every entry, watch the configuration file,
     * then handle the events in order. A configuration change builds a new
     * watcher from the configuration read again and hands it the remaining
     * events; any failure ends the loop.
     */
    method Watch(world: World, steps: seq<Step>) returns (r: Result<(), Error>)
      requires Disjoint() && world.fs.Valid() && forall k | 0 <= k < |steps| :: steps[k].world.fs.Valid()
      requires forall i | 0 <= i < |entries| :: entries[i].Valid() && entries[i].schema.watched == {}
      modifies Repr
      ensures r.Ok? ==> world.fs.Exists(config.file) && configWatcher.watched == old(configWatcher.watched) + {config.file}
      ensures r.Ok? ==> forall i | 0 <= i < |entries| :: entries[i].InSync()
      ensures r.Ok? ==> forall m | 0 <= m < FirstConfig(steps) :: steps[m].event.index < |config.entries|
      ensures r.Ok? ==> forall i | 0 <= i < |config.entries| :: EntryRun(world, config.entries[i]).Ok?
      decreases |steps|, 1
    {
      var _ :- InitAll(world);
      var u :- configWatcher.Watch(world.fs, config.file);
      r := Listen(steps);
    }

    /** `init` on entry `i`, which then watches exactly its dependencies. */
    method InitEntry(world: World, i: nat) returns (r: Result<seq<Path>, Error>)
      requires Disjoint() && world.fs.Valid() && i < |entries|
      requires entries[i].Valid() && entries[i].schema.watched == {}
      modifies Parts(i)
      ensures entries[i].Valid()
      ensures r.Ok? ==> entries[i].InSync() && EntryRun(world, config.entries[i]).Ok?
    {
      r := entries[i].Init(world);
    }

    /** The loop of `Watcher::watch` over the entries: `init` each in turn. */
    method InitAll(world: World) returns (r: Result<(), Error>)
      requires Disjoint() && world.fs.Valid()
      requires forall i | 0 <= i < |entries| :: entries[i].Valid() && entries[i].schema.watched == {}
      modifies Repr
      ensures unchanged(configWatcher) && forall i | 0 <= i < |entries| :: entries[i].Valid()
      ensures r.Ok? ==> forall i | 0 <= i < |entries| :: entries[i].InSync()
      ensures r.Ok? ==> forall i | 0 <= i < |config.entries| :: EntryRun(world, config.entries[i]).Ok?
    {
      var i := 0;
      while i < |entries|
        invariant 0 <= i <= |entries|
        invariant forall j | 0 <= j < i :: entries[j].Valid() && entries[j].InSync() && EntryRun(world, config.entries[j]).Ok?
        invariant forall j | i <= j < |entries| :: entries[j].Valid() && entries[j].schema.watched == {}
        invariant unchanged(configWatcher)
      {
        var _ :- InitEntry(world, i);
        i := i + 1;
      }
      return Ok(());
    }

    /**
     * The loop of `Watcher::watch` over the events. A configuration change
     * builds a new watcher from the configuration read again and hands it
     * the remaining events; any failure ends the loop.
     */
    method Listen(steps: seq<Step>) returns (r: Result<(), Error>)
      requires Disjoint() && forall k | 0 <= k < |steps| :: steps[k].world.fs.Valid()
      requires forall i | 0 <= i < |entries| :: entries[i].Valid() && entries[i].InSync()
      modifies Repr
      ensures unchanged(configWatcher)
      ensures r.Ok? ==> forall i | 0 <= i < |entries| :: entries[i].InSync()
      ensures r.Ok? ==> forall m | 0 <= m < FirstConfig(steps) :: steps[m].event.index < |entries|
      decreases |steps|, 0
    {
      var k := 0;
      while k < |steps|
        invariant 0 <= k <= |steps|
        invariant forall m | 0 <= m < k :: !steps[m].event.ConfigChanged? && steps[m].event.index < |entries|
        invariant forall j | 0 <= j < |entries| :: entries[j].Valid() && entries[j].InSync()
        invariant unchanged(configWatcher)
      {
        var step := steps[k];
        if step.event.ConfigChanged? {
          var next :- step.world.config;
          var watcher := new Watcher(next);
          r := watcher.Watch(step.world, steps[k + 1..]);
          return;
        }
        var written :- Dispatch(step.world, step.event);
        k := k + 1;
      }
      return Ok(());
    }
  }

  /**
   * `Pig::oink`: watch mode when the configuration asks for it, else one
   * run over the entries.
   */
  method Oink(config: Config, world: World, steps: seq<Step>) returns (r: Result<(), Error>)
    requires world.fs.Valid() && forall k | 0 <= k < |steps| :: steps[k].world.fs.Valid()
    ensures !config.watch ==> (r.Ok? <==> RunOf(world, config.entries).Ok?)
    ensures !config.watch && r.Err? ==> r.error == RunOf(world, config.entries).error
    ensures config.watch && r.Ok? ==> world.fs.Exists(config.file)
    ensures config.watch && r.Ok? ==>
              && RunOf(world, config.entries).Ok?
              && forall m | 0 <= m < FirstConfig(steps) :: steps[m].event.index < |config.entries|
  {
    if config.watch {
      var watcher := new Watcher(config);
      r := watcher.Watch(world, steps);
      RunCases(world, config.entries);
    } else {
      var written :- Run(world, config.entries);
      r := Ok(());
    }
  }
}
