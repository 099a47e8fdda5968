/**
 * `Resolver::load` (src/resolver.rs): the per-session cache of parsed
 * files, keyed by canonical path, and the two ways a file is checked against
 * the OpenAPI model before it is cached. A session is fixed by the file
 * system, the canonical root and the value the root was cached as.
 */
module Loading {
  import opened Results
  import opened JsonTree
  import opened Paths
  import opened References

  /** `.get("openapi").and_then(|version| version.as_str())` on a cached root. */
  function VersionOf(root: Json): (v: Option<string>)
    ensures v.Some? <==> root.Obj? && "openapi" in root.fields && root.fields["openapi"].Str?
    ensures v.Some? ==> root.fields["openapi"] == Str(v.value)
  {
    match Get(root, "openapi")
    case Some(Str(version)) => Some(version)
    case _ => None
  }

  /** The version that decides how a file is checked: none until the root is cached. */
  function Version(cache: map<Path, Json>, root: Path): Option<string> {
    if root in cache then VersionOf(cache[root]) else None
  }

  /** The placeholder `info` object: an empty title and an empty version. */
  const PlaceholderInfo: Json := Obj(map["title" := Str(""), "version" := Str("")])

  /**
   * The throwaway copy a non-root file is checked as: an object gets the
   * root's version, the placeholder `info` and an empty `paths`; anything
   * else is checked as it is.
   */
  function Patch(raw: Json, version: string): Json {
    match raw
    case Obj(fields) =>
      Obj(fields["openapi" := Str(version)]["info" := PlaceholderInfo]["paths" := Obj(map[])])
    case _ => raw
  }

  /** The patched copy has the three keys set and every other key of the file unchanged. */
  lemma PatchShape(raw: Json, version: string)
    ensures !raw.Obj? ==> Patch(raw, version) == raw
    ensures raw.Obj? ==> var p := Patch(raw, version);
              && p.Obj? && p.fields.Keys == raw.fields.Keys + {"openapi", "info", "paths"}
              && p.fields["openapi"] == Str(version) && p.fields["info"] == PlaceholderInfo
              && p.fields["paths"] == Obj(map[])
              && forall k | k in raw.fields && k !in {"openapi", "info", "paths"} :: p.fields[k] == raw.fields[k]
  {
  }

  /**
   * Reading a canonical file that is not cached yet. With a version (a root
   * is cached) the raw parse is kept, once its patched copy passes the
   * OpenAPI model; without one (the root itself) the file must pass the
   * model as it is, and what is kept is the model serialized back.
   */
  function Read(fs: FileSystem, version: Option<string>, p: Path): Result<Json, Error> {
    if p !in fs.files then Err(Io(p))
    else
      match fs.files[p]
      case None => Err(Unparsable(p))
      case Some(raw) =>
        match version
        case Some(v) =>
          if fs.openapi(Patch(raw, v)).None? then Err(NotOpenApi(p)) else Ok(raw)
        case None =>
          match fs.openapi(raw)
          case None => Err(NotOpenApi(p))
          case Some(document) => Ok(document)
  }

  /**
   * A missing file fails to open, text that is not YAML fails to parse, and
   * a file that does not pass the OpenAPI model is refused; what is read is
   * the raw parse (checked patched) with a version and the model's document
   * without one.
   */
  lemma ReadCases(fs: FileSystem, version: Option<string>, p: Path)
    ensures p !in fs.files ==> Read(fs, version, p) == Err(Io(p))
    ensures p in fs.files && fs.files[p].None? ==> Read(fs, version, p) == Err(Unparsable(p))
    ensures Read(fs, version, p).Ok? ==> p in fs.files && fs.files[p].Some?
    ensures Read(fs, version, p).Ok? && version.Some? ==>
              && Read(fs, version, p).value == fs.files[p].value
              && fs.openapi(Patch(fs.files[p].value, version.value)).Some?
    ensures Read(fs, version, p).Ok? && version.None? ==> fs.openapi(fs.files[p].value) == Some(Read(fs, version, p).value)
    ensures Read(fs, version, p).Err? ==> Read(fs, version, p).error in {Io(p), Unparsable(p), NotOpenApi(p)}
  {
  }

  /**
   * The canonical path `load` looks up: a relative path is taken below the
   * root's parent directory, then the path is canonicalized.
   */
  function Target(fs: FileSystem, root: Path, file: Path): (r: Result<Path, Error>)
    ensures fs.Valid() && r.Ok? ==> fs.IsCanonical(r.value)
  {
    var path :-
      if !IsAbsolute(file) then
        match Parent(root)
        case None => Err(NoParent(root))
        case Some(base) => Ok(JoinPath(base, file))
      else Ok(file);
    Canonical(fs, path)
  }

  /** An absolute path is canonicalized as it is; a relative one below the root's parent, if it has one. */
  lemma TargetCases(fs: FileSystem, root: Path, file: Path)
    ensures IsAbsolute(file) ==> Target(fs, root, file) == Canonical(fs, file)
    ensures !IsAbsolute(file) && Parent(root).None? ==> Target(fs, root, file) == Err(NoParent(root))
    ensures !IsAbsolute(file) && Parent(root).Some? ==>
              Target(fs, root, file) == Canonical(fs, JoinPath(Parent(root).value, file))
  {
  }

  /** `cache'` keeps every entry of `cache`, unchanged. */
  predicate Extends(cache: map<Path, Json>, cache': map<Path, Json>) {
    forall p | p in cache :: p in cache' && cache'[p] == cache[p]
  }

  lemma ExtendsTransitive(a: map<Path, Json>, b: map<Path, Json>, c: map<Path, Json>)
    requires Extends(a, b) && Extends(b, c)
    ensures Extends(a, c)
  {
  }

  /**
   * `load(file)`: the value cached for the file's canonical path, reading
   * and inserting it first when it is absent. Gives the value and the new
   * cache.
   */
  function Load(fs: FileSystem, root: Path, cache: map<Path, Json>, file: Path): (r: Result<(Json, map<Path, Json>), Error>)
    ensures r.Ok? ==> Target(fs, root, file).Ok?
    ensures r.Ok? ==> var c := Target(fs, root, file).value;
                      c in r.value.1 && r.value.1[c] == r.value.0 && r.value.1.Keys == cache.Keys + {c}
    ensures r.Ok? ==> Extends(cache, r.value.1)
  {
    var c :- Target(fs, root, file);
    if c in cache then Ok((cache[c], cache))
    else
      var value :- Read(fs, Version(cache, root), c);
      Ok((value, cache[c := value]))
  }

  /** A file whose canonical path is cached already is not read again. */
  lemma LoadCached(fs: FileSystem, root: Path, cache: map<Path, Json>, file: Path)
    requires Target(fs, root, file).Ok? && Target(fs, root, file).value in cache
    ensures Load(fs, root, cache, file) == Ok((cache[Target(fs, root, file).value], cache))
  {
  }

  /** Loading the same file again gives the same value and leaves the cache as it is. */
  lemma LoadTwice(fs: FileSystem, root: Path, cache: map<Path, Json>, file: Path)
    requires Load(fs, root, cache, file).Ok?
    ensures var (v, cache') := Load(fs, root, cache, file).value;
            Load(fs, root, cache', file) == Ok((v, cache'))
  {
  }

  /** One resolution: the file system, the canonical root and the value the root was cached as. */
  datatype Session = Session(fs: FileSystem, root: Path, rootValue: Json)

  /** What `Resolver::new` establishes: the root is canonical and read strictly. */
  ghost predicate Opened(s: Session) {
    s.fs.Valid() && s.fs.IsCanonical(s.root) && Read(s.fs, None, s.root) == Ok(s.rootValue)
  }

  /**
   * `Resolver::new(file)`: canonicalize the file and load it into an empty
   * cache, which, the cache having no root yet, checks it strictly.
   */
  function Open(fs: FileSystem, file: Path): (r: Result<Session, Error>)
    ensures fs.Valid() && r.Ok? ==> Opened(r.value) && Consistent(r.value, map[r.value.root := r.value.rootValue])
    ensures fs.Valid() && r.Ok? ==> Canonical(fs, file) == Ok(r.value.root)
    ensures !fs.Exists(file) ==> r == Err(Io(file))
  {
    var root :- Canonical(fs, file);
    var (value, _) :- Load(fs, root, map[], root);
    Ok(Session(fs, root, value))
  }

  /**
   * The cache agrees with the session: the root holds the root value, and
   * every other entry, under a canonical path, is what reading that path
   * with the root's version gives.
   */
  ghost predicate Consistent(s: Session, cache: map<Path, Json>) {
    && Opened(s)
    && s.root in cache && cache[s.root] == s.rootValue
    && (forall p | p in cache :: s.fs.IsCanonical(p))
    && forall p {:trigger Read(s.fs, VersionOf(s.rootValue), p)} | p in cache && p != s.root ::
         Read(s.fs, VersionOf(s.rootValue), p) == Ok(cache[p])
  }

  /** Loading into a consistent cache keeps it consistent. */
  lemma LoadConsistent(s: Session, cache: map<Path, Json>, file: Path)
    requires Consistent(s, cache)
    ensures Load(s.fs, s.root, cache, file).Ok? ==> Consistent(s, Load(s.fs, s.root, cache, file).value.1)
  {
    var r := Load(s.fs, s.root, cache, file);
    if r.Ok? {
      assert Version(cache, s.root) == VersionOf(s.rootValue);
    }
  }
}
