/**
 * What the inner `resolve` of `Resolver::resolve` (src/resolver.rs)
 * computes, as functions of the session, the cache, the stack of references
 * being expanded and the value: the new value (or the failure) and the new
 * cache. The arrays and objects are walked the way the source walks them,
 * one element at a time with the already resolved ones in place, so that
 * the loops of the imperative resolver can be checked against these
 * functions step by step.
 */
module Resolution {
  import opened Results
  import opened Text
  import opened JsonTree
  import opened Paths
  import opened References
  import opened Loading

  /** The new value, or the failure, together with the cache as the call leaves it. */
  datatype Outcome = Outcome(value: Result<Json, Error>, cache: map<Path, Json>)

  // ---------------------------------------------------------------------------
  // Termination: every expansion pushes a reference that is in the finite
  // universe of navigable (file, keys) pairs and not on the stack yet.

  /**
   * The key paths a file could be cached with: the root's value for the
   * root; for another file, those of its raw parse and of that parse passed
   * through the OpenAPI model.
   */
  ghost function Candidates(s: Session, p: Path): set<seq<string>>
    requires p in s.fs.files
  {
    if p == s.root then KeyPaths(s.rootValue)
    else
      match s.fs.files[p]
      case None => {}
      case Some(raw) =>
        KeyPaths(raw) + match s.fs.openapi(raw) case None => {} case Some(document) => KeyPaths(document)
  }

  /**
   * Every reference into one of the files in `paths` along one of its
   * candidate key paths: a finite set, built one file at a time.
   */
  ghost function Universe(s: Session, paths: set<Path>): set<Reference>
    requires paths <= s.fs.files.Keys
  {
    if paths == {} then {}
    else
      var p :| p in paths;
      RefsInto(p, Candidates(s, p)) + Universe(s, paths - {p})
  }

  /** The references into `p` along each of the key paths in `candidates`. */
  ghost function RefsInto(p: Path, candidates: set<seq<string>>): set<Reference> {
    if candidates == {} then {}
    else
      var keys :| keys in candidates;
      {Reference(p, keys)} + RefsInto(p, candidates - {keys})
  }

  lemma {:induction false} InRefsInto(p: Path, candidates: set<seq<string>>, keys: seq<string>)
    requires keys in candidates
    ensures Reference(p, keys) in RefsInto(p, candidates)
    decreases candidates
  {
    var k :| k in candidates && RefsInto(p, candidates) == {Reference(p, k)} + RefsInto(p, candidates - {k});
    if k != keys {
      InRefsInto(p, candidates - {k}, keys);
    }
  }

  lemma {:induction false} InUniverse(s: Session, paths: set<Path>, r: Reference)
    requires paths <= s.fs.files.Keys && r.file in paths && r.keys in Candidates(s, r.file)
    ensures r in Universe(s, paths)
    decreases paths
  {
    var p :| p in paths && Universe(s, paths) == RefsInto(p, Candidates(s, p)) + Universe(s, paths - {p});
    if p == r.file {
      InRefsInto(p, Candidates(s, p), r.keys);
    } else {
      InUniverse(s, paths - {p}, r);
    }
  }

  /** The references on the stack, as a set. */
  ghost function Elements(stack: seq<Reference>): set<Reference> {
    if stack == [] then {} else Elements(stack[..|stack| - 1]) + {stack[|stack| - 1]}
  }

  lemma {:induction false} ElementsOf(stack: seq<Reference>, r: Reference)
    ensures r in Elements(stack) <==> r in stack
  {
    if stack != [] {
      var init := stack[..|stack| - 1];
      ElementsOf(init, r);
      assert stack == init + [stack[|stack| - 1]];
    }
  }

  /** The references that could still be pushed. */
  ghost function Measure(s: Session, stack: seq<Reference>): nat {
    |Universe(s, s.fs.files.Keys) - Elements(stack)|
  }

  /** Pushing a navigable reference into a cached file that is not on the stack lowers the measure. */
  lemma MeasureDecreases(s: Session, cache: map<Path, Json>, stack: seq<Reference>, r: Reference)
    requires Consistent(s, cache) && r.file in cache && Navigate(cache[r.file], r.keys).Some?
    requires r !in stack
    ensures Measure(s, stack + [r]) < Measure(s, stack)
  {
    CachedIsCandidate(s, cache, r);
    InUniverse(s, s.fs.files.Keys, r);
    ElementsPush(stack, r);
    ElementsOf(stack, r);
    RemoveOne(Universe(s, s.fs.files.Keys), Elements(stack), r);
  }

  /** A navigable reference into a cached file follows one of that file's candidate key paths. */
  lemma CachedIsCandidate(s: Session, cache: map<Path, Json>, r: Reference)
    requires Consistent(s, cache) && r.file in cache && Navigate(cache[r.file], r.keys).Some?
    ensures r.file in s.fs.files && r.keys in Candidates(s, r.file)
  {
    var p := r.file;
    NavigableIsKeyPath(cache[p], r.keys);
    if p != s.root {
      assert Read(s.fs, VersionOf(s.rootValue), p) == Ok(cache[p]);
    }
  }

  lemma ElementsPush(stack: seq<Reference>, r: Reference)
    ensures Elements(stack + [r]) == Elements(stack) + {r}
  {
    assert (stack + [r])[..|stack|] == stack;
  }

  lemma RemoveOne(all: set<Reference>, gone: set<Reference>, r: Reference)
    requires r in all && r !in gone
    ensures |all - (gone + {r})| < |all - gone|
  {
    assert all - (gone + {r}) == (all - gone) - {r};
  }

  /** No reference occurs twice. */
  predicate Distinct(stack: seq<Reference>) {
    forall i, j | 0 <= i < j < |stack| :: stack[i] != stack[j]
  }

  /**
   * The file a `$ref` is read against: the file of the innermost expansion,
   * else the root. It is canonical when the root and the stacked files are.
   */
  function Current(s: Session, stack: seq<Reference>): (p: Path)
    ensures Opened(s) && (forall i | 0 <= i < |stack| :: s.fs.IsCanonical(stack[i].file)) ==> s.fs.IsCanonical(p)
  {
    if stack == [] then s.root else stack[|stack| - 1].file
  }

  // ---------------------------------------------------------------------------
  // The annotation an expanded reference receives.

  /** The keys an expansion adds, which the target must not have. */
  const Reserved: set<string> := {"$ref", "$file", "$keys", "$name"}

  /** The keys as an array of strings. */
  function KeysJson(keys: seq<string>): (items: seq<Json>)
    ensures |items| == |keys|
    ensures forall i | 0 <= i < |keys| :: items[i] == Str(keys[i])
  {
    if keys == [] then [] else [Str(keys[0])] + KeysJson(keys[1..])
  }

  /**
   * The extension map: `$ref` the displayed reference, `$file` its file,
   * `$keys` its keys and `$name` its last key.
   */
  function Extension(r: Reference): (m: map<string, Json>)
    requires r.keys != []
    ensures m.Keys == Reserved
  {
    map["$ref" := Str(Display(r)),
        "$file" := Str(r.file),
        "$keys" := Arr(KeysJson(r.keys)),
        "$name" := Str(r.keys[|r.keys| - 1])]
  }

  /**
   * The key the collision check stops at: it walks the target's keys in
   * ascending order and stops at the first one the extension also has.
   */
  function Collision(fields: map<string, Json>): Option<string> {
    var hits := fields.Keys * Reserved;
    if hits == {} then None else Some(Least(hits))
  }

  /** There is a collision exactly when a reserved key is present, and it is the least such key. */
  lemma CollisionCases(fields: map<string, Json>)
    ensures Collision(fields).None? <==> fields.Keys !! Reserved
    ensures Collision(fields).Some? ==> var k := Collision(fields).value;
              && k in fields && k in Reserved
              && forall x | x in fields && x in Reserved :: LessEq(k, x)
  {
    var hits := fields.Keys * Reserved;
    if hits == {} {
      assert forall x | x in Reserved :: x !in hits;
    } else {
      assert Least(hits) in hits;
    }
  }

  /** In that order `$file` comes first, then `$keys`, `$name` and `$ref`. */
  lemma CollisionOrder(fields: map<string, Json>)
    ensures "$file" in fields ==> Collision(fields) == Some("$file")
    ensures "$file" !in fields && "$keys" in fields ==> Collision(fields) == Some("$keys")
    ensures "$file" !in fields && "$keys" !in fields && "$name" in fields ==> Collision(fields) == Some("$name")
    ensures fields.Keys * Reserved == {"$ref"} ==> Collision(fields) == Some("$ref")
  {
    CollisionCases(fields);
    assert !LessEq("keys", "file") && !LessEq("name", "file") && !LessEq("ref", "file");
    assert !LessEq("name", "keys") && !LessEq("ref", "keys") && !LessEq("ref", "name");
    assert !LessEq("$keys", "$file") && !LessEq("$name", "$file") && !LessEq("$ref", "$file");
    assert !LessEq("$name", "$keys") && !LessEq("$ref", "$keys") && !LessEq("$ref", "$name");
  }

  /**
   * Walking the keys in ascending order, past keys that are not reserved,
   * the first reserved key met is the collision.
   */
  lemma CollisionFound(fields: map<string, Json>, keys: set<string>)
    requires keys <= fields.Keys && keys != {}
    requires forall k | k in fields && k !in keys :: k !in Reserved
    requires Least(keys) in Reserved
    ensures Collision(fields) == Some(Least(keys))
  {
    var hits := fields.Keys * Reserved;
    var key := Least(keys);
    assert IsLeast(key, hits);
    LeastUnique(hits);
  }

  /** The annotation `r` put on an object: its extension entries are there, unchanged. */
  predicate IsAnnotation(r: Reference, fields: map<string, Json>) {
    && r.keys != []
    && Reserved <= fields.Keys
    && forall k | k in Reserved :: fields[k] == Extension(r)[k]
  }

  /**
   * Every object in `j` that has a `$ref` key carries the whole annotation
   * of a reference whose file is in `deps`.
   */
  ghost predicate Annotated(j: Json, deps: set<Path>) {
    match j
    case Arr(items) => forall i | 0 <= i < |items| :: Annotated(items[i], deps)
    case Obj(fields) =>
      && ("$ref" in fields ==> exists r :: IsAnnotation(r, fields) && r.file in deps)
      && forall k | k in fields :: Annotated(fields[k], deps)
    case _ => true
  }

  /** Being annotated within `deps` survives `deps` growing. */
  lemma {:induction false} AnnotatedGrows(j: Json, deps: set<Path>, deps': set<Path>)
    requires Annotated(j, deps) && deps <= deps'
    ensures Annotated(j, deps')
  {
    match j
    case Arr(items) =>
      forall i | 0 <= i < |items| ensures Annotated(items[i], deps') {
        AnnotatedGrows(items[i], deps, deps');
      }
    case Obj(fields) =>
      forall k | k in fields ensures Annotated(fields[k], deps') {
        AnnotatedGrows(fields[k], deps, deps');
      }
      if "$ref" in fields {
        var r :| IsAnnotation(r, fields) && r.file in deps;
        assert r.file in deps';
      }
    case _ =>
  }

  /** A value built of scalars and arrays only. */
  lemma {:induction false} ScalarsAnnotated(items: seq<Json>, deps: set<Path>)
    requires forall i | 0 <= i < |items| :: items[i].Str?
    ensures Annotated(Arr(items), deps)
  {
  }

  /** Extending an annotated object that has no reserved key gives an annotated object. */
  lemma Annotate(x: map<string, Json>, r: Reference, deps: set<Path>)
    requires Annotated(Obj(x), deps) && x.Keys !! Reserved
    requires r.keys != [] && r.file in deps
    ensures Annotated(Obj(x + Extension(r)), deps)
    ensures IsAnnotation(r, x + Extension(r))
  {
    var e := Extension(r);
    var m := x + e;
    ScalarsAnnotated(KeysJson(r.keys), deps);
    forall k | k in m ensures Annotated(m[k], deps) {
      if k in Reserved {
        assert m[k] == e[k];
      } else {
        assert m[k] == x[k];
      }
    }
    assert IsAnnotation(r, m);
  }

  /**
   * The shape resolution keeps: scalars are unchanged, arrays keep their
   * length, objects without `$ref` keep their keys, and each of those has
   * its elements resolved in place; an object with `$ref` becomes an object
   * with `$ref`.
   */
  predicate SameShape(v: Json, w: Json) {
    match v
    case Arr(items) =>
      w.Arr? && |w.items| == |items| && forall i | 0 <= i < |items| :: SameShape(items[i], w.items[i])
    case Obj(fields) =>
      if "$ref" in fields then w.Obj? && "$ref" in w.fields
      else w.Obj? && w.fields.Keys == fields.Keys && forall k | k in fields :: SameShape(fields[k], w.fields[k])
    case _ => w == v
  }

  /**
   * What each failure reports, as far as the failure itself can tell:
   * - a cycle: the stack as it was, more expansions, then a reference that
   *   already occurs in it, every earlier entry distinct;
   * - extra keys: at least one key besides `$ref`;
   * - an empty key list: the reference has no key;
   * - a missing key at depth `d`: the first `d - 1` keys lead to a subtree of
   *   the cached file that has no key number `d`;
   * - a collision: one of the reserved keys.
   */
  ghost predicate WellReported(e: Error, stack: seq<Reference>, cache: map<Path, Json>) {
    && (e.Cycle? ==>
          var chain := e.chain;
          && |chain| > |stack| && chain[..|stack|] == stack
          && chain[|chain| - 1] in chain[..|chain| - 1] && Distinct(chain[..|chain| - 1]))
    && (e.ExtraKeys? ==> e.keys != {} && "$ref" !in e.keys)
    && (e.EmptyKeys? ==> e.reference.keys == [])
    && (e.NotFound? ==>
          var r, d := e.reference, e.depth;
          && 1 <= d <= |r.keys| && r.file in cache
          && Navigate(cache[r.file], r.keys[..d - 1]).Some?
          && Get(Navigate(cache[r.file], r.keys[..d - 1]).value, r.keys[d - 1]).None?)
    && (e.ReservedKey? ==> e.key in Reserved)
  }

  /** A report stays true as the cache grows and as the stack it was made under is pushed onto. */
  lemma WellReportedGrows(e: Error, r: Reference, stack: seq<Reference>, cache: map<Path, Json>, cache': map<Path, Json>)
    requires WellReported(e, stack + [r], cache) && Extends(cache, cache')
    ensures WellReported(e, stack, cache')
  {
    if e.Cycle? {
      var chain := e.chain;
      assert chain[..|stack|] == chain[..|stack| + 1][..|stack|];
    }
  }

  lemma WellReportedCache(e: Error, stack: seq<Reference>, cache: map<Path, Json>, cache': map<Path, Json>)
    requires WellReported(e, stack, cache) && Extends(cache, cache')
    ensures WellReported(e, stack, cache')
  {
  }

  // ---------------------------------------------------------------------------
  // The resolution itself.

  /**
   * `resolve(resolver, value, references)`: scalars stay as they are, arrays
   * and objects without `$ref` are resolved element by element, and an
   * object with `$ref` is expanded. The cache only grows, and stays
   * consistent; what the outcome is like is stated by ValueSound below.
   */
  function ResolveValue(s: Session, cache: map<Path, Json>, stack: seq<Reference>, v: Json): (o: Outcome)
    requires Consistent(s, cache) && Distinct(stack)
    ensures Consistent(s, o.cache) && Extends(cache, o.cache)
    decreases Measure(s, stack), v, 2, 0
  {
    match v
    case Arr(items) => ResolveItems(s, cache, stack, v, 0, items)
    case Obj(fields) =>
      if "$ref" in fields then ExpandReference(s, cache, stack, v)
      else ResolveFields(s, cache, stack, v, fields.Keys, fields)
    case _ => Outcome(Ok(v), cache)
  }

  /**
   * The array loop from element `i` on: `items` holds the elements before `i`
   * resolved already and the original elements from `i` on.
   */
  function ResolveItems(s: Session, cache: map<Path, Json>, stack: seq<Reference>, v: Json, i: nat, items: seq<Json>): (o: Outcome)
    requires Consistent(s, cache) && Distinct(stack)
    requires v.Arr? && |items| == |v.items| && i <= |items|
    requires forall j | i <= j < |items| :: items[j] == v.items[j]
    ensures Consistent(s, o.cache) && Extends(cache, o.cache)
    decreases Measure(s, stack), v, 1, |items| - i
  {
    if i == |items| then Outcome(Ok(Arr(items)), cache)
    else
      var x := ResolveValue(s, cache, stack, items[i]);
      if x.value.Err? then x
      else ResolveItems(s, x.cache, stack, v, i + 1, items[i := x.value.value])
  }

  /**
   * The loop over an object's values, in ascending key order, from the keys
   * in `remaining` on: `fields` holds the values of the other keys resolved
   * already and the original values of these.
   */
  function ResolveFields(s: Session, cache: map<Path, Json>, stack: seq<Reference>, v: Json,
                         remaining: set<string>, fields: map<string, Json>): (o: Outcome)
    requires Consistent(s, cache) && Distinct(stack)
    requires v.Obj? && fields.Keys == v.fields.Keys && remaining <= fields.Keys
    requires forall k | k in remaining :: fields[k] == v.fields[k]
    ensures Consistent(s, o.cache) && Extends(cache, o.cache)
    decreases Measure(s, stack), v, 1, |remaining|
  {
    if remaining == {} then Outcome(Ok(Obj(fields)), cache)
    else
      var key := Least(remaining);
      var x := ResolveValue(s, cache, stack, fields[key]);
      if x.value.Err? then x
      else ResolveFields(s, x.cache, stack, v, remaining - {key}, fields[key := x.value.value])
  }

  /** An object with `$ref` and not of size one has some other key. */
  lemma OtherKeys(entries: map<string, Json>)
    requires "$ref" in entries && |entries| != 1
    ensures entries.Keys - {"$ref"} != {}
  {
    var others := entries.Keys - {"$ref"};
    assert entries.Keys == others + {"$ref"};
    assert |entries.Keys| == |entries|;
    assert |others| == |entries| - 1;
  }

  /**
   * Expanding `{"$ref": text}`: check the object, build the reference
   * against the current file, refuse a reference already on the stack and
   * one without keys, then follow it.
   */
  function ExpandReference(s: Session, cache: map<Path, Json>, stack: seq<Reference>, v: Json): (o: Outcome)
    requires Consistent(s, cache) && Distinct(stack)
    requires v.Obj? && "$ref" in v.fields
    ensures Consistent(s, o.cache) && Extends(cache, o.cache)
    decreases Measure(s, stack), v, 1, 0
  {
    var entries := v.fields;
    if |entries| != 1 then Outcome(Err(ExtraKeys(entries.Keys - {"$ref"})), cache)
    else if !entries["$ref"].Str? then Outcome(Err(RefNotString(entries["$ref"])), cache)
    else
      match New(s.fs, Current(s, stack), entries["$ref"].s)
      case Err(e) => Outcome(Err(e), cache)
      case Ok(r) =>
        if r in stack then Outcome(Err(Cycle(stack + [r])), cache)
        else if r.keys == [] then Outcome(Err(EmptyKeys(r)), cache)
        else Follow(s, cache, stack, v, r)
  }

  /**
   * Following a reference that is not on the stack: load its file and walk
   * its keys to the target, then descend into it.
   */
  function Follow(s: Session, cache: map<Path, Json>, stack: seq<Reference>, v: Json, r: Reference): (o: Outcome)
    requires Consistent(s, cache) && Distinct(stack)
    requires s.fs.IsCanonical(r.file) && r.keys != [] && r !in stack
    ensures Consistent(s, o.cache) && Extends(cache, o.cache)
    decreases Measure(s, stack), v, 0, 1
  {
    LoadConsistent(s, cache, r.file);
    match Load(s.fs, s.root, cache, r.file)
    case Err(e) => Outcome(Err(e), cache)
    case Ok((document, loaded)) =>
      assert Target(s.fs, s.root, r.file) == Ok(r.file);
      match Walk(document, r)
      case Err(e) => Outcome(Err(e), loaded)
      case Ok(target) =>
        var o := Descend(s, loaded, stack, v, r, target);
        ExtendsTransitive(cache, loaded, o.cache);
        o
  }

  /**
   * Resolving the target with the reference pushed, then annotating the
   * result.
   */
  function Descend(s: Session, cache: map<Path, Json>, stack: seq<Reference>, v: Json, r: Reference, target: Json): (o: Outcome)
    requires Consistent(s, cache) && Distinct(stack)
    requires r.file in cache && Navigate(cache[r.file], r.keys) == Some(target)
    requires r.keys != [] && r !in stack
    ensures Consistent(s, o.cache) && Extends(cache, o.cache)
    decreases Measure(s, stack), v, 0, 0
  {
    MeasureDecreases(s, cache, stack, r);
    DistinctPush(stack, r);
    var inner := ResolveValue(s, cache, stack + [r], target);
    match inner.value
    case Err(_) => inner
    case Ok(x) => Outcome(Attach(r, x), inner.cache)
  }

  /** Pushing a reference that is not on the stack keeps the stack free of repeats. */
  lemma DistinctPush(stack: seq<Reference>, r: Reference)
    requires Distinct(stack) && r !in stack
    ensures Distinct(stack + [r])
  {
  }

  /**
   * Walking to the target key by key, through objects only; the first key
   * that cannot be followed fails, naming the keys up to and including it.
   */
  function Walk(document: Json, r: Reference): (t: Result<Json, Error>)
    ensures t.Ok? ==> Navigate(document, r.keys) == Some(t.value)
  {
    match Navigate(document, r.keys)
    case None => Err(NotFound(r, FirstMissing(document, r.keys) + 1))
    case Some(target) => Ok(target)
  }

  /**
   * The walk succeeds exactly when navigation does; otherwise it reports the
   * depth of the first key that cannot be followed.
   */
  lemma WalkCases(document: Json, r: Reference)
    ensures Walk(document, r).Ok? <==> Navigate(document, r.keys).Some?
    ensures Walk(document, r).Err? ==> var e := Walk(document, r).error;
              && e.NotFound? && e.reference == r && 1 <= e.depth <= |r.keys|
              && Navigate(document, r.keys[..e.depth - 1]).Some?
              && Get(Navigate(document, r.keys[..e.depth - 1]).value, r.keys[e.depth - 1]).None?
  {
    if Navigate(document, r.keys).None? {
      var d := FirstMissing(document, r.keys);
      assert r.keys[..d + 1 - 1] == r.keys[..d];
    }
  }

  /**
   * Annotating the resolved target: it must be an object, and none of its
   * keys may be a reserved one; it then gets the extension.
   */
  function Attach(r: Reference, x: Json): Result<Json, Error>
    requires r.keys != []
  {
    if !x.Obj? then Err(NotAnObject(r))
    else
      match Collision(x.fields)
      case Some(k) => Err(ReservedKey(r, k))
      case None => Ok(Obj(x.fields + Extension(r)))
  }

  /**
   * A target that is not an object, or that has a reserved key, is refused;
   * otherwise it keeps all its entries and gains the annotation.
   */
  lemma AttachCases(r: Reference, x: Json)
    requires r.keys != []
    ensures !x.Obj? ==> Attach(r, x) == Err(NotAnObject(r))
    ensures x.Obj? && !(x.fields.Keys !! Reserved) ==>
              Attach(r, x).Err? && var e := Attach(r, x).error;
              e.ReservedKey? && e.reference == r && e.key in x.fields && e.key in Reserved
    ensures Attach(r, x).Ok? <==> x.Obj? && x.fields.Keys !! Reserved
    ensures Attach(r, x).Ok? ==> var y := Attach(r, x).value;
              && y.Obj? && y.fields.Keys == x.fields.Keys + Reserved
              && IsAnnotation(r, y.fields)
              && forall k | k in x.fields :: y.fields[k] == x.fields[k]
  {
    if x.Obj? {
      CollisionCases(x.fields);
    }
  }

  // ---------------------------------------------------------------------------
  // Properties of the resolution.

  /**
   * What a resolution gives: a value of the same shape in which every
   * expanded object carries its annotation, naming a file now in the cache;
   * or a failure that reports what it says it does.
   */
  lemma {:induction false} ValueSound(s: Session, cache: map<Path, Json>, stack: seq<Reference>, v: Json)
    requires Consistent(s, cache) && Distinct(stack)
    ensures var o := ResolveValue(s, cache, stack, v);
            && (o.value.Ok? ==> SameShape(v, o.value.value) && Annotated(o.value.value, o.cache.Keys))
            && (o.value.Err? ==> WellReported(o.value.error, stack, o.cache))
    decreases Measure(s, stack), v, 2, 0
  {
    match v
    case Arr(items) => ItemsSound(s, cache, stack, v, 0, items);
    case Obj(fields) =>
      if "$ref" in fields {
        ExpandSound(s, cache, stack, v);
      } else {
        FieldsSound(s, cache, stack, v, fields.Keys, fields);
      }
    case _ =>
  }

  /** The array loop keeps the resolved prefix and resolves the rest, each element soundly. */
  lemma {:induction false} ItemsSound(s: Session, cache: map<Path, Json>, stack: seq<Reference>, v: Json, i: nat, items: seq<Json>)
    requires Consistent(s, cache) && Distinct(stack)
    requires v.Arr? && |items| == |v.items| && i <= |items|
    requires forall j | i <= j < |items| :: items[j] == v.items[j]
    ensures var o := ResolveItems(s, cache, stack, v, i, items);
            && (o.value.Ok? ==> o.value.value.Arr? && |o.value.value.items| == |items|)
            && (o.value.Ok? ==> forall j | 0 <= j < i :: o.value.value.items[j] == items[j])
            && (o.value.Ok? ==> forall j | i <= j < |items| ::
                  SameShape(items[j], o.value.value.items[j]) && Annotated(o.value.value.items[j], o.cache.Keys))
            && (o.value.Err? ==> WellReported(o.value.error, stack, o.cache))
    decreases Measure(s, stack), v, 1, |items| - i
  {
    if i < |items| {
      ValueSound(s, cache, stack, items[i]);
      var x := ResolveValue(s, cache, stack, items[i]);
      if x.value.Ok? {
        var next := items[i := x.value.value];
        ItemsSound(s, x.cache, stack, v, i + 1, next);
        var o := ResolveItems(s, x.cache, stack, v, i + 1, next);
        assert ResolveItems(s, cache, stack, v, i, items) == o;
        if o.value.Ok? {
          var w := o.value.value.items;
          AnnotatedGrows(x.value.value, x.cache.Keys, o.cache.Keys);
          assert w[i] == x.value.value;
          forall j | i < j < |items| ensures SameShape(items[j], w[j]) && Annotated(w[j], o.cache.Keys) {
            assert next[j] == items[j];
          }
        }
      }
    }
  }

  /** The object loop keeps the values already resolved and resolves the rest, each soundly. */
  lemma {:induction false} FieldsSound(s: Session, cache: map<Path, Json>, stack: seq<Reference>, v: Json,
                                       remaining: set<string>, fields: map<string, Json>)
    requires Consistent(s, cache) && Distinct(stack)
    requires v.Obj? && fields.Keys == v.fields.Keys && remaining <= fields.Keys
    requires forall k | k in remaining :: fields[k] == v.fields[k]
    ensures var o := ResolveFields(s, cache, stack, v, remaining, fields);
            && (o.value.Ok? ==> o.value.value.Obj? && o.value.value.fields.Keys == fields.Keys)
            && (o.value.Ok? ==> forall k | k in fields && k !in remaining :: o.value.value.fields[k] == fields[k])
            && (o.value.Ok? ==> forall k | k in remaining ::
                  SameShape(fields[k], o.value.value.fields[k]) && Annotated(o.value.value.fields[k], o.cache.Keys))
            && (o.value.Err? ==> WellReported(o.value.error, stack, o.cache))
    decreases Measure(s, stack), v, 1, |remaining|
  {
    if remaining != {} {
      var key := Least(remaining);
      ValueSound(s, cache, stack, fields[key]);
      var x := ResolveValue(s, cache, stack, fields[key]);
      if x.value.Ok? {
        var next := fields[key := x.value.value];
        FieldsSound(s, x.cache, stack, v, remaining - {key}, next);
        var o := ResolveFields(s, x.cache, stack, v, remaining - {key}, next);
        assert ResolveFields(s, cache, stack, v, remaining, fields) == o;
        if o.value.Ok? {
          var w := o.value.value.fields;
          AnnotatedGrows(x.value.value, x.cache.Keys, o.cache.Keys);
          assert w[key] == x.value.value;
          forall k | k in remaining - {key} ensures SameShape(fields[k], w[k]) && Annotated(w[k], o.cache.Keys) {
            assert next[k] == fields[k];
          }
        }
      }
    }
  }

  /**
   * Expanding: a malformed `$ref` object fails before anything is loaded; a
   * success is an annotated object.
   */
  lemma {:induction false} ExpandSound(s: Session, cache: map<Path, Json>, stack: seq<Reference>, v: Json)
    requires Consistent(s, cache) && Distinct(stack)
    requires v.Obj? && "$ref" in v.fields
    ensures var o := ExpandReference(s, cache, stack, v);
            && ((|v.fields| != 1 || !v.fields["$ref"].Str?) ==> o.value.Err? && o.cache == cache)
            && (|v.fields| == 1 && v.fields["$ref"].Str? ==>
                  var n := New(s.fs, Current(s, stack), v.fields["$ref"].s);
                  n.Ok? && n.value in stack ==> o == Outcome(Err(Cycle(stack + [n.value])), cache))
            && (o.value.Ok? ==> o.value.value.Obj? && "$ref" in o.value.value.fields)
            && (o.value.Ok? ==>
                  && |v.fields| == 1 && v.fields["$ref"].Str?
                  && var n := New(s.fs, Current(s, stack), v.fields["$ref"].s);
                     n.Ok? && IsAnnotation(n.value, o.value.value.fields))
            && (o.value.Ok? ==> Annotated(o.value.value, o.cache.Keys))
            && (o.value.Err? ==> WellReported(o.value.error, stack, o.cache))
    decreases Measure(s, stack), v, 1, 0
  {
    var entries := v.fields;
    var o := ExpandReference(s, cache, stack, v);
    if |entries| != 1 {
      assert o == Outcome(Err(ExtraKeys(entries.Keys - {"$ref"})), cache);
      OtherKeys(entries);
    } else if !entries["$ref"].Str? {
      assert o == Outcome(Err(RefNotString(entries["$ref"])), cache);
    } else {
      var n := New(s.fs, Current(s, stack), entries["$ref"].s);
      if n.Err? {
        NewWellReported(s.fs, Current(s, stack), entries["$ref"].s, stack, cache);
        assert o == Outcome(Err(n.error), cache);
      } else {
        var r := n.value;
        if r in stack {
          assert o == Outcome(Err(Cycle(stack + [r])), cache);
          assert (stack + [r])[..|stack|] == stack;
        } else if r.keys == [] {
          assert o == Outcome(Err(EmptyKeys(r)), cache);
        } else {
          assert o == Follow(s, cache, stack, v, r);
          FollowSound(s, cache, stack, v, r);
        }
      }
    }
  }

  /** `Reference::new` fails only on the text or the file, never with an error the expansion itself reports. */
  lemma NewWellReported(fs: FileSystem, current: Path, text: string, stack: seq<Reference>, cache: map<Path, Json>)
    ensures New(fs, current, text).Err? ==> WellReported(New(fs, current, text).error, stack, cache)
  {
  }

  /**
   * Following: a success is an object annotated by the reference, whose
   * file is then cached; a missing key is reported at its depth.
   */
  lemma {:induction false} FollowSound(s: Session, cache: map<Path, Json>, stack: seq<Reference>, v: Json, r: Reference)
    requires Consistent(s, cache) && Distinct(stack)
    requires s.fs.IsCanonical(r.file) && r.keys != [] && r !in stack
    ensures var o := Follow(s, cache, stack, v, r);
            && (o.value.Ok? ==> o.value.value.Obj? && IsAnnotation(r, o.value.value.fields) && r.file in o.cache)
            && (o.value.Ok? ==> Annotated(o.value.value, o.cache.Keys))
            && (o.value.Err? ==> WellReported(o.value.error, stack, o.cache))
    decreases Measure(s, stack), v, 0, 1
  {
    LoadConsistent(s, cache, r.file);
    var l := Load(s.fs, s.root, cache, r.file);
    if l.Ok? {
      var (document, loaded) := l.value;
      assert Target(s.fs, s.root, r.file) == Ok(r.file);
      var t := Walk(document, r);
      WalkCases(document, r);
      if t.Ok? {
        DescendSound(s, loaded, stack, v, r, t.value);
      }
    }
  }

  /** Descending: the target resolves soundly with the reference pushed, and is then annotated. */
  lemma {:induction false} DescendSound(s: Session, cache: map<Path, Json>, stack: seq<Reference>, v: Json, r: Reference, target: Json)
    requires Consistent(s, cache) && Distinct(stack)
    requires r.file in cache && Navigate(cache[r.file], r.keys) == Some(target)
    requires r.keys != [] && r !in stack
    ensures var o := Descend(s, cache, stack, v, r, target);
            && (o.value.Ok? ==> o.value.value.Obj? && IsAnnotation(r, o.value.value.fields) && r.file in o.cache)
            && (o.value.Ok? ==> Annotated(o.value.value, o.cache.Keys))
            && (o.value.Err? ==> WellReported(o.value.error, stack, o.cache))
    decreases Measure(s, stack), v, 0, 0
  {
    MeasureDecreases(s, cache, stack, r);
    DistinctPush(stack, r);
    ValueSound(s, cache, stack + [r], target);
    var inner := ResolveValue(s, cache, stack + [r], target);
    match inner.value
    case Err(e) =>
      WellReportedGrows(e, r, stack, inner.cache, inner.cache);
    case Ok(x) =>
      AttachCases(r, x);
      if Attach(r, x).Ok? {
        assert Attach(r, x) == Ok(Obj(x.fields + Extension(r)));
        Annotate(x.fields, r, inner.cache.Keys);
      }
  }

  /** A value without any `$ref` comes back as it is, and nothing is loaded. */
  lemma {:induction false} PassValue(s: Session, cache: map<Path, Json>, stack: seq<Reference>, v: Json)
    requires Consistent(s, cache) && Distinct(stack) && NoRefs(v)
    ensures ResolveValue(s, cache, stack, v) == Outcome(Ok(v), cache)
    decreases v, 1
  {
    match v
    case Arr(items) => PassItems(s, cache, stack, v, 0);
    case Obj(fields) => PassFields(s, cache, stack, v, fields.Keys);
    case _ =>
  }

  lemma {:induction false} PassItems(s: Session, cache: map<Path, Json>, stack: seq<Reference>, v: Json, i: nat)
    requires Consistent(s, cache) && Distinct(stack) && v.Arr? && NoRefs(v) && i <= |v.items|
    ensures ResolveItems(s, cache, stack, v, i, v.items) == Outcome(Ok(v), cache)
    decreases v, 0, |v.items| - i
  {
    if i < |v.items| {
      PassValue(s, cache, stack, v.items[i]);
      assert v.items[i := v.items[i]] == v.items;
      PassItems(s, cache, stack, v, i + 1);
    }
  }

  lemma {:induction false} PassFields(s: Session, cache: map<Path, Json>, stack: seq<Reference>, v: Json, remaining: set<string>)
    requires Consistent(s, cache) && Distinct(stack) && v.Obj? && NoRefs(v) && remaining <= v.fields.Keys
    ensures ResolveFields(s, cache, stack, v, remaining, v.fields) == Outcome(Ok(v), cache)
    decreases v, 0, |remaining|
  {
    if remaining != {} {
      var key := Least(remaining);
      PassValue(s, cache, stack, v.fields[key]);
      assert v.fields[key := v.fields[key]] == v.fields;
      PassFields(s, cache, stack, v, remaining - {key});
    }
  }

  /**
   * A reference to an object without any `$ref` inside and without a
   * reserved key gives that object, entries unchanged, plus the annotation of
   * the reference; the only file loaded is the reference's own.
   */
  lemma FollowPlain(s: Session, cache: map<Path, Json>, stack: seq<Reference>, v: Json, r: Reference,
                    document: Json, loaded: map<Path, Json>)
    requires Consistent(s, cache) && Distinct(stack)
    requires s.fs.IsCanonical(r.file) && r.keys != [] && r !in stack
    requires Load(s.fs, s.root, cache, r.file) == Ok((document, loaded))
    requires Navigate(document, r.keys).Some? && Navigate(document, r.keys).value.Obj?
    requires NoRefs(Navigate(document, r.keys).value)
    requires Navigate(document, r.keys).value.fields.Keys !! Reserved
    ensures Follow(s, cache, stack, v, r)
            == Outcome(Ok(Obj(Navigate(document, r.keys).value.fields + Extension(r))), loaded)
  {
    LoadConsistent(s, cache, r.file);
    assert Target(s.fs, s.root, r.file) == Ok(r.file);
    var target := Navigate(document, r.keys).value;
    assert Walk(document, r) == Ok(target);
    DistinctPush(stack, r);
    PassValue(s, loaded, stack + [r], target);
    assert Follow(s, cache, stack, v, r) == Descend(s, loaded, stack, v, r, target);
    AttachCases(r, target);
    CollisionCases(target.fields);
  }

  /**
   * A reference whose target is itself a bare `{"$ref": ...}` object fails:
   * either resolving the target fails, or the resolved target already
   * carries the annotation and the collision check stops at `$file`.
   */
  lemma ReferenceToReference(s: Session, cache: map<Path, Json>, stack: seq<Reference>, v: Json, r: Reference,
                             document: Json, loaded: map<Path, Json>)
    requires Consistent(s, cache) && Distinct(stack)
    requires s.fs.IsCanonical(r.file) && r.keys != [] && r !in stack
    requires Load(s.fs, s.root, cache, r.file) == Ok((document, loaded))
    requires Navigate(document, r.keys).Some? && Navigate(document, r.keys).value.Obj?
    requires "$ref" in Navigate(document, r.keys).value.fields
    ensures Follow(s, cache, stack, v, r).value.Err?
    ensures var inner := ResolveValue(s, loaded, stack + [r], Navigate(document, r.keys).value);
            && (inner.value.Err? ==> Follow(s, cache, stack, v, r).value == inner.value)
            && (inner.value.Ok? ==> Follow(s, cache, stack, v, r).value == Err(ReservedKey(r, "$file")))
  {
    LoadConsistent(s, cache, r.file);
    assert Target(s.fs, s.root, r.file) == Ok(r.file);
    var target := Navigate(document, r.keys).value;
    assert Walk(document, r) == Ok(target);
    DistinctPush(stack, r);
    ValueSound(s, loaded, stack + [r], target);
    var inner := ResolveValue(s, loaded, stack + [r], target);
    assert Follow(s, cache, stack, v, r) == Descend(s, loaded, stack, v, r, target);
    if inner.value.Ok? {
      var x := inner.value.value;
      var r' :| IsAnnotation(r', x.fields) && r'.file in inner.cache.Keys;
      assert "$file" in x.fields;
      CollisionOrder(x.fields);
      assert Attach(r, x) == Err(ReservedKey(r, "$file"));
    }
  }
}
