/**
 * `Resolver` (src/resolver.rs) as an object: the canonical root file and
 * the cache of loaded files, which `load` fills in place, and the inner
 * `resolve`, which walks a value with a mutable stack of references. Each
 * method is checked against the function of module Resolution or Loading
 * that states what it computes.
 */
module Resolvers {
  import opened Results
  import opened Text
  import opened JsonTree
  import opened Paths
  import opened References
  import Loading
  import Resolution

  /** The `&mut Vec<Reference>` threaded through `resolve`. */
  class ReferenceStack {
    var items: seq<Reference>

    constructor ()
      ensures items == []
    {
      items := [];
    }
  }

  class Resolver {
    const fs: FileSystem
    const file: Path
    var files: map<Path, Json>
    /** The file system, root and root value the cache agrees with. */
    ghost const session: Loading.Session

    ghost predicate Valid()
      reads this
    {
      && session.fs == fs && session.root == file
      && Loading.Consistent(session, files)
    }

    constructor Empty(fs: FileSystem, file: Path, ghost rootValue: Json)
      ensures this.fs == fs && this.file == file && files == map[]
      ensures session == Loading.Session(fs, file, rootValue)
    {
      this.fs := fs;
      this.file := file;
      files := map[];
      session := Loading.Session(fs, file, rootValue);
    }

    /**
     * `Resolver::new(file)`: canonicalize the file and load it, strictly,
     * into an empty cache.
     */
    static method New(fs: FileSystem, path: Path) returns (r: Result<Resolver, Error>)
      requires fs.Valid()
      ensures r.Ok? <==> Loading.Open(fs, path).Ok?
      ensures r.Err? ==> r.error == Loading.Open(fs, path).error
      ensures r.Ok? ==> fresh(r.value) && r.value.Valid() && r.value.session == Loading.Open(fs, path).value
      ensures r.Ok? ==> r.value.files == map[r.value.file := r.value.session.rootValue]
    {
      var file :- Canonical(fs, path);
      ghost var rootValue := match Loading.Read(fs, None, file) case Ok(v) => v case Err(_) => Null;
      var resolver := new Resolver.Empty(fs, file, rootValue);
      var loaded := resolver.Load(file);
      if loaded.Err? {
        return Err(loaded.error);
      }
      assert Loading.Load(fs, file, map[], file).Ok?;
      return Ok(resolver);
    }

    /**
     * `load(file)`: a relative path is taken below the root's parent; the
     * canonical path is read and inserted only when it is not cached yet.
     */
    method Load(path: Path) returns (r: Result<Json, Error>)
      modifies this`files
      ensures var l := Loading.Load(fs, file, old(files), path);
              && (l.Ok? ==> r == Ok(l.value.0) && files == l.value.1)
              && (l.Err? ==> r == Err(l.error) && files == old(files))
    {
      var target: Path;
      if !IsAbsolute(path) {
        match Parent(file)
        case None =>
          return Err(NoParent(file));
        case Some(base) =>
          target := JoinPath(base, path);
      } else {
        target := path;
      }
      var canonical :- Canonical(fs, target);
      if canonical !in files {
        var value :- Loading.Read(fs, Loading.Version(files, file), canonical);
        files := files[canonical := value];
      }
      return Ok(files[canonical]);
    }

    /**
     * `resolve(mut self)`: resolve a copy of the cached root with an empty
     * stack.
     */
    method Resolve() returns (r: Result<Json, Error>)
      requires Valid()
      modifies this`files
      ensures Valid()
      ensures var o := Resolution.ResolveValue(session, old(files), [], session.rootValue);
              r == o.value && files == o.cache
    {
      var output := files[file];
      var references := new ReferenceStack();
      r := ResolveValue(output, references);
    }

    /**
     * The inner `resolve`: scalars are left as they are, arrays and objects
     * without `$ref` are resolved in place, and an object with `$ref` is
     * expanded.
     */
    method ResolveValue(value: Json, references: ReferenceStack) returns (r: Result<Json, Error>)
      requires Valid() && Resolution.Distinct(references.items)
      modifies this`files, references`items
      ensures Valid()
      ensures var o := Resolution.ResolveValue(session, old(files), old(references.items), value);
              r == o.value && files == o.cache
      ensures r.Ok? ==> references.items == old(references.items)
      decreases Resolution.Measure(session, references.items), value, 2, 0
    {
      match value
      case Null => r := Ok(value);
      case Bool(_) => r := Ok(value);
      case Num(_) => r := Ok(value);
      case Str(_) => r := Ok(value);
      case Arr(_) => r := ResolveArray(value, references);
      case Obj(entries) =>
        if "$ref" in entries {
          r := ExpandReference(value, references);
        } else {
          r := ResolveObject(value, references);
        }
    }

    /** `for value in values`: each element in turn, in place, stopping at the first failure. */
    method ResolveArray(value: Json, references: ReferenceStack) returns (r: Result<Json, Error>)
      requires Valid() && Resolution.Distinct(references.items) && value.Arr?
      modifies this`files, references`items
      ensures Valid()
      ensures var o := Resolution.ResolveItems(session, old(files), old(references.items), value, 0, value.items);
              r == o.value && files == o.cache
      ensures r.Ok? ==> references.items == old(references.items)
      decreases Resolution.Measure(session, references.items), value, 1, 0
    {
      ghost var stack := references.items;
      var values := value.items;
      var i := 0;
      while i < |values|
        invariant 0 <= i <= |values| == |value.items|
        invariant forall j | i <= j < |values| :: values[j] == value.items[j]
        invariant Valid() && references.items == stack
        invariant Resolution.ResolveItems(session, files, stack, value, i, values)
                  == Resolution.ResolveItems(session, old(files), stack, value, 0, value.items)
      {
        var resolved := ResolveValue(values[i], references);
        if resolved.Err? {
          return resolved;
        }
        values := values[i := resolved.value];
        i := i + 1;
      }
      r := Ok(Arr(values));
    }

    /**
     * `for value in object.values_mut()`: each value in turn, in ascending
     * key order, in place, stopping at the first failure.
     */
    method ResolveObject(value: Json, references: ReferenceStack) returns (r: Result<Json, Error>)
      requires Valid() && Resolution.Distinct(references.items) && value.Obj?
      modifies this`files, references`items
      ensures Valid()
      ensures var o := Resolution.ResolveFields(session, old(files), old(references.items), value, value.fields.Keys, value.fields);
              r == o.value && files == o.cache
      ensures r.Ok? ==> references.items == old(references.items)
      decreases Resolution.Measure(session, references.items), value, 1, 0
    {
      ghost var stack := references.items;
      var fields := value.fields;
      var remaining := fields.Keys;
      while remaining != {}
        invariant remaining <= fields.Keys == value.fields.Keys
        invariant forall k | k in remaining :: fields[k] == value.fields[k]
        invariant Valid() && references.items == stack
        invariant Resolution.ResolveFields(session, files, stack, value, remaining, fields)
                  == Resolution.ResolveFields(session, old(files), stack, value, value.fields.Keys, value.fields)
        decreases |remaining|
      {
        var key := Least(remaining);
        var resolved := ResolveValue(fields[key], references);
        if resolved.Err? {
          return resolved;
        }
        fields := fields[key := resolved.value];
        remaining := remaining - {key};
      }
      r := Ok(Obj(fields));
    }

    /**
     * The `$ref` branch of the inner `resolve`: check the object, build the
     * reference against the current file and refuse a cycle and an empty key
     * list, then follow the reference.
     */
    method ExpandReference(value: Json, references: ReferenceStack) returns (r: Result<Json, Error>)
      requires Valid() && Resolution.Distinct(references.items)
      requires value.Obj? && "$ref" in value.fields
      modifies this`files, references`items
      ensures Valid()
      ensures var o := Resolution.ExpandReference(session, old(files), old(references.items), value);
              r == o.value && files == o.cache
      ensures r.Ok? ==> references.items == old(references.items)
      decreases Resolution.Measure(session, references.items), value, 1, 0
    {
      ghost var stack := references.items;
      var entries := value.fields;
      if |entries| != 1 {
        return Err(ExtraKeys(entries.Keys - {"$ref"}));
      }
      var current := if |references.items| == 0 then file else references.items[|references.items| - 1].file;
      assert current == Resolution.Current(session, stack);
      var text := entries["$ref"];
      if !text.Str? {
        return Err(RefNotString(text));
      }
      var reference :- References.New(fs, current, text.s);
      if reference in references.items {
        references.items := references.items + [reference];
        return Err(Cycle(references.items));
      }
      if reference.keys == [] {
        return Err(EmptyKeys(reference));
      }
      assert Resolution.ExpandReference(session, files, stack, value) == Resolution.Follow(session, files, stack, value, reference);
      r := Follow(value, reference, references);
    }

    /**
     * Following a reference: build the extension, load the file, walk to the
     * target, resolve it with the reference pushed, pop, and annotate it.
     */
    method Follow(value: Json, reference: Reference, references: ReferenceStack) returns (r: Result<Json, Error>)
      requires Valid() && Resolution.Distinct(references.items)
      requires fs.IsCanonical(reference.file) && reference.keys != [] && reference !in references.items
      modifies this`files, references`items
      ensures Valid()
      ensures var o := Resolution.Follow(session, old(files), old(references.items), value, reference);
              r == o.value && files == o.cache
      ensures r.Ok? ==> references.items == old(references.items)
      decreases Resolution.Measure(session, references.items), value, 0, 1
    {
      Loading.LoadConsistent(session, files, reference.file);
      var document :- Load(reference.file);
      assert Loading.Target(fs, file, reference.file) == Ok(reference.file);
      var target :- Walk(document, reference);
      r := Descend(value, reference, target, references);
    }

    /**
     * Resolving the target with the reference pushed, popping it, and
     * annotating the result.
     */
    method Descend(value: Json, reference: Reference, target: Json, references: ReferenceStack) returns (r: Result<Json, Error>)
      requires Valid() && Resolution.Distinct(references.items)
      requires reference.file in files && Navigate(files[reference.file], reference.keys) == Some(target)
      requires reference.keys != [] && reference !in references.items
      modifies this`files, references`items
      ensures Valid()
      ensures var o := Resolution.Descend(session, old(files), old(references.items), value, reference, target);
              r == o.value && files == o.cache
      ensures r.Ok? ==> references.items == old(references.items)
      decreases Resolution.Measure(session, references.items), value, 0, 0
    {
      ghost var stack := references.items;
      var extension := Resolution.Extension(reference);
      Resolution.MeasureDecreases(session, files, stack, reference);
      references.items := references.items + [reference];
      assert Resolution.Distinct(references.items);
      var resolved :- ResolveValue(target, references);
      references.items := references.items[..|references.items| - 1];
      assert references.items == stack;
      r := Attach(reference, extension, resolved);
    }

    /** The loop over the keys in `reference.keys`, moving one object down at each key. */
    static method Walk(document: Json, reference: Reference) returns (r: Result<Json, Error>)
      ensures r == Resolution.Walk(document, reference)
    {
      var target := document;
      var i := 0;
      while i < |reference.keys|
        invariant 0 <= i <= |reference.keys|
        invariant Navigate(document, reference.keys[..i]) == Some(target)
      {
        match Get(target, reference.keys[i])
        case None =>
          FirstMissingAt(document, reference.keys, i);
          return Err(NotFound(reference, i + 1));
        case Some(child) =>
          NavigateAppend(document, reference.keys[..i], [reference.keys[i]]);
          assert reference.keys[..i] + [reference.keys[i]] == reference.keys[..i + 1];
          target := child;
        i := i + 1;
      }
      assert reference.keys[..|reference.keys|] == reference.keys;
      return Ok(target);
    }

    /**
     * The resolved target must be an object; its keys are checked in
     * ascending order against the extension, and it is then extended.
     */
    static method Attach(reference: Reference, extension: map<string, Json>, resolved: Json) returns (r: Result<Json, Error>)
      requires reference.keys != [] && extension == Resolution.Extension(reference)
      ensures r == Resolution.Attach(reference, resolved)
    {
      if !resolved.Obj? {
        return Err(NotAnObject(reference));
      }
      var members := resolved.fields;
      var keys := members.Keys;
      while keys != {}
        invariant keys <= members.Keys
        invariant forall k | k in members && k !in keys :: k !in extension
        decreases |keys|
      {
        var key := Least(keys);
        if key in extension {
          Resolution.CollisionFound(members, keys);
          return Err(ReservedKey(reference, key));
        }
        keys := keys - {key};
      }
      return Ok(Obj(members + extension));
    }
  }
}
