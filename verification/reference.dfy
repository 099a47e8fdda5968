/**
 * `Reference` (src/resolver.rs): a canonical file plus the keys that lead
 * to a subtree of it, built from the text of a `$ref`, and the failures the
 * core reports.
 */
module References {
  import opened Results
  import opened Text
  import opened JsonTree
  import opened Paths

  /** A link into a document; equality is structural (`#[derive(PartialEq)]`). */
  datatype Reference = Reference(file: Path, keys: seq<string>)

  /**
   * Every way the core fails, `PigError` and the panics alike, as data
   * instead of message text.
   */
  datatype Error =
    | Io(path: Path)                          // a path that does not exist or cannot be opened
    | Unparsable(path: Path)                  // the file is not YAML
    | NotOpenApi(path: Path)                  // the file does not deserialize into the OpenAPI model
    | MalformedReference(text: string)        // "Empty reference": the text has no `#`
    | NoParent(path: Path)                    // `parent().unwrap()` on a path without a parent
    | ExtraKeys(keys: set<string>)            // "Invalid $ref object": the keys beside `$ref`
    | RefNotString(value: Json)               // "$ref is not a string"
    | Cycle(chain: seq<Reference>)            // "Circular reference detected": the stack and the repeat
    | EmptyKeys(reference: Reference)         // "Empty reference keys": no last key for `$name`
    | NotFound(reference: Reference, depth: nat)  // "$ref not found": `display(depth)`
    | NotAnObject(reference: Reference)       // "$ref is not a YAML object"
    | ReservedKey(reference: Reference, key: string)  // "Reference contains {key}"
    | NotAContext                             // `Context::from_value` on a non-object
    | WatchNotFound(path: Path)               // unwatching a path that is not watched
    | NoSuchEntry(index: nat)                 // an event for an entry index out of range
    | TemplateFailure(dir: Path)              // `Tera::new` on the templates below this directory
    | WatcherFailed                           // a notify error reaching the handler: "Error: ..."

  /** `Reference::display(end)`: the file, `#/`, then the first `end` keys joined by `/`. */
  function DisplayPrefix(r: Reference, end: nat): string
    requires end <= |r.keys|
  {
    r.file + "#/" + Join(r.keys[..end], "/")
  }

  /** `Display for Reference`: the file, `#/`, then all the keys joined by `/`. */
  function Display(r: Reference): (s: string)
    ensures s == DisplayPrefix(r, |r.keys|)
  {
    assert r.keys[..|r.keys|] == r.keys;
    r.file + "#/" + Join(r.keys, "/")
  }

  /** The two pieces `split('#')` yields first: before the first `#`, and up to the next `#`. */
  function SplitReference(text: string): Result<(string, string), Error> {
    var pieces := Split(text, '#');
    if |pieces| < 2 then Err(MalformedReference(text)) else Ok((pieces[0], pieces[1]))
  }

  /**
   * Text without `#` is refused; otherwise the file part is the text before
   * the first `#`, and the fragment runs from there to the next `#` or the
   * end, neither piece holding a `#`.
   */
  lemma SplitReferenceParts(text: string)
    ensures SplitReference(text).Err? <==> '#' !in text
    ensures SplitReference(text).Err? ==> SplitReference(text).error == MalformedReference(text)
    ensures SplitReference(text).Ok? ==> var (file, fragment) := SplitReference(text).value;
              && '#' !in file && '#' !in fragment
              && var n := |file| + 1 + |fragment|;
                 n <= |text| && text[..n] == file + "#" + fragment && (n == |text| || text[n] == '#')
  {
    JoinFirstTwo(Split(text, '#'), "#");
  }

  /** Joined text starts with the first part, the separator and the second part. */
  lemma JoinFirstTwo(parts: seq<string>, sep: string)
    ensures |parts| == 1 ==> Join(parts, sep) == parts[0]
    ensures |parts| == 2 ==> Join(parts, sep) == parts[0] + sep + parts[1]
    ensures |parts| > 2 ==> Join(parts, sep) == parts[0] + sep + parts[1] + sep + Join(parts[2..], sep)
  {
    if |parts| > 2 {
      var tail := Join(parts[2..], sep);
      assert parts[1..][1..] == parts[2..];
      assert Join(parts[1..], sep) == parts[1] + sep + tail;
      assert Join(parts, sep) == parts[0] + sep + (parts[1] + sep + tail);
      assert parts[0] + sep + (parts[1] + sep + tail) == parts[0] + sep + parts[1] + sep + tail;
    }
  }

  /** A key never holds padding, is never empty and never contains `/`. */
  predicate IsKey(k: string) {
    k != "" && Trimmed(k) && '/' !in k
  }

  predicate WellFormedKeys(keys: seq<string>) {
    forall i | 0 <= i < |keys| :: IsKey(keys[i])
  }

  /** `.map(str::trim).filter(|key| !key.is_empty())` over the pieces, in order. */
  function TrimAndDrop(pieces: seq<string>): seq<string> {
    if pieces == [] then []
    else
      var key := Trim(pieces[0]);
      var rest := TrimAndDrop(pieces[1..]);
      if key == [] then rest else [key] + rest
  }

  /** Pieces free of `/` trim down to well-formed keys. */
  lemma {:induction false} TrimAndDropKeys(pieces: seq<string>)
    requires forall i | 0 <= i < |pieces| :: '/' !in pieces[i]
    ensures WellFormedKeys(TrimAndDrop(pieces))
  {
    if pieces != [] {
      TrimAndDropKeys(pieces[1..]);
      var key := Trim(pieces[0]);
      if key != [] {
        TrimKeepsOut(pieces[0], '/');
        PrependKey(key, TrimAndDrop(pieces[1..]));
      }
    }
  }

  lemma PrependKey(key: string, keys: seq<string>)
    requires IsKey(key) && WellFormedKeys(keys)
    ensures WellFormedKeys([key] + keys)
  {
    forall i | 0 <= i < |[key] + keys| ensures IsKey(([key] + keys)[i]) {
      if i > 0 {
        assert ([key] + keys)[i] == keys[i - 1];
      }
    }
  }

  /** Trimming never introduces a character. */
  lemma TrimKeepsOut(s: string, c: char)
    requires c !in s
    ensures c !in Trim(s)
  {
    var t := TrimStart(s);
    var r := TrimEnd(t);
    assert Trim(s) == r;
    assert forall i | 0 <= i < |r| :: r[i] == s[|s| - |t| + i];
  }

  /** The keys of a fragment: its `/`-separated pieces, trimmed, empty ones dropped. */
  function FragmentKeys(fragment: string): seq<string> {
    TrimAndDrop(Split(fragment, '/'))
  }

  /** A fragment always yields well-formed keys. */
  lemma FragmentKeysWellFormed(fragment: string)
    ensures WellFormedKeys(FragmentKeys(fragment))
  {
    TrimAndDropKeys(Split(fragment, '/'));
  }

  /** Keys that are already well formed pass `TrimAndDrop` unchanged. */
  lemma {:induction false} TrimAndDropKeeps(keys: seq<string>)
    requires WellFormedKeys(keys)
    ensures TrimAndDrop(keys) == keys
  {
    if keys != [] {
      assert IsKey(keys[0]);
      TrimOfTrimmed(keys[0]);
      TrimAndDropKeeps(keys[1..]);
      assert keys == [keys[0]] + keys[1..];
    }
  }

  /**
   * The file part of a reference, against the file being expanded: an
   * empty (after trimming) part names that file itself; otherwise the part is
   * joined to that file's parent directory (an absolute part replaces it).
   * Either way the result is canonicalized.
   */
  function ResolveFilePart(fs: FileSystem, current: Path, part: string): (r: Result<Path, Error>)
    ensures fs.Valid() && r.Ok? ==> fs.IsCanonical(r.value) && IsAbsolute(r.value)
  {
    var file := Trim(part);
    var target :-
      if file == "" then Ok(current)
      else
        match Parent(current)
        case None => Err(NoParent(current))
        case Some(base) => Ok(if !IsAbsolute(file) then JoinPath(base, file) else file);
    Canonical(fs, target)
  }

  /**
   * The cases of the file part: the current file itself, a failure when the
   * current file has no parent, or the part below the current file's parent.
   */
  lemma ResolveFilePartCases(fs: FileSystem, current: Path, part: string)
    ensures Trim(part) == "" ==> ResolveFilePart(fs, current, part) == Canonical(fs, current)
    ensures Trim(part) != "" && Parent(current).None? ==> ResolveFilePart(fs, current, part) == Err(NoParent(current))
    ensures Trim(part) != "" && Parent(current).Some? ==>
              ResolveFilePart(fs, current, part) == Canonical(fs, JoinPath(Parent(current).value, Trim(part)))
  {
  }

  /** `canonicalize()?`: the canonical path, or an I/O failure for a path that does not exist. */
  function Canonical(fs: FileSystem, p: Path): (r: Result<Path, Error>)
    ensures r.Err? <==> !fs.Exists(p)
    ensures r.Err? ==> r.error == Io(p)
    ensures fs.Valid() && r.Ok? ==> fs.IsCanonical(r.value) && IsAbsolute(r.value)
  {
    match fs.Canonicalize(p)
    case None => Err(Io(p))
    case Some(c) => Ok(c)
  }

  /**
   * `Reference::new(current, text)`: split the text at `#`, resolve the
   * file part against `current`, and read the keys from the fragment.
   */
  function New(fs: FileSystem, current: Path, text: string): (r: Result<Reference, Error>)
    ensures fs.Valid() && r.Ok? ==> fs.IsCanonical(r.value.file) && IsAbsolute(r.value.file)
  {
    var parts :- SplitReference(text);
    var file :- ResolveFilePart(fs, current, parts.0);
    Ok(Reference(file, FragmentKeys(parts.1)))
  }

  /**
   * What `Reference::new` builds: text without `#` is refused; otherwise the
   * file is the file part resolved against `current`, and the keys, all well
   * formed, are those of the fragment.
   */
  lemma NewParts(fs: FileSystem, current: Path, text: string)
    ensures '#' !in text ==> New(fs, current, text) == Err(MalformedReference(text))
    ensures New(fs, current, text).Ok? ==> '#' in text && WellFormedKeys(New(fs, current, text).value.keys)
    ensures New(fs, current, text).Ok? ==>
              && New(fs, current, text).value.keys == FragmentKeys(SplitReference(text).value.1)
              && ResolveFilePart(fs, current, SplitReference(text).value.0) == Ok(New(fs, current, text).value.file)
  {
    SplitReferenceParts(text);
    if SplitReference(text).Ok? {
      FragmentKeysWellFormed(SplitReference(text).value.1);
    }
  }

  lemma {:induction false} JoinAvoids(parts: seq<string>, sep: string, c: char)
    requires c !in sep && forall i | 0 <= i < |parts| :: c !in parts[i]
    ensures c !in Join(parts, sep)
  {
    if |parts| > 1 {
      JoinAvoids(parts[1..], sep, c);
    }
  }

  /** The displayed text splits at its only `#` into the file and the `/`-led key path. */
  lemma DisplaySplits(r: Reference)
    requires '#' !in r.file && forall i | 0 <= i < |r.keys| :: '#' !in r.keys[i]
    ensures SplitReference(Display(r)) == Ok((r.file, "/" + Join(r.keys, "/")))
  {
    var fragment := "/" + Join(r.keys, "/");
    JoinAvoids(r.keys, "/", '#');
    assert '#' !in fragment;
    assert Display(r) == Join([r.file, fragment], "#");
    SplitJoin([r.file, fragment], '#');
  }

  /** The fragment `/k1/.../kn` of well-formed keys reads back as those keys. */
  lemma FragmentOfKeys(keys: seq<string>)
    requires WellFormedKeys(keys)
    ensures FragmentKeys("/" + Join(keys, "/")) == keys
  {
    var pieces := [""] + keys;
    assert pieces[1..] == keys;
    if keys == [] {
      assert "/" + Join(keys, "/") == Join(["", ""], "/");
      SplitJoin(["", ""], '/');
      EmptyPieceDropped(keys);
    } else {
      assert "/" + Join(keys, "/") == Join(pieces, "/");
      forall i | 0 <= i < |pieces| ensures '/' !in pieces[i] {
        if i > 0 {
          assert pieces[i] == keys[i - 1] && IsKey(keys[i - 1]);
        }
      }
      SplitJoin(pieces, '/');
      EmptyPieceDropped(keys);
      TrimAndDropKeeps(keys);
    }
  }

  /** A leading empty piece is dropped, and so is a lone trailing one. */
  lemma EmptyPieceDropped(keys: seq<string>)
    ensures TrimAndDrop([""] + keys) == TrimAndDrop(keys)
    ensures TrimAndDrop(["", ""]) == []
  {
    assert Trim("") == "";
    assert ([""] + keys)[1..] == keys;
    assert ["", ""][1..] == [""] && [""][1..] == [];
  }

  /**
   * A blank piece anywhere contributes no key: `#/a//b`, `#/a/ /b` and
   * `#/a/b` give the same keys.
   */
  lemma {:induction false} BlankPieceDropped(a: seq<string>, p: string, b: seq<string>)
    requires Trim(p) == ""
    ensures TrimAndDrop(a + [p] + b) == TrimAndDrop(a + b)
  {
    if a == [] {
      TrimAndDropCons(p, b);
      assert a + [p] + b == [p] + b && a + b == b;
    } else {
      BlankPieceDropped(a[1..], p, b);
      Uncons(a, [p] + b);
      Uncons(a, b);
      Regroup(a, p, b);
      Regroup(a[1..], p, b);
      TrimAndDropCons(a[0], a[1..] + ([p] + b));
      TrimAndDropCons(a[0], a[1..] + b);
    }
  }

  lemma Regroup(a: seq<string>, p: string, b: seq<string>)
    ensures a + [p] + b == a + ([p] + b)
  {
  }

  lemma Uncons(a: seq<string>, b: seq<string>)
    requires a != []
    ensures a + b == [a[0]] + (a[1..] + b)
  {
    assert a == [a[0]] + a[1..];
  }

  lemma TrimAndDropCons(piece: string, pieces: seq<string>)
    ensures TrimAndDrop([piece] + pieces)
            == if Trim(piece) == [] then TrimAndDrop(pieces) else [Trim(piece)] + TrimAndDrop(pieces)
  {
    assert ([piece] + pieces)[0] == piece && ([piece] + pieces)[1..] == pieces;
  }

  /**
   * The text a reference displays as (the `$ref` annotation) parses back to
   * the same reference, from any file that has a parent directory, provided
   * its file is canonical and neither the file nor a key holds a `#`.
   */
  lemma NewDisplay(fs: FileSystem, current: Path, r: Reference)
    requires fs.Valid() && fs.IsCanonical(r.file) && Trimmed(r.file) && '#' !in r.file
    requires WellFormedKeys(r.keys) && forall i | 0 <= i < |r.keys| :: '#' !in r.keys[i]
    requires Parent(current).Some?
    ensures New(fs, current, Display(r)) == Ok(r)
  {
    DisplaySplits(r);
    TrimOfTrimmed(r.file);
    assert IsAbsolute(r.file);
    ResolveFilePartCases(fs, current, r.file);
    assert ResolveFilePart(fs, current, r.file) == Ok(r.file);
    FragmentOfKeys(r.keys);
  }
}
