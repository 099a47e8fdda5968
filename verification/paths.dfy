/**
 * Unix paths as strings, and the file system the core reads: which paths
 * exist and what they canonicalize to, what each file parses to, and the
 * OpenAPI deserializer, all as given data.
 */
module Paths {
  import opened Results
  import opened JsonTree

  type Path = string

  predicate IsAbsolute(p: Path) {
    |p| > 0 && p[0] == '/'
  }

  /** Index of the last `/` in `p`. */
  function LastSlash(p: Path): (i: nat)
    requires '/' in p
    ensures i < |p| && p[i] == '/' && '/' !in p[i + 1..]
  {
    if p[|p| - 1] == '/' then |p| - 1
    else
      var q := p[..|p| - 1];
      assert '/' in q by {
        var k :| 0 <= k < |p| && p[k] == '/';
        assert q[k] == '/';
      }
      var i := LastSlash(q);
      assert p[i + 1..] == q[i + 1..] + [p[|p| - 1]];
      i
  }

  /**
   * `Path::parent` for paths without a trailing or doubled separator (the
   * shape of every canonical path): everything before the last component;
   * none for the root and for the empty path.
   */
  function Parent(p: Path): (r: Option<Path>)
    ensures r.None? <==> p == "" || p == "/"
    ensures r.Some? ==> |r.value| < |p| && p[..|r.value|] == r.value
  {
    if p == "" || p == "/" then None
    else if '/' !in p then Some("")
    else
      var i := LastSlash(p);
      if i == 0 then Some("/") else Some(p[..i])
  }

  /**
   * The shape of a canonical path: the root, or an absolute path with no
   * trailing separator, no empty component and no `.` or `..` component.
   */
  predicate Normal(p: Path) {
    || p == "/"
    || (&& IsAbsolute(p) && p[|p| - 1] != '/'
        && (forall i | 0 <= i < |p| - 1 :: !(p[i] == '/' && p[i + 1] == '/'))
        && (forall i | 0 <= i < |p| - 1 :: !(p[i] == '/' && DotComponent(p, i + 1))))
  }

  /** The component starting at `i` is `.` or `..`. */
  predicate DotComponent(p: Path, i: nat)
    requires i < |p|
  {
    && p[i] == '.'
    && (|| i + 1 == |p| || p[i + 1] == '/'
        || (p[i + 1] == '.' && (i + 2 == |p| || p[i + 2] == '/')))
  }

  /**
   * On such a path `Parent` is `Path::parent`: the path is its parent joined
   * with one non-empty last component, and the parent has the same shape.
   */
  lemma ParentOfNormal(p: Path)
    requires Normal(p) && p != "/"
    ensures Parent(p).Some? && Normal(Parent(p).value)
    ensures var c := p[LastSlash(p) + 1..];
            c != "" && c != "." && c != ".." && '/' !in c && JoinPath(Parent(p).value, c) == p
  {
    assert p[0] == '/';
    var i := LastSlash(p);
    assert i < |p| - 1;
    var c := p[i + 1..];
    assert !DotComponent(p, i + 1);
    if i > 0 {
      NormalBefore(p, i);
      assert JoinPath(p[..i], c) == p by {
        assert p[..i][i - 1] != '/';
        assert p == p[..i] + "/" + c;
      }
    } else {
      assert JoinPath("/", c) == p by {
        assert p == "/" + c;
      }
    }
  }

  /** The part of such a path before a separator other than the first has the same shape. */
  lemma NormalBefore(p: Path, i: nat)
    requires Normal(p) && 0 < i < |p| && p[i] == '/'
    ensures Normal(p[..i])
  {
    var q := p[..i];
    assert q[|q| - 1] != '/' by {
      assert p[i - 1] != '/';
    }
    forall k | 0 <= k < |q| - 1
      ensures !(q[k] == '/' && q[k + 1] == '/')
    {
      assert !(p[k] == '/' && p[k + 1] == '/');
    }
    forall k | 0 <= k < |q| - 1
      ensures !(q[k] == '/' && DotComponent(q, k + 1))
    {
      assert !(p[k] == '/' && DotComponent(p, k + 1));
    }
  }

  /**
   * `Path::join`: an absolute `p` replaces `base`; a relative one is appended
   * after a separator (none is added after an empty base or one ending in `/`).
   */
  function JoinPath(base: Path, p: Path): (r: Path)
    ensures IsAbsolute(p) ==> r == p
    ensures !IsAbsolute(p) ==> EndsWithPath(r, p) && |r| >= |base| && r[..|base|] == base
  {
    if IsAbsolute(p) then p
    else if base == "" || base[|base| - 1] == '/' then base + p
    else base + "/" + p
  }

  predicate EndsWithPath(r: Path, p: Path) {
    |p| <= |r| && r[|r| - |p|..] == p
  }

  /** Below one base, distinct relative paths join to distinct paths. */
  lemma JoinPathInjective(base: Path, p: Path, q: Path)
    requires !IsAbsolute(p) && !IsAbsolute(q)
    requires JoinPath(base, p) == JoinPath(base, q)
    ensures p == q
  {
    var r := JoinPath(base, p);
    var n := |r| - |p|;
    assert n == |r| - |q|;
    assert p == r[n..] == q;
  }

  /**
   * The file system as the core sees it.
   * - `canon`: the paths that exist, each with what `fs::canonicalize` gives for it;
   * - `files`: what reading and parsing each file as YAML gives (`None` when
   *   the text is not YAML); a path missing here cannot be opened;
   * - `openapi`: deserializing a tree into the `openapiv3::OpenAPI` model and
   *   serializing it back, `None` when the tree is not a valid OpenAPI document.
   */
  datatype FileSystem = FileSystem(
    canon: map<Path, Path>,
    files: map<Path, Option<Json>>,
    openapi: Json -> Option<Json>)
  {
    /**
     * Canonicalizing gives an absolute path, without a trailing separator or
     * an empty component, that canonicalizes to itself.
     */
    ghost predicate Valid() {
      forall p | p in canon :: IsAbsolute(canon[p]) && Normal(canon[p]) && canon[p] in canon && canon[canon[p]] == canon[p]
    }

    predicate Exists(p: Path) {
      p in canon
    }

    predicate IsCanonical(p: Path) {
      p in canon && canon[p] == p
    }

    /** `fs::canonicalize`: fails exactly for paths that do not exist. */
    function Canonicalize(p: Path): (r: Option<Path>)
      ensures r.Some? <==> Exists(p)
      ensures Valid() && r.Some? ==> IsCanonical(r.value) && IsAbsolute(r.value)
    {
      if p in canon then Some(canon[p]) else None
    }
  }
}
