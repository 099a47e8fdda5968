/**
 * The generic document tree (`serde_json::Value`) that the resolver reads
 * every file into and rewrites.
 */
module JsonTree {
  import opened Results

  /**
   * A parsed document. Numbers are kept as integers; objects are maps, so two
   * objects with the same entries are equal whatever their key order.
   */
  datatype Json =
    | Null
    | Bool(b: bool)
    | Num(n: int)
    | Str(s: string)
    | Arr(items: seq<Json>)
    | Obj(fields: map<string, Json>)

  /** `Value::get` with a string index: only an object can be indexed by a key. */
  function Get(j: Json, key: string): (r: Option<Json>)
    ensures r.Some? <==> j.Obj? && key in j.fields
  {
    if j.Obj? && key in j.fields then Some(j.fields[key]) else None
  }

  /** The subtree reached by indexing `j` with each key in turn, if every step exists. */
  function Navigate(j: Json, keys: seq<string>): Option<Json>
    decreases |keys|
  {
    if keys == [] then Some(j)
    else
      match Get(j, keys[0])
      case None => None
      case Some(child) => Navigate(child, keys[1..])
  }

  /** Navigating along `a + b` is navigating along `a` and then along `b`. */
  lemma {:induction false} NavigateAppend(j: Json, a: seq<string>, b: seq<string>)
    requires Navigate(j, a).Some?
    ensures Navigate(j, a + b) == Navigate(Navigate(j, a).value, b)
    decreases |a|
  {
    if a == [] {
      assert a + b == b;
    } else {
      assert (a + b)[0] == a[0] && (a + b)[1..] == a[1..] + b;
      NavigateAppend(Get(j, a[0]).value, a[1..], b);
    }
  }

  /**
   * The position of the first key that navigation cannot follow: every key
   * before it is followed, and the object reached there has no such key.
   */
  function FirstMissing(j: Json, keys: seq<string>): (i: nat)
    requires Navigate(j, keys).None?
    ensures i < |keys|
    ensures Navigate(j, keys[..i]).Some?
    ensures Get(Navigate(j, keys[..i]).value, keys[i]).None?
    decreases |keys|
  {
    match Get(j, keys[0])
    case None => 0
    case Some(child) =>
      var i := FirstMissing(child, keys[1..]);
      assert keys[..i + 1][0] == keys[0] && keys[..i + 1][1..] == keys[1..][..i];
      i + 1
  }

  /**
   * A key that cannot be followed right after a prefix that can is the first
   * missing one: navigation along all the keys fails there.
   */
  lemma {:induction false} FirstMissingAt(j: Json, keys: seq<string>, i: nat)
    requires i < |keys| && Navigate(j, keys[..i]).Some?
    requires Get(Navigate(j, keys[..i]).value, keys[i]).None?
    ensures Navigate(j, keys).None?
    ensures FirstMissing(j, keys) == i
    decreases i
  {
    if i > 0 {
      var child := Get(j, keys[0]).value;
      assert keys[..i][1..] == keys[1..][..i - 1];
      FirstMissingAt(child, keys[1..], i - 1);
    }
  }

  /** Every key sequence along which navigation from `j` succeeds; a finite set. */
  ghost function KeyPaths(j: Json): set<seq<string>> {
    {[]} + (if j.Obj? then (set k, t | k in j.fields && t in KeyPaths(j.fields[k]) :: [k] + t) else {})
  }

  /** A key sequence that can be navigated belongs to the finite set KeyPaths. */
  lemma {:induction false} NavigableIsKeyPath(j: Json, keys: seq<string>)
    requires Navigate(j, keys).Some?
    ensures keys in KeyPaths(j)
    decreases |keys|
  {
    if keys != [] {
      var child := j.fields[keys[0]];
      NavigableIsKeyPath(child, keys[1..]);
      assert keys == [keys[0]] + keys[1..];
    }
  }

  /** No object anywhere in `j` has a `$ref` key. */
  predicate NoRefs(j: Json) {
    match j
    case Arr(items) => forall i | 0 <= i < |items| :: NoRefs(items[i])
    case Obj(fields) => "$ref" !in fields && forall k | k in fields :: NoRefs(fields[k])
    case _ => true
  }
}
