/** `resolve_ref` (client_generator.py): follow one local `$ref` through the
    parsed document by successive key lookups. Only one level is followed: a
    node reached through a `$ref` is returned as it is, even when it holds a
    `$ref` itself. Keys are not unescaped (`~0`, `~1` are taken literally). */
module Refs {
  import opened Results
  import opened Text
  import opened Json
  import opened GenErrors

  /** `node = node[part]` for each part in turn. */
  function Walk(node: Value, parts: seq<string>): (r: Result<Value, GenError>)
    ensures parts == [] ==> r == Ok(node)
    ensures r.Err? ==> (r.error.MissingKey? || r.error.NotSubscriptable?) && r.error.key in parts
  {
    if parts == [] then Ok(node)
    else match node
      case Obj(fields) =>
        (match Get(fields, parts[0])
         case None => Err(MissingKey(parts[0]))
         case Some(child) => Walk(child, parts[1..]))
      case _ => Err(NotSubscriptable(parts[0]))
  }

  /** The key path a `#/a/b/c` pointer names. */
  function RefPath(ref: string): seq<string>
    requires StartsWith(ref, "#/")
  {
    Split(ref[2..], '/')
  }

  function ResolveRef(node: Value, root: Value): (r: Result<Value, GenError>)
    ensures node.Obj? && !HasKey(node.fields, "$ref") ==> r == Ok(node)
    ensures forall p :: node.Obj? && Get(node.fields, "$ref") == Some(Str(p)) ==>
      r == (if StartsWith(p, "#/") then Walk(root, RefPath(p)) else Err(UnsupportedRef(p)))
    ensures node.Obj? && Get(node.fields, "$ref").Some? && !Get(node.fields, "$ref").value.Str? ==>
      r == Err(RefNotAString)
    ensures r.Ok? && !node.Obj? ==> r.value == node
  {
    match node
    case Obj(fields) =>
      (match Get(fields, "$ref")
       case None => Ok(node)
       case Some(Str(p)) =>
         if StartsWith(p, "#/") then Walk(root, RefPath(p)) else Err(UnsupportedRef(p))
       case Some(_) => Err(RefNotAString))
    // `'$ref' in s` is a substring test; a match then fails at `s['$ref']`
    case Str(s) => if Contains(s, "$ref") then Err(NotSubscriptable("$ref")) else Ok(node)
    // list membership, then `lst['$ref']` fails the same way
    case Arr(items) => if Str("$ref") in items then Err(NotSubscriptable("$ref")) else Ok(node)
    case _ => Err(NotAContainer)
  }

  /** Walking a concatenated key path is walking the two halves in turn. */
  lemma {:induction false} WalkConcat(node: Value, a: seq<string>, b: seq<string>)
    ensures Walk(node, a).Ok? ==> Walk(node, a + b) == Walk(Walk(node, a).value, b)
    ensures Walk(node, a).Err? ==> Walk(node, a + b) == Walk(node, a)
    decreases |a|
  {
    if a != [] {
      assert (a + b)[0] == a[0];
      assert (a + b)[1..] == a[1..] + b;
      match node
      case Obj(fields) => {
        match Get(fields, a[0])
        case None =>
        case Some(child) => WalkConcat(child, a[1..], b);
      }
      case _ =>
    } else {
      assert a + b == b;
    }
  }

  /** A document holding `leaf` under the key path `parts`. */
  function Nest(parts: seq<string>, leaf: Value): Value {
    if parts == [] then leaf else Obj([(parts[0], Nest(parts[1..], leaf))])
  }

  lemma {:induction false} WalkNest(parts: seq<string>, leaf: Value)
    ensures Walk(Nest(parts, leaf), parts) == Ok(leaf)
    decreases |parts|
  {
    if parts != [] {
      WalkNest(parts[1..], leaf);
    }
  }

  /** The reference object `{"$ref": "#/a/b/c"}` for a key path. */
  function RefTo(parts: seq<string>): Value {
    Obj([("$ref", Str("#/" + Join(parts, "/")))])
  }

  /** A `#/...` pointer built from slash-free keys resolves by walking exactly
      those keys. */
  lemma RefToResolves(parts: seq<string>, root: Value)
    requires |parts| > 0
    requires forall k :: 0 <= k < |parts| ==> '/' !in parts[k]
    ensures ResolveRef(RefTo(parts), root) == Walk(root, parts)
  {
    var p := "#/" + Join(parts, "/");
    assert StartsWith(p, "#/");
    assert p[2..] == Join(parts, "/");
    SplitJoin(parts, '/');
  }

  /** Round trip: a reference to a nested document yields the nested value. */
  lemma RefToNest(parts: seq<string>, leaf: Value)
    requires |parts| > 0
    requires forall k :: 0 <= k < |parts| ==> '/' !in parts[k]
    ensures ResolveRef(RefTo(parts), Nest(parts, leaf)) == Ok(leaf)
  {
    RefToResolves(parts, Nest(parts, leaf));
    WalkNest(parts, leaf);
  }

  /** A pointer into an empty mapping fails on its first key. */
  lemma RefToMissing(parts: seq<string>)
    requires |parts| > 0
    requires forall k :: 0 <= k < |parts| ==> '/' !in parts[k]
    ensures ResolveRef(RefTo(parts), Obj([])) == Err(MissingKey(parts[0]))
  {
    RefToResolves(parts, Obj([]));
  }
}
