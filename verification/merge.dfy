/** Parameter merging by `(in, name)`. The OpenAPI Specification 3.0 (Path
    Item Object, field `parameters`) identifies a parameter by its name and
    location, and lets an operation override a path-level parameter. Here
    the path-level and operation-level declarations are collected in one
    insertion-ordered dict keyed by location and declared name, so a later
    declaration with the same key replaces the earlier one in its place.
    A value that is not a mapping has no key: it is kept where it stands,
    matches nothing, and is left for the parameter reader to reject. The
    generator as written concatenates the two lists instead
    (`Driver.ParameterList`); this is the corrected definition
    `Driver.BuildOperationMerged` uses.

    The dict operations are stated for any key function `key` and any
    "no key" value `none`; `KeyOf` and `NoKey` are the ones for
    parameter declarations. */
module ParamMerge {
  import opened Results
  import opened Json

  /** `(in, name)` of a declaration, or `NoKey` for a value that is not a
      mapping. */
  datatype Key = Keyed(location: Value, name: Value) | NoKey

  /** The key is read with the defaults the parameter reader applies
      (client_generator.py:119-120): a missing `in` is `query` and a
      missing `name` is `param`, so `{}` is the query parameter `param`. */
  function KeyOf(p: Value): (k: Key)
    ensures k == NoKey <==> !p.Obj?
  {
    if p.Obj? then Keyed(GetOr(p.fields, "in", Str("query")), GetOr(p.fields, "name", Str("param")))
    else NoKey
  }

  /** `a` and `b` carry the same key, and it is a real one. */
  predicate SameKey<T, K(==)>(a: T, b: T, key: T -> K, none: K) {
    key(a) != none && key(a) == key(b)
  }

  /** No two entries share a key; entries without one may repeat. */
  predicate KeysDistinct<T, K(==)>(ps: seq<T>, key: T -> K, none: K) {
    forall i, j :: 0 <= i < j < |ps| ==> !SameKey(ps[i], ps[j], key, none)
  }

  /** `merged[key(p)] = p` on the dict built so far: an entry with the same
      key is replaced where it stands, otherwise `p` is appended. */
  function Upsert<T, K(==)>(acc: seq<T>, p: T, key: T -> K, none: K): (r: seq<T>)
    ensures |acc| <= |r| <= |acc| + 1
    decreases |acc|
  {
    if acc == [] then [p]
    else if SameKey(acc[0], p, key, none) then [p] + acc[1..]
    else [acc[0]] + Upsert(acc[1..], p, key, none)
  }

  /** After the update, `p` is in the dict and every other entry is an old
      one that does not share its key. */
  lemma {:induction false} UpsertEntries<T, K>(acc: seq<T>, p: T, key: T -> K, none: K)
    requires KeysDistinct(acc, key, none)
    ensures p in Upsert(acc, p, key, none)
    ensures forall k :: 0 <= k < |Upsert(acc, p, key, none)| ==>
      || Upsert(acc, p, key, none)[k] == p
      || (Upsert(acc, p, key, none)[k] in acc && !SameKey(Upsert(acc, p, key, none)[k], p, key, none))
    decreases |acc|
  {
    if acc != [] {
      var r := Upsert(acc, p, key, none);
      if SameKey(acc[0], p, key, none) {
        assert r == [p] + acc[1..];
        forall k | 0 < k < |r| ensures r[k] in acc && !SameKey(r[k], p, key, none) {
          assert r[k] == acc[k];
          assert !SameKey(acc[0], acc[k], key, none);
        }
      } else {
        var rest := Upsert(acc[1..], p, key, none);
        assert r == [acc[0]] + rest;
        assert KeysDistinct(acc[1..], key, none);
        UpsertEntries(acc[1..], p, key, none);
        forall k | 0 < k < |r| ensures r[k] == p || (r[k] in acc && !SameKey(r[k], p, key, none)) {
          assert r[k] == rest[k - 1];
          assert forall x :: x in acc[1..] ==> x in acc;
        }
      }
    }
  }

  /** Entries that do not share the key of `p` stay where they are. */
  lemma {:induction false} UpsertKeepsOthers<T, K>(acc: seq<T>, p: T, key: T -> K, none: K)
    ensures forall k :: 0 <= k < |acc| && !SameKey(acc[k], p, key, none) ==>
      Upsert(acc, p, key, none)[k] == acc[k]
    decreases |acc|
  {
    if acc != [] {
      var r := Upsert(acc, p, key, none);
      if SameKey(acc[0], p, key, none) {
        assert forall k :: 1 <= k < |acc| ==> r[k] == acc[k];
      } else {
        UpsertKeepsOthers(acc[1..], p, key, none);
        var rest := Upsert(acc[1..], p, key, none);
        assert forall k :: 1 <= k < |r| ==> r[k] == rest[k - 1];
        assert forall k :: 1 <= k < |acc| ==> acc[k] == acc[1..][k - 1];
      }
    }
  }

  /** The update loses no key: every key of the old dict is still present. */
  lemma UpsertKeepsKeys<T, K>(acc: seq<T>, p: T, key: T -> K, none: K)
    requires KeysDistinct(acc, key, none)
    ensures forall k :: 0 <= k < |acc| ==>
      exists j :: 0 <= j < |Upsert(acc, p, key, none)| && key(Upsert(acc, p, key, none)[j]) == key(acc[k])
  {
    var r := Upsert(acc, p, key, none);
    UpsertKeepsOthers(acc, p, key, none);
    UpsertEntries(acc, p, key, none);
    forall k | 0 <= k < |acc| ensures exists j :: 0 <= j < |r| && key(r[j]) == key(acc[k]) {
      if SameKey(acc[k], p, key, none) {
        var j :| 0 <= j < |r| && r[j] == p;
      } else {
        assert r[k] == acc[k];
      }
    }
  }

  /** The update keeps the keys of the dict distinct. */
  lemma {:induction false} UpsertDistinct<T, K>(acc: seq<T>, p: T, key: T -> K, none: K)
    requires KeysDistinct(acc, key, none)
    ensures KeysDistinct(Upsert(acc, p, key, none), key, none)
    decreases |acc|
  {
    if acc != [] {
      var r := Upsert(acc, p, key, none);
      if SameKey(acc[0], p, key, none) {
        assert r == [p] + acc[1..];
        forall j | 0 < j < |r| ensures !SameKey(r[0], r[j], key, none) {
          assert r[j] == acc[j];
          assert !SameKey(acc[0], acc[j], key, none);
        }
        forall i, j | 0 < i < j < |r| ensures !SameKey(r[i], r[j], key, none) {
          assert r[i] == acc[i] && r[j] == acc[j];
        }
      } else {
        var rest := Upsert(acc[1..], p, key, none);
        assert KeysDistinct(acc[1..], key, none);
        UpsertDistinct(acc[1..], p, key, none);
        UpsertEntries(acc[1..], p, key, none);
        assert r == [acc[0]] + rest;
        forall j | 0 < j < |r| ensures !SameKey(r[0], r[j], key, none) {
          assert r[j] == rest[j - 1];
          if rest[j - 1] != p {
            var m :| 0 <= m < |acc[1..]| && acc[1..][m] == rest[j - 1];
            assert acc[m + 1] == rest[j - 1];
          }
        }
        forall i, j | 0 < i < j < |r| ensures !SameKey(r[i], r[j], key, none) {
          assert r[i] == rest[i - 1] && r[j] == rest[j - 1];
        }
      }
    }
  }

  /** A key not in the dict yet, or no key at all, is appended. */
  lemma {:induction false} UpsertFresh<T, K>(acc: seq<T>, p: T, key: T -> K, none: K)
    requires forall k :: 0 <= k < |acc| ==> !SameKey(acc[k], p, key, none)
    ensures Upsert(acc, p, key, none) == acc + [p]
    decreases |acc|
  {
    if acc != [] {
      UpsertFresh(acc[1..], p, key, none);
      assert acc == [acc[0]] + acc[1..];
    }
  }

  /** The values of the merged dict, in order of first appearance; an
      element without a key is kept in its place. */
  function MergeAll<T, K(==)>(ps: seq<T>, key: T -> K, none: K): (r: seq<T>)
    ensures |r| <= |ps|
    decreases |ps|
  {
    if ps == [] then []
    else Upsert(MergeAll(ps[..|ps| - 1], key, none), ps[|ps| - 1], key, none)
  }

  /** No two entries of the merge share a key. */
  lemma {:induction false} MergeKeysDistinct<T, K>(ps: seq<T>, key: T -> K, none: K)
    ensures KeysDistinct(MergeAll(ps, key, none), key, none)
    decreases |ps|
  {
    if ps != [] {
      var front := ps[..|ps| - 1];
      MergeKeysDistinct(front, key, none);
      UpsertDistinct(MergeAll(front, key, none), ps[|ps| - 1], key, none);
    }
  }

  /** Every element with a key is represented in the merge by an entry with
      that key. */
  lemma MergeKeepsKeys<T, K>(ps: seq<T>, key: T -> K, none: K)
    ensures forall i :: 0 <= i < |ps| && key(ps[i]) != none ==>
      exists k :: 0 <= k < |MergeAll(ps, key, none)| && key(MergeAll(ps, key, none)[k]) == key(ps[i])
  {
    forall i | 0 <= i < |ps| && key(ps[i]) != none
      ensures exists k :: 0 <= k < |MergeAll(ps, key, none)| && key(MergeAll(ps, key, none)[k]) == key(ps[i])
    {
      MergeKeepsKeyAt(ps, i, key, none);
    }
  }

  lemma {:induction false} MergeKeepsKeyAt<T, K>(ps: seq<T>, i: nat, key: T -> K, none: K)
    requires i < |ps| && key(ps[i]) != none
    ensures exists k :: 0 <= k < |MergeAll(ps, key, none)| && key(MergeAll(ps, key, none)[k]) == key(ps[i])
    decreases |ps|
  {
    var front := ps[..|ps| - 1];
    var p := ps[|ps| - 1];
    var m := MergeAll(front, key, none);
    var r := MergeAll(ps, key, none);
    assert r == Upsert(m, p, key, none);
    MergeKeysDistinct(front, key, none);
    if i == |ps| - 1 {
      UpsertEntries(m, p, key, none);
      var k :| 0 <= k < |r| && r[k] == p;
    } else {
      assert ps[i] == front[i];
      MergeKeepsKeyAt(front, i, key, none);
      var k :| 0 <= k < |m| && key(m[k]) == key(front[i]);
      UpsertKeepsKeys(m, p, key, none);
      var j :| 0 <= j < |r| && key(r[j]) == key(m[k]);
    }
  }

  /** Every element without a key is in the merge itself. */
  lemma {:induction false} MergeKeepsKeyless<T, K>(ps: seq<T>, key: T -> K, none: K)
    ensures forall i :: 0 <= i < |ps| && key(ps[i]) == none ==> ps[i] in MergeAll(ps, key, none)
    decreases |ps|
  {
    if ps != [] {
      var front := ps[..|ps| - 1];
      var p := ps[|ps| - 1];
      var m := MergeAll(front, key, none);
      MergeKeepsKeyless(front, key, none);
      var r := Upsert(m, p, key, none);
      assert MergeAll(ps, key, none) == r;
      MergeKeysDistinct(front, key, none);
      UpsertEntries(m, p, key, none);
      UpsertKeepsOthers(m, p, key, none);
      forall i | 0 <= i < |ps| && key(ps[i]) == none ensures ps[i] in r {
        if i < |ps| - 1 {
          assert ps[i] == front[i];
          var k :| 0 <= k < |m| && m[k] == front[i];
          assert !SameKey(m[k], p, key, none);
          assert r[k] == m[k];
        }
      }
    }
  }

  /** `ps[i]` is the last element of `ps` sharing its key. */
  predicate LastWithKey<T, K(==)>(ps: seq<T>, i: int, key: T -> K, none: K) {
    0 <= i < |ps| && forall j :: i < j < |ps| ==> !SameKey(ps[i], ps[j], key, none)
  }

  lemma LastExtends<T, K>(front: seq<T>, p: T, i: int, key: T -> K, none: K)
    requires LastWithKey(front, i, key, none) && !SameKey(front[i], p, key, none)
    ensures LastWithKey(front + [p], i, key, none) && (front + [p])[i] == front[i]
  {
    var ps := front + [p];
    forall j | i < j < |ps| ensures !SameKey(ps[i], ps[j], key, none) {
      if j < |front| { assert ps[j] == front[j]; }
    }
  }

  /** Every entry of the merge is an element of the input, and the last one
      sharing its key: a later declaration overrides an earlier one. */
  lemma {:induction false} MergeTakesLast<T, K>(ps: seq<T>, key: T -> K, none: K)
    ensures forall k :: 0 <= k < |MergeAll(ps, key, none)| ==>
      exists i :: LastWithKey(ps, i, key, none) && MergeAll(ps, key, none)[k] == ps[i]
    decreases |ps|
  {
    if ps != [] {
      var front := ps[..|ps| - 1];
      var p := ps[|ps| - 1];
      var m := MergeAll(front, key, none);
      MergeTakesLast(front, key, none);
      assert ps == front + [p];
      var r := Upsert(m, p, key, none);
      assert MergeAll(ps, key, none) == r;
      MergeKeysDistinct(front, key, none);
      UpsertEntries(m, p, key, none);
      forall k | 0 <= k < |r|
        ensures exists i :: LastWithKey(ps, i, key, none) && r[k] == ps[i]
      {
        if r[k] == p {
          assert LastWithKey(ps, |ps| - 1, key, none);
          assert r[k] == ps[|ps| - 1];
        } else {
          var mk :| 0 <= mk < |m| && m[mk] == r[k];
          var i :| LastWithKey(front, i, key, none) && m[mk] == front[i];
          LastExtends(front, p, i, key, none);
          assert LastWithKey(ps, i, key, none) && r[k] == ps[i];
        }
      }
    } else {
      assert MergeAll(ps, key, none) == [];
    }
  }

  /** Elements no two of which share a key are left as they are. */
  lemma {:induction false} MergeDistinct<T, K>(ps: seq<T>, key: T -> K, none: K)
    requires KeysDistinct(ps, key, none)
    ensures MergeAll(ps, key, none) == ps
    decreases |ps|
  {
    if ps != [] {
      var front := ps[..|ps| - 1];
      var p := ps[|ps| - 1];
      assert KeysDistinct(front, key, none);
      MergeDistinct(front, key, none);
      forall k | 0 <= k < |front| ensures !SameKey(front[k], p, key, none) {
        assert front[k] == ps[k];
      }
      UpsertFresh(front, p, key, none);
      assert front + [p] == ps;
    }
  }

  /** A declaration without `in` is a query parameter, so it is merged with
      an explicit query declaration of the same name: the later one stays. */
  lemma MergeDefaultLocation(x: string)
    ensures var implicit := Obj([("name", Str(x))]);
      var explicit := Obj([("name", Str(x)), ("in", Str("query"))]);
      MergeAll([implicit, explicit], KeyOf, NoKey) == [explicit]
  {
    var implicit := Obj([("name", Str(x))]);
    var explicit := Obj([("name", Str(x)), ("in", Str("query"))]);
    assert !HasKey(implicit.fields, "in");
    assert Get(implicit.fields, "name") == Some(Str(x));
    assert Get(explicit.fields, "in") == Some(Str("query")) by {
      assert explicit.fields[0].0 != "in";
    }
    assert KeyOf(implicit) == KeyOf(explicit) == Keyed(Str("query"), Str(x));
    assert [implicit, explicit][..1] == [implicit];
    assert [implicit][..0] == [];
  }

  /** A declaration repeated verbatim is kept once; a value without a key
      is kept twice. */
  lemma MergeRepeated<T, K>(p: T, key: T -> K, none: K)
    ensures key(p) != none ==> MergeAll([p, p], key, none) == [p]
    ensures key(p) == none ==> MergeAll([p, p], key, none) == [p, p]
  {
    assert [p, p][..1] == [p];
    assert [p][..0] == [];
  }
}
