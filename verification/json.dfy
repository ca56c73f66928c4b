/** The parsed OpenAPI document: the tree `yaml.safe_load` returns, as a
    tagged value. Mappings keep their keys in document order, as a Python
    dict does; numbers are integers only. */
module Json {
  import opened Results

  datatype Value =
    | Null
    | Bool(b: bool)
    | Num(n: int)
    | Str(s: string)
    | Arr(items: seq<Value>)
    | Obj(fields: seq<(string, Value)>)

  /** Python `key in d` for a dict. */
  predicate HasKey(fields: seq<(string, Value)>, key: string) {
    exists i :: 0 <= i < |fields| && fields[i].0 == key
  }

  /** Python `d.get(key)`: the value stored under `key`, if any. */
  function Get(fields: seq<(string, Value)>, key: string): (r: Option<Value>)
    ensures r.Some? <==> HasKey(fields, key)
    ensures r.Some? ==> exists i :: 0 <= i < |fields| && fields[i] == (key, r.value)
  {
    if fields == [] then None
    else if fields[0].0 == key then Some(fields[0].1)
    else
      var r := Get(fields[1..], key);
      assert HasKey(fields, key) <==> HasKey(fields[1..], key) by {
        if HasKey(fields[1..], key) {
          var i :| 0 <= i < |fields[1..]| && fields[1..][i].0 == key;
          assert fields[i + 1].0 == key;
        }
        if HasKey(fields, key) {
          var i :| 0 <= i < |fields| && fields[i].0 == key;
          assert i > 0 && fields[1..][i - 1].0 == key;
        }
      }
      assert r.Some? ==> exists i :: 0 <= i < |fields| && fields[i] == (key, r.value) by {
        if r.Some? {
          var i :| 0 <= i < |fields[1..]| && fields[1..][i] == (key, r.value);
          assert fields[i + 1] == (key, r.value);
        }
      }
      r
  }

  /** The keys of a Python dict are distinct. */
  predicate UniqueKeys(fields: seq<(string, Value)>) {
    forall i, j :: 0 <= i < j < |fields| ==> fields[i].0 != fields[j].0
  }

  /** With distinct keys, `get` finds the value of the one pair with that key. */
  lemma GetUnique(fields: seq<(string, Value)>, key: string)
    ensures UniqueKeys(fields) ==>
      forall i :: 0 <= i < |fields| && fields[i].0 == key ==> Get(fields, key) == Some(fields[i].1)
  {
    if UniqueKeys(fields) {
      forall i | 0 <= i < |fields| && fields[i].0 == key
        ensures Get(fields, key) == Some(fields[i].1)
      {
        assert HasKey(fields, key);
        var r := Get(fields, key);
        var j :| 0 <= j < |fields| && fields[j] == (key, r.value);
        assert i == j;
      }
    }
  }

  /** Python `d.get(key, default)`. */
  function GetOr(fields: seq<(string, Value)>, key: string, default: Value): Value {
    Get(fields, key).GetOr(default)
  }

  /** `d.get(key, default)` is the default exactly when the key is absent,
      and otherwise the value stored under the key. */
  lemma GetOrValue(fields: seq<(string, Value)>, key: string, default: Value)
    ensures !HasKey(fields, key) ==> GetOr(fields, key, default) == default
    ensures UniqueKeys(fields) ==>
      forall i :: 0 <= i < |fields| && fields[i].0 == key ==> GetOr(fields, key, default) == fields[i].1
  {
    GetUnique(fields, key);
  }

  /** Python truthiness of a parsed value. */
  predicate Truthy(v: Value) {
    match v
    case Null => false
    case Bool(b) => b
    case Num(n) => n != 0
    case Str(s) => s != []
    case Arr(items) => items != []
    case Obj(fields) => fields != []
  }
}
