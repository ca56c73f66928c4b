/** A Python `dict` with string keys, as the client builds its request
    parameters: an insertion-ordered list of entries whose keys are
    distinct. Assigning to a key that is present replaces its value in
    place; assigning to a new key appends it. */
module PyDict {
  import opened Results

  type Dict<V> = seq<(string, V)>

  function Keys<V>(d: Dict<V>): (r: seq<string>)
    ensures |r| == |d|
    ensures forall i :: 0 <= i < |d| ==> r[i] == d[i].0
  {
    seq(|d|, i requires 0 <= i < |d| => d[i].0)
  }

  /** What every Python dict satisfies. */
  predicate DistinctKeys<V>(d: Dict<V>) {
    forall i, j :: 0 <= i < j < |d| ==> d[i].0 != d[j].0
  }

  /** `d.get(key)`. */
  function Lookup<V>(d: Dict<V>, key: string): (r: Option<V>)
    ensures r.Some? <==> key in Keys(d)
    ensures DistinctKeys(d) ==> forall i :: 0 <= i < |d| && d[i].0 == key ==> r == Some(d[i].1)
  {
    if d == [] then None
    else if d[0].0 == key then Some(d[0].1)
    else
      assert forall i :: 1 <= i < |d| ==> d[1..][i - 1] == d[i];
      assert Keys(d) == [d[0].0] + Keys(d[1..]);
      Lookup(d[1..], key)
  }

  /** `d[key] = value`. */
  function Set<V>(d: Dict<V>, key: string, value: V): (r: Dict<V>)
    requires DistinctKeys(d)
    ensures DistinctKeys(r)
    ensures Keys(r) == if key in Keys(d) then Keys(d) else Keys(d) + [key]
    ensures Keys(d) <= Keys(r)
    ensures Lookup(r, key) == Some(value)
    ensures forall k :: k != key ==> Lookup(r, k) == Lookup(d, k)
  {
    if key in Keys(d) then
      var r := seq(|d|, i requires 0 <= i < |d| => if d[i].0 == key then (key, value) else d[i]);
      assert Keys(r) == Keys(d);
      var i :| 0 <= i < |d| && d[i].0 == key;
      assert r[i] == (key, value);
      r
    else
      var r := d + [(key, value)];
      assert Keys(r) == Keys(d) + [key];
      assert r[|d|] == (key, value);
      r
  }

  /** One `if present: d[key] = value` statement. */
  datatype Assignment<V> = Assignment(key: string, present: bool, value: V)

  function AssignedKeys<V>(steps: seq<Assignment<V>>): (r: seq<string>)
    ensures |r| == |steps|
    ensures forall i :: 0 <= i < |steps| ==> r[i] == steps[i].key
  {
    seq(|steps|, i requires 0 <= i < |steps| => steps[i].key)
  }

  predicate DistinctStrings(xs: seq<string>) {
    forall i, j :: 0 <= i < j < |xs| ==> xs[i] != xs[j]
  }

  /** No key is assigned by two statements. */
  predicate DistinctAssigned<V>(steps: seq<Assignment<V>>) {
    forall i, j :: 0 <= i < j < |steps| ==> steps[i].key != steps[j].key
  }

  lemma DistinctAssignedKeys<V>(steps: seq<Assignment<V>>)
    requires DistinctStrings(AssignedKeys(steps))
    ensures DistinctAssigned(steps)
  {
    forall i, j | 0 <= i < j < |steps| ensures steps[i].key != steps[j].key {
      assert AssignedKeys(steps)[i] == steps[i].key && AssignedKeys(steps)[j] == steps[j].key;
    }
  }

  /** One statement. */
  function Step<V>(d: Dict<V>, s: Assignment<V>): (r: Dict<V>)
    requires DistinctKeys(d)
    ensures DistinctKeys(r)
    ensures Keys(d) <= Keys(r)
  {
    if s.present then Set(d, s.key, s.value) else d
  }

  lemma StepLookup<V>(d: Dict<V>, s: Assignment<V>, k: string)
    requires DistinctKeys(d)
    ensures Lookup(Step(d, s), k) == if s.present && k == s.key then Some(s.value) else Lookup(d, k)
  {
  }

  lemma StepFresh<V>(d: Dict<V>, s: Assignment<V>)
    requires DistinctKeys(d) && s.key !in Keys(d)
    ensures Step(d, s) == d + (if s.present then [(s.key, s.value)] else [])
  {
  }

  /** The statements run one after the other. */
  function Run<V>(d: Dict<V>, steps: seq<Assignment<V>>): (r: Dict<V>)
    requires DistinctKeys(d)
    ensures DistinctKeys(r)
    ensures Keys(d) <= Keys(r)
    decreases |steps|
  {
    if steps == [] then d else Run(Step(d, steps[0]), steps[1..])
  }

  /** Keys no statement assigns keep their value. */
  lemma {:induction false} RunFrame<V>(d: Dict<V>, steps: seq<Assignment<V>>, k: string)
    requires DistinctKeys(d)
    requires forall p :: 0 <= p < |steps| ==> steps[p].key != k
    ensures Lookup(Run(d, steps), k) == Lookup(d, k)
    decreases |steps|
  {
    if steps != [] {
      var d1 := Step(d, steps[0]);
      var rest := steps[1..];
      assert forall p :: 0 <= p < |rest| ==> rest[p] == steps[p + 1];
      RunFrame(d1, rest, k);
      StepLookup(d, steps[0], k);
    }
  }

  /** With distinct keys, the i-th statement decides its key: the value it
      assigns when it runs, the old value when it does not. */
  lemma {:induction false} RunAt<V>(d: Dict<V>, steps: seq<Assignment<V>>, i: nat)
    requires DistinctKeys(d)
    requires DistinctAssigned(steps)
    requires i < |steps|
    ensures Lookup(Run(d, steps), steps[i].key)
         == if steps[i].present then Some(steps[i].value) else Lookup(d, steps[i].key)
    decreases |steps|
  {
    var s := steps[0];
    var d1 := Step(d, s);
    var rest := steps[1..];
    var k := steps[i].key;
    assert forall p :: 0 <= p < |rest| ==> rest[p] == steps[p + 1];
    if i == 0 {
      RunFrame(d1, rest, k);
    } else {
      assert s.key != k;
      RunAt(d1, rest, i - 1);
    }
    StepLookup(d, s, k);
  }

  /** When no assigned key was in the dict beforehand, each one ends up
      present exactly when its statement runs. */
  lemma RunFresh<V>(d: Dict<V>, steps: seq<Assignment<V>>, i: nat)
    requires DistinctKeys(d)
    requires DistinctStrings(AssignedKeys(steps))
    requires forall p :: 0 <= p < |steps| ==> Lookup(d, steps[p].key) == None
    requires i < |steps|
    ensures Lookup(Run(d, steps), steps[i].key)
         == if steps[i].present then Some(steps[i].value) else None
  {
    DistinctAssignedKeys(steps);
    RunAt(d, steps, i);
  }

  /** The entries of the statements that run, in order. */
  function Present<V>(steps: seq<Assignment<V>>): (r: Dict<V>)
    ensures |r| <= |steps|
    decreases |steps|
  {
    if steps == [] then []
    else (if steps[0].present then [(steps[0].key, steps[0].value)] else []) + Present(steps[1..])
  }

  lemma {:induction false} PresentAppend<V>(xs: seq<Assignment<V>>, ys: seq<Assignment<V>>)
    ensures Present(xs + ys) == Present(xs) + Present(ys)
    decreases |xs|
  {
    if xs != [] {
      assert (xs + ys)[1..] == xs[1..] + ys;
      PresentAppend(xs[1..], ys);
      var head := if xs[0].present then [(xs[0].key, xs[0].value)] else [];
      ConcatAssoc(head, Present(xs[1..]), Present(ys));
    } else {
      assert xs + ys == ys;
    }
  }

  lemma {:induction false} PresentNone<V>(steps: seq<Assignment<V>>)
    requires forall p :: 0 <= p < |steps| ==> !steps[p].present
    ensures Present(steps) == []
    decreases |steps|
  {
    if steps != [] {
      PresentNone(steps[1..]);
    }
  }

  /** Statements on keys that are new to the dict and to each other append
      their entries in order: the dict afterwards is the old one followed by
      the entries of the statements that ran. */
  lemma RunAppends<V>(d: Dict<V>, steps: seq<Assignment<V>>)
    requires DistinctKeys(d)
    requires DistinctStrings(AssignedKeys(steps))
    requires forall p :: 0 <= p < |steps| ==> steps[p].key !in Keys(d)
    ensures Run(d, steps) == d + Present(steps)
  {
    DistinctAssignedKeys(steps);
    RunAppendsDistinct(d, steps);
  }

  lemma {:induction false} RunAppendsDistinct<V>(d: Dict<V>, steps: seq<Assignment<V>>)
    requires DistinctKeys(d)
    requires DistinctAssigned(steps)
    requires forall p :: 0 <= p < |steps| ==> steps[p].key !in Keys(d)
    ensures Run(d, steps) == d + Present(steps)
    decreases |steps|
  {
    if steps != [] {
      var s := steps[0];
      var rest := steps[1..];
      var head := if s.present then [(s.key, s.value)] else [];
      StepFresh(d, s);
      var d1 := Step(d, s);
      assert Keys(d1) == Keys(d) + Keys(head);
      assert forall p :: 0 <= p < |rest| ==> rest[p] == steps[p + 1];
      forall p | 0 <= p < |rest| ensures rest[p].key !in Keys(d1) {
        assert rest[p].key != s.key;
      }
      RunAppendsDistinct(d1, rest);
      assert Present(steps) == head + Present(rest);
      ConcatAssoc(d, head, Present(rest));
    }
  }

  /** Two assignments to new, different keys append both entries. */
  lemma SetTwoFresh<V>(d: Dict<V>, k1: string, v1: V, k2: string, v2: V)
    requires DistinctKeys(d)
    requires k1 !in Keys(d) && k2 !in Keys(d) && k1 != k2
    ensures Set(Set(d, k1, v1), k2, v2) == d + [(k1, v1), (k2, v2)]
  {
    var d1 := Set(d, k1, v1);
    assert d1 == d + [(k1, v1)];
    assert k2 !in Keys(d1);
    assert Set(d1, k2, v2) == d1 + [(k2, v2)];
    assert [(k1, v1), (k2, v2)] == [(k1, v1)] + [(k2, v2)];
    ConcatAssoc(d, [(k1, v1)], [(k2, v2)]);
  }

  lemma ConcatAssoc<T>(a: seq<T>, b: seq<T>, c: seq<T>)
    ensures (a + b) + c == a + (b + c)
  {
  }
}
