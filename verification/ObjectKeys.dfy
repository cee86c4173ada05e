/**
 * JavaScript object keys are strings. Keys that are not array indices are
 * enumerated in the order they were first inserted; a key that is deleted and
 * inserted again moves to the end. A dictionary object is modelled as a `map` together with
 * that insertion order, a sequence listing each of its keys once.
 */
module ObjectKeys {

  /** No key is listed twice. */
  predicate Distinct(keys: seq<string>)
  {
    forall i, j :: 0 <= i < j < |keys| ==> keys[i] != keys[j]
  }

  /** The keys an order lists. */
  function KeySet(keys: seq<string>): set<string>
  {
    set k | k in keys
  }

  /** `keys` is an insertion order of `m`: each key of `m` listed exactly once, nothing else. */
  ghost predicate OrderOf<V>(keys: seq<string>, m: map<string, V>)
  {
    Distinct(keys) && m.Keys == KeySet(keys)
  }

  /** `delete object[key]`: the key leaves the order, the others keep their places. */
  function Without(keys: seq<string>, key: string): (r: seq<string>)
    ensures KeySet(r) == KeySet(keys) - {key}
    ensures key !in keys ==> r == keys
  {
    if keys == [] then []
    else
      var rest := Without(keys[1..], key);
      assert KeySet(keys) == {keys[0]} + KeySet(keys[1..]);
      assert KeySet([keys[0]] + rest) == {keys[0]} + KeySet(rest);
      if keys[0] == key then rest else [keys[0]] + rest
  }

  /** Deleting a key keeps the others listed once each. */
  lemma {:induction false} WithoutDistinct(keys: seq<string>, key: string)
    requires Distinct(keys)
    ensures Distinct(Without(keys, key))
  {
    if keys != [] {
      DistinctTail(keys);
      WithoutDistinct(keys[1..], key);
      assert keys[0] !in KeySet(Without(keys[1..], key));
    }
  }

  /** After `delete object[key]`, the shortened order is an insertion order of the shortened object. */
  lemma DeleteKeepsOrder<V>(m: map<string, V>, keys: seq<string>, key: string)
    requires OrderOf(keys, m)
    ensures OrderOf(Without(keys, key), m - {key})
  {
    WithoutDistinct(keys, key);
    assert (m - {key}).Keys == m.Keys - {key};
  }

  /** After `object[key] = value`, the extended order is an insertion order of the updated object. */
  lemma AssignKeepsOrder<V>(m: map<string, V>, keys: seq<string>, key: string, value: V)
    requires OrderOf(keys, m)
    ensures OrderOf(Inserted(keys, key), m[key := value])
  {
    assert m[key := value].Keys == m.Keys + {key};
  }

  lemma DistinctTail(keys: seq<string>)
    requires keys != [] && Distinct(keys)
    ensures Distinct(keys[1..]) && keys[0] !in keys[1..]
  {
    forall i, j | 0 <= i < j < |keys[1..]| ensures keys[1..][i] != keys[1..][j] {
      assert keys[1..][i] == keys[i + 1] && keys[1..][j] == keys[j + 1];
    }
  }

  /** `object[key] = value`: a new key goes last, an existing one keeps its place. */
  function Inserted(keys: seq<string>, key: string): (r: seq<string>)
    ensures KeySet(r) == KeySet(keys) + {key}
    ensures Distinct(keys) ==> Distinct(r)
  {
    if key in keys then keys else keys + [key]
  }

  /** `Object.values(object)`: the value of each key, in the key order. */
  function Values<V>(m: map<string, V>, keys: seq<string>): (r: seq<V>)
    requires forall k :: k in keys ==> k in m
    ensures |r| == |keys|
    ensures forall i :: 0 <= i < |r| ==> r[i] == m[keys[i]]
  {
    if keys == [] then [] else [m[keys[0]]] + Values(m, keys[1..])
  }

  /** Over an insertion order, `Object.values` lists every stored value once and nothing else. */
  lemma ValuesListEachOnce<V>(m: map<string, V>, keys: seq<string>)
    requires OrderOf(keys, m)
    ensures |Values(m, keys)| == |m.Keys|
    ensures forall k :: k in m ==> m[k] in Values(m, keys)
    ensures forall v :: v in Values(m, keys) ==> v in m.Values
  {
    DistinctSize(keys);
    assert m.Keys == set k | k in keys;
    var r := Values(m, keys);
    forall k | k in m ensures m[k] in r {
      var i :| 0 <= i < |keys| && keys[i] == k;
      assert r[i] == m[k];
    }
    forall v | v in r ensures v in m.Values {
      var i :| 0 <= i < |r| && r[i] == v;
      assert keys[i] in m;
    }
  }

  /** A key order that lists no key twice is as long as the set of its keys. */
  lemma {:induction false} DistinctSize(keys: seq<string>)
    requires Distinct(keys)
    ensures |set k | k in keys| == |keys|
  {
    if keys != [] {
      DistinctTail(keys);
      DistinctSize(keys[1..]);
      assert (set k | k in keys) == {keys[0]} + (set k | k in keys[1..]);
      assert keys[0] !in (set k | k in keys[1..]);
    }
  }
}
