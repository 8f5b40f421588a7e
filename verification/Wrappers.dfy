/** Outcomes and finite maps shared by every module. */
module Wrappers {

  datatype Option<+T> = None | Some(value: T)

  datatype Result<+T, +E> = Success(value: T) | Failure(error: E)

  /** The map that takes every key to its value under `f`. */
  ghost function Tabulate<K(!new), V>(keys: set<K>, f: K --> V): (r: map<K, V>)
    requires forall k | k in keys :: f.requires(k)
    ensures r.Keys == keys
    ensures forall k | k in keys :: r[k] == f(k)
  {
    if keys == {} then map[] else
      var k :| k in keys;
      Tabulate(keys - {k}, f)[k := f(k)]
  }

  lemma SameMap<K, V>(a: map<K, V>, b: map<K, V>)
    requires forall k | k in a :: k in b && a[k] == b[k]
    requires forall k | k in b :: k in a
    ensures a == b
  {
    assert a.Keys == b.Keys;
  }

  lemma {:induction false} LongerThanAll(keys: set<string>) returns (n: nat)
    ensures forall k | k in keys :: |k| < n
  {
    if keys == {} {
      n := 0;
    } else {
      var k :| k in keys;
      var rest := LongerThanAll(keys - {k});
      n := if |k| < rest then rest else |k| + 1;
    }
  }
}
