/**
 * The entry a url-keyed map keeps when it is filled by one `set` per
 * element: the last element with that key.
 */
module Keyed {

  /** The key of each element, in order. */
  function Project<T, K>(xs: seq<T>, key: T -> K): (ks: seq<K>)
    ensures |ks| == |xs|
    ensures forall i | 0 <= i < |xs| :: ks[i] == key(xs[i])
  {
    seq(|xs|, i requires 0 <= i < |xs| => key(xs[i]))
  }

  /** `keys[i]` is the last occurrence of its key. */
  predicate IsLast<K(==)>(keys: seq<K>, i: int)
  {
    0 <= i < |keys| && forall j | i < j < |keys| :: keys[j] != keys[i]
  }

  /** Index of the last occurrence of `k`. */
  function LastIndex<K(==)>(keys: seq<K>, k: K): (i: nat)
    requires k in keys
    ensures IsLast(keys, i) && keys[i] == k
  {
    if keys[|keys| - 1] == k then |keys| - 1 else LastIndex(keys[..|keys| - 1], k)
  }

  /** Extending the keys by one: the new key is its own last occurrence, others keep theirs. */
  lemma IsLastAppend<K>(keys: seq<K>, x: K, i: int)
    ensures IsLast(keys + [x], i) <==> i == |keys| || (IsLast(keys, i) && keys[i] != x)
  {
    var ks := keys + [x];
    if 0 <= i < |keys| {
      assert ks[i] == keys[i] && ks[|keys|] == x;
      assert forall j | 0 <= j < |keys| :: ks[j] == keys[j];
      assert (forall j | i < j < |ks| :: ks[j] != ks[i])
         <==> (forall j | i < j < |keys| :: keys[j] != keys[i]) && keys[i] != x;
    }
  }
}
