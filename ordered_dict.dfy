/** A Python dict as the sequence of its items in insertion order: looking a key up finds
    its item, assigning to a present key changes the value where it stands, and assigning
    to an absent key appends the item. */
module OrderedDict {
  import opened Base

  type Dict<K, V> = seq<(K, V)>

  function Keys<K, V>(d: Dict<K, V>): (ks: seq<K>)
    ensures |ks| == |d|
    ensures forall i :: 0 <= i < |d| ==> ks[i] == d[i].0
  {
    seq(|d|, i requires 0 <= i < |d| => d[i].0)
  }

  /** No key occurs twice, as in every Python dict. */
  ghost predicate DistinctKeys<K, V>(d: Dict<K, V>) {
    forall i, j :: 0 <= i < j < |d| ==> d[i].0 != d[j].0
  }

  /** The position of the item whose key is `k`. */
  function IndexOf<K(==), V>(d: Dict<K, V>, k: K): (i: nat)
    requires k in Keys(d)
    ensures i < |d| && d[i].0 == k
    ensures forall j :: 0 <= j < i ==> d[j].0 != k
  {
    if d[0].0 == k then 0
    else
      assert Keys(d) == [d[0].0] + Keys(d[1..]);
      1 + IndexOf(d[1..], k)
  }

  /** `d.get(k)`. */
  function Lookup<K(==), V>(d: Dict<K, V>, k: K): Option<V> {
    if k in Keys(d) then Some(d[IndexOf(d, k)].1) else None
  }

  /** `d[k] = v`. */
  function Put<K(==), V>(d: Dict<K, V>, k: K, v: V): (r: Dict<K, V>) {
    if k in Keys(d) then d[IndexOf(d, k) := (k, v)] else d + [(k, v)]
  }

  /** After `d[k] = v` the dict maps `k` to `v`, every other key as before, and its
      keys are the old ones with `k` appended only when it was absent. */
  lemma PutSemantics<K, V>(d: Dict<K, V>, k: K, v: V)
    ensures Lookup(Put(d, k, v), k) == Some(v)
    ensures forall k' :: k' != k ==> Lookup(Put(d, k, v), k') == Lookup(d, k')
    ensures Keys(Put(d, k, v)) == if k in Keys(d) then Keys(d) else Keys(d) + [k]
  {
    var r := Put(d, k, v);
    if k in Keys(d) {
      assert Keys(r) == Keys(d);
    } else {
      assert Keys(r) == Keys(d) + [k];
    }
    forall k' | k' != k ensures Lookup(r, k') == Lookup(d, k') {
      if k' in Keys(d) {
        assert r[IndexOf(d, k')] == d[IndexOf(d, k')];
      }
    }
  }

  /** Assignment keeps a dict's keys distinct. */
  lemma PutDistinct<K, V>(d: Dict<K, V>, k: K, v: V)
    requires DistinctKeys(d)
    ensures DistinctKeys(Put(d, k, v))
  {
    var r := Put(d, k, v);
    if k !in Keys(d) {
      forall i, j | 0 <= i < j < |r| ensures r[i].0 != r[j].0 {
        if j == |d| { assert d[i].0 in Keys(d); }
      }
    }
  }
}
