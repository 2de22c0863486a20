/** Python dictionaries as ordered association lists.

    A Python `dict` remembers insertion order: assigning `d[k] = v` to a key
    already present replaces its value in place, and a new key goes to the end.
    `dict(items)` performs those assignments left to right, so the value that
    survives for a key is the one that came last in `items`.
 */
module Dicts {

  datatype Option<+T> = None | Some(value: T)

  datatype Result<+R, +E> = Ok(value: R) | Err(error: E)

  /** The value a dictionary holds for `k` (Python `d.get(k)`, with `None`
      for a missing key). */
  function Lookup<K(==), V>(d: seq<(K, V)>, k: K): (r: Option<V>)
    ensures r.Some? <==> exists i :: 0 <= i < |d| && d[i].0 == k
    ensures r.Some? ==> (k, r.value) in d
  {
    if d == [] then None
    else if d[0].0 == k then Some(d[0].1)
    else
      assert forall i :: 1 <= i < |d| ==> d[i] == d[1..][i - 1];
      Lookup(d[1..], k)
  }

  /** No key occurs twice: the invariant every Python dict keeps. */
  predicate DistinctKeys<K(==), V>(d: seq<(K, V)>) {
    forall i, j :: 0 <= i < j < |d| ==> d[i].0 != d[j].0
  }

  /** `d[k] = v`: replace the value of `k` where it stands, or append it. */
  function Insert<K(==), V>(d: seq<(K, V)>, k: K, v: V): seq<(K, V)> {
    if d == [] then [(k, v)]
    else if d[0].0 == k then [(k, v)] + d[1..]
    else [d[0]] + Insert(d[1..], k, v)
  }

  /** The keys in iteration order. */
  function Keys<K, V>(d: seq<(K, V)>): (ks: seq<K>)
    ensures |ks| == |d| && forall i :: 0 <= i < |d| ==> ks[i] == d[i].0
  {
    if d == [] then [] else [d[0].0] + Keys(d[1..])
  }

  /** `dict(items)`: insert the pairs one after the other. */
  function DictOf<K(==), V>(items: seq<(K, V)>): seq<(K, V)> {
    if items == [] then []
    else Insert(DictOf(items[..|items| - 1]), items[|items| - 1].0, items[|items| - 1].1)
  }

  /** Reference meaning of `dict(items)[k]`: the value of the last pair for `k`. */
  function LastValue<K(==), V>(items: seq<(K, V)>, k: K): Option<V> {
    if items == [] then None
    else if items[|items| - 1].0 == k then Some(items[|items| - 1].1)
    else LastValue(items[..|items| - 1], k)
  }

  lemma {:induction false} InsertLookup<K, V>(d: seq<(K, V)>, k: K, v: V, k': K)
    ensures Lookup(Insert(d, k, v), k') == if k' == k then Some(v) else Lookup(d, k')
  {
    if d != [] && d[0].0 != k {
      InsertLookup(d[1..], k, v, k');
    }
  }

  /** Every pair of `Insert(d, k, v)` is the new pair or an old one. */
  lemma {:induction false} InsertEntries<K, V>(d: seq<(K, V)>, k: K, v: V)
    ensures forall e :: e in Insert(d, k, v) ==> e == (k, v) || e in d
  {
    if d != [] && d[0].0 != k {
      InsertEntries(d[1..], k, v);
    }
  }

  /** Assigning to a key already present keeps the keys and their order. */
  lemma {:induction false} InsertPresentKeys<K, V>(d: seq<(K, V)>, k: K, v: V)
    requires Lookup(d, k).Some?
    ensures Keys(Insert(d, k, v)) == Keys(d)
  {
    if d[0].0 != k {
      InsertPresentKeys(d[1..], k, v);
    }
  }

  /** Inserting a key that is absent appends it. */
  lemma {:induction false} InsertAbsent<K, V>(d: seq<(K, V)>, k: K, v: V)
    requires forall i :: 0 <= i < |d| ==> d[i].0 != k
    ensures Insert(d, k, v) == d + [(k, v)]
  {
    if d != [] {
      InsertAbsent(d[1..], k, v);
    }
  }

  lemma {:induction false} InsertDistinct<K, V>(d: seq<(K, V)>, k: K, v: V)
    requires DistinctKeys(d)
    ensures DistinctKeys(Insert(d, k, v))
  {
    if d != [] && d[0].0 != k {
      InsertDistinct(d[1..], k, v);
      var r := Insert(d, k, v);
      forall j | 0 < j < |r| ensures r[0].0 != r[j].0 {
        InsertLookupKeys(d[1..], k, v, r[j].0);
      }
    }
  }

  /** The keys of `Insert(d, k, v)` are those of `d` and `k`. */
  lemma InsertLookupKeys<K, V>(d: seq<(K, V)>, k: K, v: V, k': K)
    ensures Lookup(Insert(d, k, v), k').Some? <==> k' == k || Lookup(d, k').Some?
  {
    InsertLookup(d, k, v, k');
  }

  /** `dict(items)[k]` is the value of the last pair for `k`: later pairs win. */
  lemma {:induction false} DictOfLookup<K, V>(items: seq<(K, V)>, k: K)
    ensures Lookup(DictOf(items), k) == LastValue(items, k)
  {
    if items != [] {
      var n := |items| - 1;
      DictOfLookup(items[..n], k);
      InsertLookup(DictOf(items[..n]), items[n].0, items[n].1, k);
    }
  }

  /** A dict holds each key once, whatever `items` was. */
  lemma {:induction false} DictOfDistinct<K, V>(items: seq<(K, V)>)
    ensures DistinctKeys(DictOf(items))
  {
    if items != [] {
      var n := |items| - 1;
      DictOfDistinct(items[..n]);
      InsertDistinct(DictOf(items[..n]), items[n].0, items[n].1);
    }
  }

  /** Every pair of `dict(items)` is one of the pairs of `items`. */
  lemma {:induction false} DictOfEntries<K, V>(items: seq<(K, V)>)
    ensures forall e :: e in DictOf(items) ==> e in items
  {
    if items != [] {
      var n := |items| - 1;
      DictOfEntries(items[..n]);
      InsertEntries(DictOf(items[..n]), items[n].0, items[n].1);
      assert items == items[..n] + [items[n]];
    }
  }

  /** When no key repeats, `dict(items)` keeps every pair, in order. */
  lemma {:induction false} DictOfIdentity<K, V>(items: seq<(K, V)>)
    requires DistinctKeys(items)
    ensures DictOf(items) == items
  {
    if items != [] {
      var n := |items| - 1;
      var prefix := items[..n];
      assert DistinctKeys(prefix);
      DictOfIdentity(prefix);
      assert forall i :: 0 <= i < |prefix| ==> prefix[i].0 != items[n].0;
      InsertAbsent(prefix, items[n].0, items[n].1);
      assert items == prefix + [items[n]];
    }
  }
}
