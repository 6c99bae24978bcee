/**
 * Python's `dict` as the core uses it: a finite map that remembers the order
 * in which its keys were first inserted. Assigning to an existing key keeps its
 * place; assigning to a new key puts it last.
 */
module Dicts {
  import opened Wrappers

  /** A key order and the entries; `Dict` below is the well-formed kind. */
  datatype DictRep<K(!new), V> = DictRep(order: seq<K>, entries: map<K, V>) {

    /** Every key appears once in `order`, and `order` lists exactly the keys of `entries`. */
    ghost predicate Valid() {
      && (forall i, j | 0 <= i < j < |order| :: order[i] != order[j])
      && (forall k | k in entries :: k in order)
      && (forall i | 0 <= i < |order| :: order[i] in entries)
    }

    /** `d.get(k)`: the value stored under `k`, or `None` when `k` is absent. */
    function Get(k: K): Option<V> {
      if k in entries then Some(entries[k]) else None
    }

    /** `d[k] = v`. */
    function Put(k: K, v: V): (d: Dict<K, V>)
      requires Valid()
      ensures d.Get(k) == Some(v)
      ensures forall k' | k' != k :: d.Get(k') == Get(k')
      ensures k in entries ==> d.order == order
      ensures k !in entries ==> d.order == order + [k]
    {
      DictRep(if k in entries then order else order + [k], entries[k := v])
    }

    /** The values in key order (`d.values()`). */
    function Values(): (vs: seq<V>)
      requires Valid()
      ensures |vs| == |order|
      ensures forall i | 0 <= i < |order| :: vs[i] == entries[order[i]]
    {
      seq(|order|, i requires 0 <= i < |order| => entries[order[i]])
    }
  }

  /** A Python dict: keys in insertion order, each once. */
  type Dict<K(!new), V> = d: DictRep<K, V> | d.Valid() witness DictRep([], map[])

  /** The key at position `i` is stored, does not occur before `i`, and extends the prefix before it. */
  lemma KeyAt<K(!new), V>(d: Dict<K, V>, i: nat)
    requires i < |d.order|
    ensures d.order[i] in d.entries
    ensures d.order[i] !in d.order[..i]
    ensures d.order[..i + 1] == d.order[..i] + [d.order[i]]
  {
  }

  /** `{}`. */
  function Empty<K(!new), V>(): (d: Dict<K, V>)
    ensures d.order == []
    ensures forall k :: d.Get(k) == None
  {
    DictRep([], map[])
  }
}
