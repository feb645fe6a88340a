/** JavaScript's `Map`: a finite map that remembers the order in which its keys were inserted. Overwriting a key keeps
    its place; deleting and inserting it again moves it to the end. */
module OrderedMaps {
  import opened Sequences
  import opened Wrappers

  datatype OrderedMap<K(==), V> = OrderedMap(order: seq<K>, vals: map<K, V>) {

    ghost predicate Valid() {
      Distinct(order) && Elements(order) == vals.Keys
    }

    function Get(key: K): Option<V> {
      if key in vals then Some(vals[key]) else None
    }

    function Set(key: K, value: V): (m: OrderedMap<K, V>)
      requires Valid()
      ensures m.Valid()
    {
      OrderedMap(if key in vals then order else order + [key], vals[key := value])
    }

    function Delete(key: K): (m: OrderedMap<K, V>)
      requires Valid()
      ensures m.Valid()
      ensures |m.order| == |order| - if key in vals then 1 else 0
    {
      WithoutDistinct(order, key);
      WithoutAbsentWhenMissing(key);
      OrderedMap(Without(order, key), vals - {key})
    }

    lemma WithoutAbsentWhenMissing(key: K)
      requires Valid()
      ensures key !in vals ==> Without(order, key) == order
    {
      if key !in vals {
        WithoutAbsent(order, key);
      }
    }

    /** Delete and insert again: the least-recently-used touch. */
    function MoveToEnd(key: K, value: V): (m: OrderedMap<K, V>)
      requires Valid()
      ensures m.Valid()
      ensures m.order == Without(order, key) + [key]
      ensures m.vals == vals[key := value]
    {
      assert (vals - {key})[key := value] == vals[key := value];
      Delete(key).Set(key, value)
    }
  }

  function Empty<K(==), V>(): (m: OrderedMap<K, V>)
    ensures m.Valid()
  {
    OrderedMap([], map[])
  }
}
