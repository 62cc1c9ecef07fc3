/** Python's `dict`: a finite map that remembers the order in which its keys
    were first assigned. Assigning to a key that is already present keeps its
    position and replaces its value. */
module Dicts {

  datatype Dict<K(==,!new), V> = Dict(order: seq<K>, entries: map<K, V>)
  {
    /** Each key is listed once, and exactly the keys of `entries` are listed. */
    ghost predicate Valid() {
      && (forall i, j :: 0 <= i < j < |order| ==> order[i] != order[j])
      && (forall k :: k in entries <==> k in order)
    }

    /** `d[k] = v` */
    function Assign(k: K, v: V): (d: Dict<K, V>)
      requires Valid()
      ensures d.Valid()
      ensures d.entries == entries[k := v]
      ensures k in entries ==> d.order == order
      ensures k !in entries ==> d.order == order + [k]
    {
      if k in entries then Dict(order, entries[k := v]) else Dict(order + [k], entries[k := v])
    }

    /** `list(d.items())` */
    function Items(): (items: seq<(K, V)>)
      requires Valid()
      ensures |items| == |order|
      ensures forall i :: 0 <= i < |items| ==> items[i] == (order[i], entries[order[i]])
      ensures forall i :: 0 <= i < |items| ==> items[i].0 in entries && items[i].1 == entries[items[i].0]
      ensures forall k :: k in entries ==> exists i :: 0 <= i < |items| && items[i].0 == k
    {
      var items := seq(|order|, i requires 0 <= i < |order| => (order[i], entries[order[i]]));
      assert forall k :: k in entries ==> exists i :: 0 <= i < |items| && items[i].0 == k by {
        forall k | k in entries
          ensures exists i :: 0 <= i < |items| && items[i].0 == k
        {
          var i :| 0 <= i < |order| && order[i] == k;
          assert items[i].0 == k;
        }
      }
      items
    }
  }

  /** `{}` */
  function EmptyDict<K(==,!new), V>(): (d: Dict<K, V>)
    ensures d.Valid() && d.entries == map[] && d.order == []
  {
    Dict([], map[])
  }
}
