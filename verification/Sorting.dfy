/** Sorting the elements of a finite set by a strict total order, as Python's sorted does with the keys of a dict. */
module Sorting {
  ghost predicate TotalOn<K(!new)>(keys: set<K>, less: (K, K) -> bool) {
    && (forall x, y :: x in keys && y in keys ==> less(x, y) || less(y, x) || x == y)
    && (forall x, y :: x in keys && y in keys && less(x, y) ==> !less(y, x) && x != y)
    && (forall x, y, z :: x in keys && y in keys && z in keys && less(x, y) && less(y, z) ==> less(x, z))
  }

  /** order lists exactly the keys, each once, in increasing order. */
  ghost predicate SortedListing<K(!new)>(order: seq<K>, keys: set<K>, less: (K, K) -> bool) {
    && (forall k :: k in keys <==> k in order)
    && (forall i, j :: 0 <= i < j < |order| ==> less(order[i], order[j]))
  }

  lemma InsertedAt<K(!new)>(order: seq<K>, keys: set<K>, less: (K, K) -> bool, x: K, at: nat)
    requires SortedListing(order, keys, less) && TotalOn(keys + {x}, less) && x !in keys && at <= |order|
    requires forall i :: 0 <= i < at ==> less(order[i], x)
    requires at < |order| ==> less(x, order[at])
    ensures SortedListing(order[..at] + [x] + order[at..], keys + {x}, less)
  {
    var longer := order[..at] + [x] + order[at..];
    forall k
      ensures k in keys + {x} <==> k in longer
    {
      if k in order {
        var i :| 0 <= i < |order| && order[i] == k;
        assert longer[if i < at then i else i + 1] == k;
      }
      assert longer[at] == x;
    }
    forall i | at <= i < |order|
      ensures less(x, order[i])
    {
      assert order[at] in keys && order[i] in keys;
      assert i > at ==> less(order[at], order[i]);
    }
  }

  method SortSet<K(==, !new)>(keys: set<K>, less: (K, K) -> bool) returns (order: seq<K>)
    requires TotalOn(keys, less)
    ensures SortedListing(order, keys, less)
  {
    order := [];
    var left := keys;
    while left != {}
      invariant left <= keys
      invariant SortedListing(order, keys - left, less)
    {
      var x :| x in left;
      var at := 0;
      while at < |order| && less(order[at], x)
        invariant at <= |order|
        invariant forall i :: 0 <= i < at ==> less(order[i], x)
      {
        at := at + 1;
      }
      assert at < |order| ==> order[at] in keys - left;
      InsertedAt(order, keys - left, less, x, at);
      assert keys - left + {x} == keys - (left - {x});
      left := left - {x};
      order := order[..at] + [x] + order[at..];
    }
    assert keys - {} == keys;
  }
}
