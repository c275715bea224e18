/** Go's iteration over a map, whose order the program does not control. */
module GoMaps {
  function Elements<T>(xs: seq<T>): set<T> {
    set x | x in xs
  }

  predicate Distinct<T(==)>(xs: seq<T>) {
    forall i, j :: 0 <= i < j < |xs| ==> xs[i] != xs[j]
  }

  lemma HasKey(keys: set<int>)
    requires keys != {}
    ensures exists k :: k in keys
  {
    if forall k :: k !in keys {
      assert false;
    }
  }

  /** Appending an element not yet listed keeps a list distinct and adds that element. */
  lemma AppendFresh(xs: seq<int>, x: int)
    requires Distinct(xs) && x !in Elements(xs)
    ensures Distinct(xs + [x]) && Elements(xs + [x]) == Elements(xs) + {x}
  {
    assert Elements(xs + [x]) == Elements(xs) + {x};
  }

  /** Go's `range` over a map: every key once, in an order the program does not control. */
  method MapOrder(keys: set<int>) returns (order: seq<int>)
    ensures Elements(order) == keys && Distinct(order) && |order| == |keys|
    ensures forall i :: 0 <= i < |order| ==> order[i] in keys
  {
    var remaining := keys;
    order := [];
    while remaining != {}
      invariant remaining !! Elements(order) && remaining + Elements(order) == keys
      invariant Distinct(order) && |order| + |remaining| == |keys|
      decreases remaining
    {
      HasKey(remaining);
      var key :| key in remaining;
      AppendFresh(order, key);
      order := order + [key];
      remaining := remaining - {key};
    }
  }
}
