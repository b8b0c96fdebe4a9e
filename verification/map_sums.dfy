/** Sums over the entries of a store. The source adds values up while it walks
    a KV-store iterator or a Go map, whose visiting order it does not control;
    the model takes that order as a sequence of keys and proves the sum equals
    an order-independent sum over the key set. */
module MapSums {

  /** Sum of `f` over a finite set, in no particular order. */
  ghost function SumOver<K(!new)>(keys: set<K>, f: K -> int): int
    decreases |keys|
  {
    if keys == {} then 0
    else
      var k :| k in keys;
      f(k) + SumOver(keys - {k}, f)
  }

  /** Any element can be taken out first. */
  lemma {:induction false} SumOverRemove<K(!new)>(keys: set<K>, f: K -> int, k: K)
    requires k in keys
    ensures SumOver(keys, f) == f(k) + SumOver(keys - {k}, f)
    decreases |keys|
  {
    var j :| j in keys && SumOver(keys, f) == f(j) + SumOver(keys - {j}, f);
    if j != k {
      SumOverRemove(keys - {j}, f, k);
      SumOverRemove(keys - {k}, f, j);
      assert keys - {j} - {k} == keys - {k} - {j};
    }
  }

  /** Functions that agree on the set have the same sum over it. */
  lemma {:induction false} SumOverCongruent<K(!new)>(keys: set<K>, f: K -> int, g: K -> int)
    requires forall k :: k in keys ==> f(k) == g(k)
    ensures SumOver(keys, f) == SumOver(keys, g)
    decreases |keys|
  {
    if keys != {} {
      var k :| k in keys;
      SumOverRemove(keys, f, k);
      SumOverRemove(keys, g, k);
      SumOverCongruent(keys - {k}, f, g);
    }
  }

  /** Summing the indicator of a subset counts the subset. */
  lemma {:induction false} SumOverCounts<K(!new)>(keys: set<K>, f: K -> int, chosen: set<K>)
    requires chosen <= keys
    requires forall k :: k in keys ==> f(k) == if k in chosen then 1 else 0
    ensures SumOver(keys, f) == |chosen|
    decreases |keys|
  {
    if keys != {} {
      var k :| k in keys;
      SumOverRemove(keys, f, k);
      if k in chosen {
        SumOverCounts(keys - {k}, f, chosen - {k});
      } else {
        SumOverCounts(keys - {k}, f, chosen);
      }
    }
  }

  /** The sum of `f` over `order`, left to right: what a loop over an iterator computes. */
  function SumInOrder<K>(order: seq<K>, f: K -> int): (r: int)
    ensures (forall i :: 0 <= i < |order| ==> f(order[i]) >= 0) ==> r >= 0
  {
    if |order| == 0 then 0 else SumInOrder(order[..|order| - 1], f) + f(order[|order| - 1])
  }

  /** `order` lists every key of `keys` exactly once. */
  predicate Enumerates<K>(order: seq<K>, keys: set<K>) {
    (forall i, j :: 0 <= i < j < |order| ==> order[i] != order[j])
    && (forall i :: 0 <= i < |order| ==> order[i] in keys)
    && (forall k :: k in keys ==> k in order)
  }

  /** Whatever order the iterator visits the keys in, the loop computes the same sum. */
  lemma {:induction false} SumInOrderIsSumOver<K(!new)>(order: seq<K>, keys: set<K>, f: K -> int)
    requires Enumerates(order, keys)
    ensures SumInOrder(order, f) == SumOver(keys, f)
    decreases |order|
  {
    if |order| == 0 {
      assert keys == {};
    } else {
      var last := order[|order| - 1];
      var init := order[..|order| - 1];
      assert last !in init by {
        forall i | 0 <= i < |init| ensures init[i] != last {
          assert init[i] == order[i];
        }
      }
      assert Enumerates(init, keys - {last}) by {
        forall k | k in keys - {last} ensures k in init {
          var i :| 0 <= i < |order| && order[i] == k;
          assert i != |order| - 1;
          assert init[i] == k;
        }
      }
      SumInOrderIsSumOver(init, keys - {last}, f);
      SumOverRemove(keys, f, last);
    }
  }

  /** Summing a pointwise-larger function gives a larger sum. */
  lemma {:induction false} SumInOrderMonotone<K>(order: seq<K>, f: K -> int, g: K -> int)
    requires forall i :: 0 <= i < |order| ==> f(order[i]) <= g(order[i])
    ensures SumInOrder(order, f) <= SumInOrder(order, g)
    decreases |order|
  {
    if |order| > 0 {
      SumInOrderMonotone(order[..|order| - 1], f, g);
    }
  }
}
