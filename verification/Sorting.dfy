/** Stable sorting of positions by a key, as `sorted` does it: by key, then by position. */
module Sorting {

  predicate Before(keys: seq<int>, i: nat, j: nat)
    requires i < |keys| && j < |keys|
  {
    keys[i] < keys[j] || (keys[i] == keys[j] && i < j)
  }

  ghost predicate Sorted(keys: seq<int>, order: seq<nat>) {
    && (forall k :: 0 <= k < |order| ==> order[k] < |keys|)
    && (forall a, b :: 0 <= a < b < |order| ==> Before(keys, order[a], order[b]))
  }

  /** `i` put into an ordered list in front of the first position that it precedes. */
  function Insert(keys: seq<int>, order: seq<nat>, i: nat): (r: seq<nat>)
    requires i < |keys| && forall k :: 0 <= k < |order| ==> order[k] < |keys|
    ensures forall x :: x in r <==> x == i || x in order
  {
    if order == [] then [i]
    else if Before(keys, i, order[0]) then [i] + order
    else [order[0]] + Insert(keys, order[1..], i)
  }

  lemma SortedTail(keys: seq<int>, order: seq<nat>)
    requires Sorted(keys, order) && order != []
    ensures Sorted(keys, order[1..])
    ensures forall x :: x in order[1..] ==> x < |keys| && Before(keys, order[0], x)
  {
  }

  lemma SortedCons(keys: seq<int>, first: nat, order: seq<nat>)
    requires Sorted(keys, order) && first < |keys|
    requires forall x :: x in order ==> x < |keys| && Before(keys, first, x)
    ensures Sorted(keys, [first] + order)
  {
    var r := [first] + order;
    forall b | 0 < b < |r|
      ensures r[b] < |keys| && Before(keys, first, r[b])
    {
      assert r[b] == order[b - 1] && order[b - 1] in order;
    }
    assert forall a, b :: 0 < a < b < |r| ==> r[a] == order[a - 1] && r[b] == order[b - 1];
  }

  lemma {:induction false} InsertKeepsOrder(keys: seq<int>, order: seq<nat>, i: nat)
    requires i < |keys| && i !in order && Sorted(keys, order)
    ensures Sorted(keys, Insert(keys, order, i))
  {
    if order != [] {
      SortedTail(keys, order);
      assert order[0] in order;
      assert forall x :: x in order ==> x == order[0] || x in order[1..];
      if Before(keys, i, order[0]) {
        SortedCons(keys, i, order);
      } else {
        InsertKeepsOrder(keys, order[1..], i);
        SortedCons(keys, order[0], Insert(keys, order[1..], i));
      }
    }
  }

  /** The chosen positions among the first `n`, sorted. */
  function SortedIndices(keys: seq<int>, chosen: nat -> bool, n: nat): (order: seq<nat>)
    requires n <= |keys|
    ensures Sorted(keys, order)
    ensures forall i :: i in order <==> 0 <= i < n && chosen(i)
  {
    if n == 0 then []
    else
      var order := SortedIndices(keys, chosen, n - 1);
      if chosen(n - 1) then
        InsertKeepsOrder(keys, order, n - 1);
        Insert(keys, order, n - 1)
      else order
  }
}
