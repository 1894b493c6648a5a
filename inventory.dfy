/**
 * The player's inventory (src/logic/inventory.py): a list of accepted
 * orders, first to last, with a weight cap, a running weight total and
 * count, and a movable cursor (the "current order").
 *
 * The source links Node objects in both directions; here the list is the
 * sequence of orders those nodes link, and the cursor is the index of the
 * current node (-1 when there is none).
 */
module Inventories {
  import opened Common
  import opened Orders
  import Sorting

  /** Sum of the weights of the orders. */
  function SumWeights(s: seq<Order>): nat
  {
    if s == [] then 0 else SumWeights(s[..|s| - 1]) + s[|s| - 1].weight
  }

  lemma {:induction false} SumWeightsAppend(a: seq<Order>, b: seq<Order>)
    ensures SumWeights(a + b) == SumWeights(a) + SumWeights(b)
    decreases |b|
  {
    if b != [] {
      assert (a + b)[..|a + b| - 1] == a + b[..|b| - 1];
      SumWeightsAppend(a, b[..|b| - 1]);
    } else {
      assert a + b == a;
    }
  }

  /** Removing the order at k takes exactly its weight off the total. */
  lemma {:induction false} SumWeightsRemove(s: seq<Order>, k: int)
    requires 0 <= k < |s|
    ensures SumWeights(RemoveAt(s, k)) == SumWeights(s) - s[k].weight
  {
    assert s == s[..k] + [s[k]] + s[k + 1..];
    SumWeightsAppend(s[..k] + [s[k]], s[k + 1..]);
    SumWeightsAppend(s[..k], s[k + 1..]);
    assert (s[..k] + [s[k]])[..k] == s[..k];
  }

  lemma {:induction false} SumWeightsInsert(s: seq<Order>, x: Order, key: Order -> int)
    ensures SumWeights(Sorting.InsertDesc(s, x, key)) == SumWeights(s) + x.weight
    decreases |s|
  {
    if s != [] && key(s[|s| - 1]) < key(x) {
      SumWeightsInsert(s[..|s| - 1], x, key);
      var r := Sorting.InsertDesc(s[..|s| - 1], x, key);
      assert (r + [s[|s| - 1]])[..|r|] == r;
    } else if s != [] {
      assert (s + [x])[..|s|] == s;
    }
  }

  /** Re-ordering does not change the total weight. */
  lemma {:induction false} SumWeightsSort(s: seq<Order>, key: Order -> int)
    ensures SumWeights(Sorting.SortDesc(s, key)) == SumWeights(s)
    decreases |s|
  {
    if s != [] {
      SumWeightsSort(s[..|s| - 1], key);
      SumWeightsInsert(Sorting.SortDesc(s[..|s| - 1], key), s[|s| - 1], key);
    }
  }

  /**
   * Sorting keeps the total weight and the number of orders, and every
   * order's id is still found in the sorted list.
   */
  lemma {:induction false} SortKeepsOrders(s: seq<Order>, key: Order -> int, c: int)
    requires 0 <= c < |s|
    ensures |Sorting.SortDesc(s, key)| == |s|
    ensures SumWeights(Sorting.SortDesc(s, key)) == SumWeights(s)
    ensures exists m :: 0 <= m < |s| && Sorting.SortDesc(s, key)[m].id == s[c].id
  {
    Sorting.SortDescFacts(s, key);
    SumWeightsSort(s, key);
    var sorted := Sorting.SortDesc(s, key);
    assert s[c] in multiset(sorted);
    var m :| 0 <= m < |sorted| && sorted[m] == s[c];
  }

  /** Index of the first order with the given id, or -1. */
  function FindId(s: seq<Order>, id: string): (k: int)
    ensures -1 <= k < |s|
    ensures 0 <= k ==> s[k].id == id && forall j :: 0 <= j < k ==> s[j].id != id
    ensures k == -1 ==> forall j :: 0 <= j < |s| ==> s[j].id != id
  {
    if s == [] then -1
    else if s[0].id == id then 0
    else
      var r := FindId(s[1..], id);
      if r == -1 then -1 else r + 1
  }

  /**
   * Where the cursor is after the node at index k of n nodes is unlinked,
   * when it was at index c: a cursor on the removed node moves to its
   * successor (which then sits at index k), else to its predecessor, else
   * to nothing (-1); any other cursor stays on its node.
   */
  function CursorAfterRemoval(n: nat, k: nat, c: int): (r: int)
    requires k < n && 0 <= c < n
    ensures -1 <= r < n - 1
    ensures r == -1 <==> n == 1
  {
    if c == k then (if k + 1 < n then k else k - 1)
    else if c > k then c - 1
    else c
  }

  /** The cursor keeps pointing at the same order unless that order was removed. */
  lemma CursorFollowsOrder<T>(s: seq<T>, k: int, c: int)
    requires 0 <= k < |s| && 0 <= c < |s| && c != k
    ensures 0 <= CursorAfterRemoval(|s|, k, c) < |s| - 1
    ensures RemoveAt(s, k)[CursorAfterRemoval(|s|, k, c)] == s[c]
  {
  }

  /** A removed current order gives way to its successor if there is one, else its predecessor. */
  lemma CursorOnRemoved<T>(s: seq<T>, k: int)
    requires 0 <= k < |s| && 1 < |s|
    ensures 0 <= CursorAfterRemoval(|s|, k, k) < |s| - 1
    ensures RemoveAt(s, k)[CursorAfterRemoval(|s|, k, k)] == if k + 1 < |s| then s[k + 1] else s[k - 1]
  {
  }

  class Inventory {
    /** The orders of the linked nodes, first to last. */
    var orders: seq<Order>
    /** Index of the current node, -1 when there is none. */
    var cursor: int
    const maxWeight: int
    var currentWeight: int
    var orderCount: int

    ghost predicate Valid()
      reads this
    {
      && -1 <= cursor < |orders|
      && (cursor == -1 <==> orders == [])
      && currentWeight == SumWeights(orders)
      && orderCount == |orders|
      && (orders == [] || currentWeight <= maxWeight)
    }

    /** The order the cursor is on. */
    function CurrentOrder(): (r: Option<Order>)
      reads this
      requires Valid()
      ensures r.None? <==> orders == []
      ensures r.Some? ==> r.value in orders
    {
      if cursor == -1 then None else Some(orders[cursor])
    }

    constructor (maxWeight: int)
      ensures Valid()
      ensures this.maxWeight == maxWeight && orders == [] && cursor == -1
      ensures currentWeight == 0 && orderCount == 0
    {
      orders, cursor := [], -1;
      this.maxWeight := maxWeight;
      currentWeight, orderCount := 0, 0;
    }

    /**
     * Appends the order at the tail unless its weight would take the total
     * over the cap (the source raises ValueError; here `added` is false and
     * nothing changes). The cursor moves to the new order only when the
     * list was empty.
     */
    method AddOrder(order: Order) returns (added: bool)
      requires Valid()
      modifies this
      ensures Valid()
      ensures added <==> old(currentWeight) + order.weight <= maxWeight
      ensures !added ==> unchanged(this)
      ensures added ==>
        && orders == old(orders) + [order]
        && currentWeight == old(currentWeight) + order.weight
        && orderCount == old(orderCount) + 1
        && cursor == (if old(cursor) == -1 then 0 else old(cursor))
    {
      if currentWeight + order.weight > maxWeight {
        return false;
      }
      if orders == [] {
        cursor := 0;
      }
      SumWeightsAppend(orders, [order]);
      orders := orders + [order];
      currentWeight := currentWeight + order.weight;
      orderCount := orderCount + 1;
      added := true;
    }

    /** Moves the cursor one order forward; at the last order (or with no cursor) it stays. */
    method ViewNextOrder()
      requires Valid()
      modifies this`cursor
      ensures Valid()
      ensures cursor == if 0 <= old(cursor) < |orders| - 1 then old(cursor) + 1 else old(cursor)
    {
      if cursor != -1 && cursor + 1 < |orders| {
        cursor := cursor + 1;
      }
    }

    /** Moves the cursor one order back; at the first order (or with no cursor) it stays. */
    method ViewPrevOrder()
      requires Valid()
      modifies this`cursor
      ensures Valid()
      ensures cursor == if 0 < old(cursor) then old(cursor) - 1 else old(cursor)
    {
      if cursor != -1 && cursor > 0 {
        cursor := cursor - 1;
      }
    }

    /**
     * Unlinks the current order and returns it; the cursor moves to its
     * successor, else its predecessor, else to nothing. With no current
     * order it returns None and changes nothing.
     */
    method CompleteCurrentOrder() returns (completed: Option<Order>)
      requires Valid()
      modifies this
      ensures Valid()
      ensures old(cursor) == -1 ==> completed == None && unchanged(this)
      ensures old(cursor) != -1 ==>
        && completed == Some(old(orders[cursor]))
        && orders == RemoveAt(old(orders), old(cursor))
        && cursor == CursorAfterRemoval(|old(orders)|, old(cursor), old(cursor))
        && currentWeight == old(currentWeight) - completed.value.weight
        && orderCount == old(orderCount) - 1
    {
      if cursor == -1 {
        return None;
      }
      var k := cursor;
      completed := Some(orders[k]);
      SumWeightsRemove(orders, k);
      currentWeight := currentWeight - orders[k].weight;
      orderCount := orderCount - 1;
      cursor := CursorAfterRemoval(|orders|, k, k);
      orders := RemoveAt(orders, k);
    }

    /**
     * Walks the list for the first order with the id and unlinks it; the
     * cursor moves (successor, else predecessor) only if it was on that
     * order. Returns false, changing nothing, when no order has the id.
     */
    method RemoveOrderById(id: string) returns (removed: bool)
      requires Valid()
      modifies this
      ensures Valid()
      ensures removed <==> exists i :: 0 <= i < |old(orders)| && old(orders)[i].id == id
      ensures !removed ==> unchanged(this)
      ensures removed ==>
        var k := FindId(old(orders), id);
        && 0 <= k
        && orders == RemoveAt(old(orders), k)
        && cursor == CursorAfterRemoval(|old(orders)|, k, old(cursor))
        && currentWeight == old(currentWeight) - old(orders)[k].weight
        && orderCount == old(orderCount) - 1
    {
      var i := 0;
      var found := false;
      while i < |orders| && !found
        invariant 0 <= i <= |orders|
        invariant !found ==> forall j :: 0 <= j < i ==> orders[j].id != id
        invariant found ==> i < |orders| && orders[i].id == id && forall j :: 0 <= j < i ==> orders[j].id != id
        decreases |orders| - i, if found then 0 else 1
      {
        if orders[i].id == id {
          found := true;
        } else {
          i := i + 1;
        }
      }
      if !found {
        return false;
      }
      assert FindId(orders, id) == i;
      SumWeightsRemove(orders, i);
      currentWeight := currentWeight - orders[i].weight;
      orderCount := orderCount - 1;
      cursor := CursorAfterRemoval(|orders|, i, cursor);
      orders := RemoveAt(orders, i);
      removed := true;
    }

    /**
     * Stable sort by descending key (the source calls Python's list.sort
     * with reverse=True on the collected nodes and relinks them); the cursor
     * is put back on the first order carrying the id of the order it was
     * on. Fewer than two orders: nothing changes.
     */
    method SortInventory(key: Order -> int)
      requires Valid()
      modifies this
      ensures Valid()
      ensures |old(orders)| < 2 ==> unchanged(this)
      ensures |old(orders)| >= 2 ==>
        && orders == Sorting.SortDesc(old(orders), key)
        && currentWeight == old(currentWeight) && orderCount == old(orderCount)
        && 0 <= cursor
        && cursor == FindId(orders, old(orders[cursor]).id)
    {
      if |orders| < 2 {
        return;
      }
      var currentId := orders[cursor].id;

      // collect the orders, first to last
      var list: seq<Order> := [];
      while |list| < |orders|
        invariant |list| <= |orders|
        invariant list == orders[..|list|]
        decreases |orders| - |list|
      {
        list := list + [orders[|list|]];
      }
      assert list == orders;

      SortKeepsOrders(list, key, cursor);
      orders := Sorting.SortDesc(list, key);

      // relocate the cursor by order id
      var k := 0;
      while k < |orders| && orders[k].id != currentId
        invariant 0 <= k <= |orders|
        invariant forall j :: 0 <= j < k ==> orders[j].id != currentId
        decreases |orders| - k
      {
        k := k + 1;
      }
      assert k < |orders|;
      assert FindId(orders, currentId) == k;
      cursor := k;
    }
  }
}
