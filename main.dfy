/**
 * The pure part of src/main.rs: the books of the selected exchanges are
 * drained side by side into one merged vector (Coinbase, then Gemini, then
 * Kraken), the vector is sorted into execution order, and both sides are
 * priced for the same target quantity.
 */
module Merger {
  import opened Wrappers
  import opened OrderBooks
  import opened BookSort
  import opened PriceWalk

  /** The quantity both sides are priced for. */
  const TargetQuantity: real := 10.0

  /** What a book contributes to one side of the merge: nothing when it was not selected. */
  function Contribution(book: Option<OrderBook>, side: Side): seq<Order>
  {
    if book.Some? then SideOf(book.value, side) else []
  }

  /** `after` is `before` with its `side` moved out: still present if it was, that side empty, the other untouched. */
  predicate Drained(after: Option<OrderBook>, before: Option<OrderBook>, side: Side)
  {
    after.Some? == before.Some? &&
    Contribution(after, side) == [] &&
    Contribution(after, Opposite(side)) == Contribution(before, Opposite(side))
  }

  /** `merged.append(&mut book.bids)` (or `.asks`) inside `if let Some(book)`. */
  method Append(merged: seq<Order>, book: Option<OrderBook>, side: Side)
    returns (grown: seq<Order>, drained: Option<OrderBook>)
    ensures grown == merged + Contribution(book, side)
    ensures Drained(drained, book, side)
  {
    match book
    case None =>
      grown, drained := merged, None;
    case Some(b) =>
      grown := merged + SideOf(b, side);
      match side
      case Bids => drained := Some(b.(bids := []));
      case Asks => drained := Some(b.(asks := []));
  }

  /**
   * One merge block: the side of each selected book, in the order Coinbase,
   * Gemini, Kraken, moved into a fresh vector.
   */
  method MergeSide(side: Side, coinbase: Option<OrderBook>, gemini: Option<OrderBook>, kraken: Option<OrderBook>)
    returns (merged: seq<Order>, coinbase': Option<OrderBook>, gemini': Option<OrderBook>, kraken': Option<OrderBook>)
    ensures merged == Contribution(coinbase, side) + Contribution(gemini, side) + Contribution(kraken, side)
    ensures |merged| == |Contribution(coinbase, side)| + |Contribution(gemini, side)| + |Contribution(kraken, side)|
    ensures Drained(coinbase', coinbase, side) && Drained(gemini', gemini, side) && Drained(kraken', kraken, side)
  {
    merged := [];
    merged, coinbase' := Append(merged, coinbase, side);
    merged, gemini' := Append(merged, gemini, side);
    merged, kraken' := Append(merged, kraken, side);
  }

  /** Copies the merged vector into an array, where it is sorted in place. */
  method ToArray(s: seq<Order>) returns (a: array<Order>)
    ensures fresh(a) && a[..] == s
  {
    a := new Order[|s|](k requires 0 <= k < |s| => s[k]);
  }

  /**
   * Merge, sort and price both sides: bids sorted by descending price give
   * the price to sell, asks sorted by ascending price the price to buy.
   * The asks are merged after the bids were moved out, which leaves them intact.
   */
  method QuotePrices(coinbase: Option<OrderBook>, gemini: Option<OrderBook>, kraken: Option<OrderBook>)
    returns (sortedBids: seq<Order>, priceToSell: real, sortedAsks: seq<Order>, priceToBuy: real)
    ensures multiset(sortedBids) == multiset(Contribution(coinbase, Bids) + Contribution(gemini, Bids) + Contribution(kraken, Bids))
    ensures multiset(sortedAsks) == multiset(Contribution(coinbase, Asks) + Contribution(gemini, Asks) + Contribution(kraken, Asks))
    ensures forall i, j :: 0 <= i < j < |sortedBids| ==> sortedBids[i].price >= sortedBids[j].price
    ensures forall i, j :: 0 <= i < j < |sortedAsks| ==> sortedAsks[i].price <= sortedAsks[j].price
    ensures sortedBids == StableSort(Bids, Contribution(coinbase, Bids) + Contribution(gemini, Bids) + Contribution(kraken, Bids))
    ensures sortedAsks == StableSort(Asks, Contribution(coinbase, Asks) + Contribution(gemini, Asks) + Contribution(kraken, Asks))
    ensures priceToSell == ExecutionCost(sortedBids, TargetQuantity)
    ensures priceToBuy == ExecutionCost(sortedAsks, TargetQuantity)
  {
    var c, g, k := coinbase, gemini, kraken;
    var mergedBids;
    mergedBids, c, g, k := MergeSide(Bids, c, g, k);
    var bids := ToArray(mergedBids);
    SortInPlace(Bids, bids);
    priceToSell := CalculatePrice(bids, TargetQuantity);
    sortedBids := bids[..];

    var mergedAsks;
    mergedAsks, c, g, k := MergeSide(Asks, c, g, k);
    var asks := ToArray(mergedAsks);
    SortInPlace(Asks, asks);
    priceToBuy := CalculatePrice(asks, TargetQuantity);
    sortedAsks := asks[..];
  }

  /** The sell-side unit test: 5 at 54 then 5 of 6 at 52. */
  lemma SellExample()
    ensures StableSort(Bids, [Order(None, 54.0, 5.0), Order(None, 52.0, 6.0)])
            == [Order(None, 54.0, 5.0), Order(None, 52.0, 6.0)]
    ensures ExecutionCost(StableSort(Bids, [Order(None, 54.0, 5.0), Order(None, 52.0, 6.0)]), 10.0) == 530.0
  {
    var s := [Order(None, 54.0, 5.0), Order(None, 52.0, 6.0)];
    assert InPriorityOrder(Bids, s);
    SortIdempotent(Bids, s);
    assert QtySum(s, 1) == 5.0 && QtySum(s, 2) == 11.0;
    FirstReachUnique(s, 10.0, 1);
  }

  /** The buy-side unit test: the asks are reordered, then 6 at 52 and 4 of 5 at 54. */
  lemma BuyExample()
    ensures StableSort(Asks, [Order(None, 54.0, 5.0), Order(None, 52.0, 6.0)])
            == [Order(None, 52.0, 6.0), Order(None, 54.0, 5.0)]
    ensures ExecutionCost(StableSort(Asks, [Order(None, 54.0, 5.0), Order(None, 52.0, 6.0)]), 10.0) == 528.0
  {
    var a, b := Order(None, 54.0, 5.0), Order(None, 52.0, 6.0);
    assert [a, b][..1] == [a];
    assert StableSort(Asks, [a]) == [a] by { assert [a][..0] == []; }
    assert Insert(Asks, [a], b) == [b, a] by { assert [a][..0] == []; }
    var s := [b, a];
    assert QtySum(s, 1) == 6.0 && QtySum(s, 2) == 11.0;
    FirstReachUnique(s, 10.0, 1);
  }
}
