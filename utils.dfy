/**
 * The execution-price walker (`calculate_price`, src/utils.rs): walk an
 * execution-ordered book from the front, consuming whole levels until the
 * next level would reach the target quantity, then only the remainder of
 * that level.
 */
module PriceWalk {
  import opened Wrappers
  import opened OrderBooks

  /** Total quantity of the first `n` levels. */
  function QtySum(s: seq<Order>, n: nat): real
    requires n <= |s|
  {
    if n == 0 then 0.0 else QtySum(s, n - 1) + s[n - 1].quantity
  }

  /** Total notional (price times quantity) of the first `n` levels. */
  function NotionalSum(s: seq<Order>, n: nat): real
    requires n <= |s|
  {
    if n == 0 then 0.0 else NotionalSum(s, n - 1) + s[n - 1].price * s[n - 1].quantity
  }

  predicate NonNegativeQuantities(s: seq<Order>)
  {
    forall i :: 0 <= i < |s| ==> 0.0 <= s[i].quantity
  }

  /** Searches from `i` for the level at which the cumulative quantity reaches `target`. */
  function FirstReachFrom(s: seq<Order>, target: real, i: nat): (k: nat)
    requires i <= |s|
    requires forall n :: 1 <= n <= i ==> QtySum(s, n) < target
    ensures i <= k <= |s|
    ensures forall n :: 1 <= n <= k ==> QtySum(s, n) < target
    ensures k < |s| ==> target <= QtySum(s, k + 1)
    decreases |s| - i
  {
    if i == |s| then i
    else if target <= QtySum(s, i + 1) then i
    else FirstReachFrom(s, target, i + 1)
  }

  /**
   * The index of the level where the walk stops: the first `k` whose
   * cumulative quantity through level `k` reaches `target`, or `|s|` when
   * no level does.
   */
  function FirstReach(s: seq<Order>, target: real): (k: nat)
    ensures k <= |s|
    ensures forall n :: 1 <= n <= k ==> QtySum(s, n) < target
    ensures k < |s| ==> target <= QtySum(s, k + 1)
  {
    FirstReachFrom(s, target, 0)
  }

  /** The stopping index is the unique index with the two properties above. */
  lemma FirstReachUnique(s: seq<Order>, target: real, k: nat)
    requires k <= |s|
    requires forall n :: 1 <= n <= k ==> QtySum(s, n) < target
    requires k < |s| ==> target <= QtySum(s, k + 1)
    ensures FirstReach(s, target) == k
  {
  }

  /**
   * The notional cost of filling `target` units: every level before the
   * stopping level in full, then the stopping level for the remainder;
   * every level in full when the book runs out first.
   */
  function ExecutionCost(s: seq<Order>, target: real): real
  {
    var k := FirstReach(s, target);
    if k < |s| then NotionalSum(s, k) + s[k].price * (target - QtySum(s, k))
    else NotionalSum(s, |s|)
  }

  /** `calculate_price`: the loop of the source, with its early `break`. */
  method CalculatePrice(orderBook: array<Order>, quantity: real) returns (totalPrice: real)
    ensures totalPrice == ExecutionCost(orderBook[..], quantity)
  {
    ghost var s := orderBook[..];
    var totalQuantity := 0.0;
    totalPrice := 0.0;
    var i := 0;
    while i < orderBook.Length
      invariant 0 <= i <= orderBook.Length
      invariant totalQuantity == QtySum(s, i)
      invariant totalPrice == NotionalSum(s, i)
      invariant forall n :: 1 <= n <= i ==> QtySum(s, n) < quantity
    {
      var order := orderBook[i];
      if totalQuantity + order.quantity >= quantity {
        var leftover := (totalQuantity + order.quantity) - quantity;
        totalPrice := totalPrice + (order.quantity - leftover) * order.price;
        FirstReachUnique(s, quantity, i);
        return;
      } else {
        totalPrice := totalPrice + order.price * order.quantity;
        totalQuantity := totalQuantity + order.quantity;
      }
      i := i + 1;
    }
    FirstReachUnique(s, quantity, i);
  }

  /** With non-negative quantities the cumulative quantity never decreases. */
  lemma {:induction false} QtySumMonotone(s: seq<Order>, m: nat, n: nat)
    requires NonNegativeQuantities(s)
    requires m <= n <= |s|
    ensures QtySum(s, m) <= QtySum(s, n)
  {
    if m < n {
      QtySumMonotone(s, m, n - 1);
    }
  }

  /**
   * The amount taken from the stopping level, `quantity - leftover` in the
   * source, is the remainder `target - filled`, and lies in (0, quantity].
   */
  lemma FinalLevelShare(s: seq<Order>, target: real)
    requires 0.0 < target
    requires FirstReach(s, target) < |s|
    ensures var k := FirstReach(s, target);
      var leftover := (QtySum(s, k) + s[k].quantity) - target;
      s[k].quantity - leftover == target - QtySum(s, k) &&
      0.0 < target - QtySum(s, k) <= s[k].quantity
  {
    var k := FirstReach(s, target);
    if 0 < k {
      assert QtySum(s, k) < target;
    }
  }

  /** How much of level `i` the walk consumes. */
  function Taken(s: seq<Order>, target: real, i: nat): real
    requires i < |s|
  {
    var k := FirstReach(s, target);
    if i < k then s[i].quantity
    else if i == k then target - QtySum(s, k)
    else 0.0
  }

  /** Quantity consumed from the first `n` levels. */
  function TakenSum(s: seq<Order>, target: real, n: nat): real
    requires n <= |s|
  {
    if n == 0 then 0.0 else TakenSum(s, target, n - 1) + Taken(s, target, n - 1)
  }

  /** Notional paid for the first `n` levels: each price times the amount taken at it. */
  function TakenCost(s: seq<Order>, target: real, n: nat): real
    requires n <= |s|
  {
    if n == 0 then 0.0 else TakenCost(s, target, n - 1) + s[n - 1].price * Taken(s, target, n - 1)
  }

  lemma {:induction false} TakenPrefix(s: seq<Order>, target: real, n: nat)
    requires n <= |s|
    ensures var k := FirstReach(s, target);
      if n <= k then TakenSum(s, target, n) == QtySum(s, n) && TakenCost(s, target, n) == NotionalSum(s, n)
      else TakenSum(s, target, n) == target
           && TakenCost(s, target, n) == NotionalSum(s, k) + s[k].price * (target - QtySum(s, k))
  {
    if n > 0 {
      TakenPrefix(s, target, n - 1);
    }
  }

  /** The result is the sum, over all levels, of price times the amount taken there. */
  lemma CostIsSumOfTaken(s: seq<Order>, target: real)
    ensures ExecutionCost(s, target) == TakenCost(s, target, |s|)
  {
    TakenPrefix(s, target, |s|);
  }

  /**
   * Each level gives at most its own quantity, levels after the stopping
   * level give nothing, and the total taken is min(target, liquidity).
   */
  lemma TakenIsMinOfTargetAndLiquidity(s: seq<Order>, target: real)
    requires 0.0 < target && NonNegativeQuantities(s)
    ensures forall i :: 0 <= i < |s| ==> 0.0 <= Taken(s, target, i) <= s[i].quantity
    ensures forall i :: FirstReach(s, target) < i < |s| ==> Taken(s, target, i) == 0.0
    ensures TakenSum(s, target, |s|) == if target <= QtySum(s, |s|) then target else QtySum(s, |s|)
  {
    var k := FirstReach(s, target);
    TakenPrefix(s, target, |s|);
    if k < |s| {
      FinalLevelShare(s, target);
      QtySumMonotone(s, k + 1, |s|);
    } else if 0 < |s| {
      assert QtySum(s, |s|) < target;
    }
  }

  /** Levels after the stopping level never affect the result. */
  lemma LaterLevelsIgnored(s: seq<Order>, rest: seq<Order>, target: real)
    requires FirstReach(s, target) < |s|
    ensures var k := FirstReach(s, target);
      ExecutionCost(s[..k + 1] + rest, target) == ExecutionCost(s, target)
  {
    var k := FirstReach(s, target);
    var u := s[..k + 1] + rest;
    SamePrefixSums(s, u, k + 1);
    FirstReachUnique(u, target, k);
  }

  /** Sequences that agree on the first `m` levels have the same prefix sums up to `m`. */
  lemma {:induction false} SamePrefixSums(s: seq<Order>, u: seq<Order>, m: nat)
    requires m <= |s| && m <= |u| && s[..m] == u[..m]
    ensures forall n :: 0 <= n <= m ==> QtySum(s, n) == QtySum(u, n) && NotionalSum(s, n) == NotionalSum(u, n)
  {
    if m > 0 {
      assert s[..m - 1] == u[..m - 1] by {
        assert s[..m - 1] == s[..m][..m - 1];
        assert u[..m - 1] == u[..m][..m - 1];
      }
      SamePrefixSums(s, u, m - 1);
      assert s[m - 1] == s[..m][m - 1] == u[..m][m - 1] == u[m - 1];
    }
  }

  /** A level that brings the total exactly to the target is consumed in full, and the walk stops there. */
  lemma ExactFill(s: seq<Order>, target: real, k: nat)
    requires k < |s|
    requires forall n :: 1 <= n <= k ==> QtySum(s, n) < target
    requires QtySum(s, k + 1) == target
    ensures FirstReach(s, target) == k
    ensures ExecutionCost(s, target) == NotionalSum(s, k + 1)
  {
    FirstReachUnique(s, target, k);
  }

  /**
   * When the book holds less than the target, the result is the notional of
   * the whole book, with no signal that the target was missed.
   */
  lemma InsufficientLiquidity(s: seq<Order>, target: real)
    requires NonNegativeQuantities(s)
    requires QtySum(s, |s|) < target
    ensures FirstReach(s, target) == |s|
    ensures ExecutionCost(s, target) == NotionalSum(s, |s|)
  {
    forall n | 1 <= n <= |s|
      ensures QtySum(s, n) < target
    {
      QtySumMonotone(s, n, |s|);
    }
    FirstReachUnique(s, target, |s|);
  }

  /** An empty book costs nothing. */
  lemma EmptyBookCostsNothing(target: real)
    ensures ExecutionCost([], target) == 0.0
  {
  }

  /** The unit test of the walk: 5.1 at 1.0, then 4.9 of 7.1 at 2.0. */
  lemma WalkExample()
    ensures ExecutionCost([Order(None, 1.0, 5.1), Order(None, 2.0, 7.1)], 10.0) == 14.9
  {
    var s := [Order(None, 1.0, 5.1), Order(None, 2.0, 7.1)];
    assert QtySum(s, 1) == 5.1;
    assert QtySum(s, 2) == 12.2;
    FirstReachUnique(s, 10.0, 1);
  }
}
