/**
 * The two `sort_by` calls of src/main.rs: bids by descending price, asks
 * by ascending price. `sort_by` is stable, so orders at the same price keep
 * the order in which they were merged.
 */
module BookSort {
  import opened Wrappers
  import opened OrderBooks

  /** A single number that orders a side: lower rank means higher execution priority. */
  function Rank(side: Side, o: Order): real
  {
    match side
    case Bids => -o.price
    case Asks => o.price
  }

  /** The comparator returns `Less`: `a` must come strictly before `b`. */
  predicate Precedes(side: Side, a: Order, b: Order)
  {
    Rank(side, a) < Rank(side, b)
  }

  /** Execution order: no later order strictly precedes an earlier one. */
  predicate InPriorityOrder(side: Side, s: seq<Order>)
  {
    forall i, j :: 0 <= i < j < |s| ==> Rank(side, s[i]) <= Rank(side, s[j])
  }

  /** Inserts `x` after every order it does not strictly precede. */
  function Insert(side: Side, s: seq<Order>, x: Order): (r: seq<Order>)
    ensures |r| == |s| + 1
  {
    if s == [] then [x]
    else if Precedes(side, x, s[|s| - 1]) then Insert(side, s[..|s| - 1], x) + [s[|s| - 1]]
    else s + [x]
  }

  /** The stable sort of `s` for `side`: each order inserted in turn, first to last. */
  function StableSort(side: Side, s: seq<Order>): (r: seq<Order>)
    ensures |r| == |s|
  {
    if s == [] then [] else Insert(side, StableSort(side, s[..|s| - 1]), s[|s| - 1])
  }

  /** The orders of `s` at price `p`, in their order in `s`. */
  function AtPrice(s: seq<Order>, p: real): seq<Order>
  {
    if s == [] then []
    else AtPrice(s[..|s| - 1], p) + (if s[|s| - 1].price == p then [s[|s| - 1]] else [])
  }

  lemma {:induction false} AtPriceAppend(s: seq<Order>, t: seq<Order>, p: real)
    ensures AtPrice(s + t, p) == AtPrice(s, p) + AtPrice(t, p)
  {
    if t != [] {
      var t' := t[..|t| - 1];
      assert (s + t)[..|s + t| - 1] == s + t';
      AtPriceAppend(s, t', p);
    } else {
      assert s + t == s;
    }
  }

  lemma {:induction false} InsertPermutes(side: Side, s: seq<Order>, x: Order)
    ensures multiset(Insert(side, s, x)) == multiset(s) + multiset{x}
  {
    if s != [] && Precedes(side, x, s[|s| - 1]) {
      var s' := s[..|s| - 1];
      InsertPermutes(side, s', x);
      assert s == s' + [s[|s| - 1]];
    }
  }

  /** Inserting below a common bound keeps every rank below that bound. */
  lemma {:induction false} InsertBounded(side: Side, s: seq<Order>, x: Order, bound: real)
    requires forall i :: 0 <= i < |s| ==> Rank(side, s[i]) <= bound
    requires Rank(side, x) <= bound
    ensures forall i :: 0 <= i < |s| + 1 ==> Rank(side, Insert(side, s, x)[i]) <= bound
  {
    if s != [] && Precedes(side, x, s[|s| - 1]) {
      InsertBounded(side, s[..|s| - 1], x, bound);
    }
  }

  lemma {:induction false} InsertOrdered(side: Side, s: seq<Order>, x: Order)
    requires InPriorityOrder(side, s)
    ensures InPriorityOrder(side, Insert(side, s, x))
  {
    if s != [] {
      var last := s[|s| - 1];
      var s' := s[..|s| - 1];
      if Precedes(side, x, last) {
        InsertOrdered(side, s', x);
        InsertBounded(side, s', x, Rank(side, last));
        var r := Insert(side, s', x);
        assert Insert(side, s, x) == r + [last];
      } else {
        assert forall i :: 0 <= i < |s| ==> Rank(side, s[i]) <= Rank(side, x);
      }
    }
  }

  lemma {:induction false} InsertKeepsTies(side: Side, s: seq<Order>, x: Order, p: real)
    ensures AtPrice(Insert(side, s, x), p) == AtPrice(s, p) + AtPrice([x], p)
  {
    if s == [] {
      assert AtPrice([], p) == [];
    } else {
      var last := s[|s| - 1];
      var s' := s[..|s| - 1];
      assert s == s' + [last];
      if Precedes(side, x, last) {
        InsertKeepsTies(side, s', x, p);
        AtPriceAppend(Insert(side, s', x), [last], p);
        AtPriceAppend(s', [last], p);
        assert AtPrice([x], p) == [] || AtPrice([last], p) == [];
      } else {
        AtPriceAppend(s, [x], p);
      }
    }
  }

  /** The sorted sequence is in execution order: non-increasing prices for bids, non-decreasing for asks. */
  lemma {:induction false} SortOrders(side: Side, s: seq<Order>)
    ensures InPriorityOrder(side, StableSort(side, s))
    ensures side == Bids ==> forall i, j :: 0 <= i < j < |s| ==> StableSort(side, s)[i].price >= StableSort(side, s)[j].price
    ensures side == Asks ==> forall i, j :: 0 <= i < j < |s| ==> StableSort(side, s)[i].price <= StableSort(side, s)[j].price
  {
    if s != [] {
      SortOrders(side, s[..|s| - 1]);
      InsertOrdered(side, StableSort(side, s[..|s| - 1]), s[|s| - 1]);
    }
  }

  /** Sorting only reorders: the result is a permutation of the input. */
  lemma {:induction false} SortPermutes(side: Side, s: seq<Order>)
    ensures multiset(StableSort(side, s)) == multiset(s)
  {
    if s != [] {
      var s' := s[..|s| - 1];
      SortPermutes(side, s');
      InsertPermutes(side, StableSort(side, s'), s[|s| - 1]);
      assert s == s' + [s[|s| - 1]];
    }
  }

  /** Stability: orders at the same price keep their relative order. */
  lemma {:induction false} SortKeepsTies(side: Side, s: seq<Order>, p: real)
    ensures AtPrice(StableSort(side, s), p) == AtPrice(s, p)
  {
    if s != [] {
      var s' := s[..|s| - 1];
      SortKeepsTies(side, s', p);
      InsertKeepsTies(side, StableSort(side, s'), s[|s| - 1], p);
      assert s == s' + [s[|s| - 1]];
      AtPriceAppend(s', [s[|s| - 1]], p);
    }
  }

  /** Re-sorting a sequence already in execution order leaves it unchanged. */
  lemma {:induction false} SortIdempotent(side: Side, s: seq<Order>)
    requires InPriorityOrder(side, s)
    ensures StableSort(side, s) == s
  {
    if s != [] {
      var s' := s[..|s| - 1];
      assert InPriorityOrder(side, s');
      SortIdempotent(side, s');
      assert s == s' + [s[|s| - 1]];
    }
  }

  /** Sequences with the same orders at every price are empty together. */
  lemma SameTiesEmptyTogether(t: seq<Order>, u: seq<Order>)
    requires forall p :: AtPrice(t, p) == AtPrice(u, p)
    ensures t == [] <==> u == []
  {
    if t != [] {
      assert AtPrice(t, t[|t| - 1].price) != [];
      assert AtPrice(u, t[|t| - 1].price) != [];
    }
    if u != [] {
      assert AtPrice(u, u[|u| - 1].price) != [];
      assert AtPrice(t, u[|u| - 1].price) != [];
    }
  }

  /** An order of `s` is listed among the orders of `s` at its own price. */
  lemma {:induction false} InAtOwnPrice(s: seq<Order>, y: Order)
    requires y in s
    ensures y in AtPrice(s, y.price)
  {
    var s' := s[..|s| - 1];
    if y != s[|s| - 1] {
      assert s == s' + [s[|s| - 1]];
      InAtOwnPrice(s', y);
    }
  }

  /** The orders listed at a price are orders of `s`. */
  lemma {:induction false} AtPriceFromSeq(s: seq<Order>, p: real, y: Order)
    requires y in AtPrice(s, p)
    ensures y in s
  {
    var s' := s[..|s| - 1];
    if y in AtPrice(s', p) {
      AtPriceFromSeq(s', p, y);
      assert s == s' + [s[|s| - 1]];
    }
  }

  /** In execution order, no order outranks the last one. */
  lemma LastRanksHighest(side: Side, t: seq<Order>, y: Order)
    requires InPriorityOrder(side, t) && y in t
    ensures Rank(side, y) <= Rank(side, t[|t| - 1])
  {
    var m :| 0 <= m < |t| && t[m] == y;
    if m < |t| - 1 {
      assert Rank(side, t[m]) <= Rank(side, t[|t| - 1]);
    }
  }

  /** Orders of the same rank have the same price. */
  lemma SameRankSamePrice(side: Side, a: Order, b: Order)
    requires Rank(side, a) <= Rank(side, b) <= Rank(side, a)
    ensures a.price == b.price
  {
  }

  /** The last order of `s` is the last of the orders at its price. */
  lemma LastOfOwnTies(s: seq<Order>)
    requires s != []
    ensures var ties := AtPrice(s, s[|s| - 1].price); ties != [] && ties[|ties| - 1] == s[|s| - 1]
  {
  }

  /** With the same ties, the last order of `u` ranks no higher than the last order of `t`. */
  lemma LastOutranks(side: Side, t: seq<Order>, u: seq<Order>)
    requires t != [] && u != [] && InPriorityOrder(side, t)
    requires forall p :: AtPrice(t, p) == AtPrice(u, p)
    ensures Rank(side, u[|u| - 1]) <= Rank(side, t[|t| - 1])
  {
    var y := u[|u| - 1];
    InAtOwnPrice(u, y);
    assert AtPrice(u, y.price) == AtPrice(t, y.price);
    AtPriceFromSeq(t, y.price, y);
    LastRanksHighest(side, t, y);
  }

  /** Two non-empty sequences in execution order with the same ties end with the same order. */
  lemma SameTiesSameLast(side: Side, t: seq<Order>, u: seq<Order>)
    requires t != [] && u != []
    requires InPriorityOrder(side, t) && InPriorityOrder(side, u)
    requires forall p :: AtPrice(t, p) == AtPrice(u, p)
    ensures t[|t| - 1] == u[|u| - 1]
  {
    var x, y := t[|t| - 1], u[|u| - 1];
    LastOutranks(side, t, u);
    LastOutranks(side, u, t);
    SameRankSamePrice(side, x, y);
    LastOfOwnTies(t);
    LastOfOwnTies(u);
    var ties := AtPrice(t, x.price);
    assert ties == AtPrice(u, y.price);
    assert x == ties[|ties| - 1] == y;
  }

  /** Dropping a common last order keeps the ties equal. */
  lemma SameTiesDropLast(t: seq<Order>, u: seq<Order>, x: Order)
    requires forall p :: AtPrice(t + [x], p) == AtPrice(u + [x], p)
    ensures forall p :: AtPrice(t, p) == AtPrice(u, p)
  {
    forall p
      ensures AtPrice(t, p) == AtPrice(u, p)
    {
      var e := if x.price == p then [x] else [];
      var a, b := AtPrice(t, p), AtPrice(u, p);
      assert (t + [x])[..|t|] == t && (u + [x])[..|u|] == u;
      assert AtPrice(t + [x], p) == a + e;
      assert AtPrice(u + [x], p) == b + e;
      assert |a| == |b|;
      assert a == (a + e)[..|a|] && b == (b + e)[..|b|];
    }
  }

  /**
   * Execution order together with the order of ties determines a sequence:
   * two sequences in execution order that list the same orders at every
   * price, in the same order, are equal.
   */
  lemma {:induction false} TiesDetermineOrder(side: Side, t: seq<Order>, u: seq<Order>)
    requires InPriorityOrder(side, t) && InPriorityOrder(side, u)
    requires forall p :: AtPrice(t, p) == AtPrice(u, p)
    ensures t == u
    decreases |t|
  {
    SameTiesEmptyTogether(t, u);
    if t != [] {
      var t', u' := t[..|t| - 1], u[..|u| - 1];
      SameTiesSameLast(side, t, u);
      assert t == t' + [t[|t| - 1]] && u == u' + [t[|t| - 1]];
      SameTiesDropLast(t', u', t[|t| - 1]);
      assert InPriorityOrder(side, t') && InPriorityOrder(side, u');
      TiesDetermineOrder(side, t', u');
    }
  }

  /**
   * Any sort into execution order that keeps ties in input order, such as
   * the library's stable merge sort, yields exactly StableSort.
   */
  lemma StableSortIsUnique(side: Side, s: seq<Order>, t: seq<Order>)
    requires InPriorityOrder(side, t)
    requires forall p :: AtPrice(t, p) == AtPrice(s, p)
    ensures t == StableSort(side, s)
  {
    SortOrders(side, s);
    forall p
      ensures AtPrice(t, p) == AtPrice(StableSort(side, s), p)
    {
      SortKeepsTies(side, s, p);
    }
    TiesDetermineOrder(side, t, StableSort(side, s));
  }

  /** The two sorting unit tests: asks [2, 1, 3] become [1, 2, 3], bids become [3, 2, 1]. */
  lemma SortExamples()
    ensures var s := [Order(None, 2.0, 7.0), Order(None, 1.0, 5.0), Order(None, 3.0, 6.0)];
      StableSort(Asks, s) == [s[1], s[0], s[2]] && StableSort(Bids, s) == [s[2], s[0], s[1]]
  {
    var s := [Order(None, 2.0, 7.0), Order(None, 1.0, 5.0), Order(None, 3.0, 6.0)];
    assert s[..1] == [s[0]] && s[..2] == [s[0], s[1]] && [s[0]][..0] == [];
    assert StableSort(Asks, [s[0]]) == [s[0]];
    assert StableSort(Asks, [s[0], s[1]]) == [s[1], s[0]] by {
      assert Insert(Asks, [s[0]], s[1]) == [s[1], s[0]];
    }
    assert Insert(Asks, [s[1], s[0]], s[2]) == [s[1], s[0], s[2]];
    assert StableSort(Bids, [s[0]]) == [s[0]];
    assert StableSort(Bids, [s[0], s[1]]) == [s[0], s[1]];
    assert Insert(Bids, [s[0], s[1]], s[2]) == [s[2], s[0], s[1]] by {
      assert [s[0], s[1]][..1] == [s[0]];
      assert Insert(Bids, [s[0]], s[2]) == [s[2], s[0]];
    }
  }

  /**
   * Where `x` lands: after `s[..j]` when it does not precede `s[j - 1]` but
   * strictly precedes every order from `j` on.
   */
  lemma {:induction false} InsertLandsAt(side: Side, s: seq<Order>, x: Order, j: nat)
    requires j <= |s| && (j == 0 || !Precedes(side, x, s[j - 1]))
    requires forall k :: j <= k < |s| ==> Precedes(side, x, s[k])
    ensures Insert(side, s, x) == s[..j] + [x] + s[j..]
    decreases |s|
  {
    if j == |s| {
      if j > 0 {
        assert s[..j] == s;
      }
    } else {
      var s' := s[..|s| - 1];
      assert s'[..j] == s[..j];
      InsertLandsAt(side, s', x, j);
      assert s[j..] == s'[j..] + [s[|s| - 1]];
    }
  }

  /** The array after a shift: `s[..j]`, then `x`, then the rest of `s` moved one place right. */
  lemma ShiftedIsInsert(b: seq<Order>, s: seq<Order>, x: Order, j: nat)
    requires j <= |s| && |b| == |s| + 1 && b[j] == x
    requires forall k :: 0 <= k < j ==> b[k] == s[k]
    requires forall k :: j < k <= |s| ==> b[k] == s[k - 1]
    ensures b == s[..j] + [x] + s[j..]
  {
  }

  /**
   * One step of the insertion sort: moves `a[i]` left past the orders of
   * the prefix `a[..i]` that it strictly precedes.
   */
  method InsertAt(side: Side, a: array<Order>, i: nat)
    requires i < a.Length
    modifies a
    ensures a[..i + 1] == Insert(side, old(a[..i]), old(a[i]))
    ensures forall k :: i < k < a.Length ==> a[k] == old(a[k])
  {
    var x := a[i];
    ghost var s := a[..i];
    var j := i;
    while j > 0 && Precedes(side, x, a[j - 1])
      invariant 0 <= j <= i
      invariant forall k :: 0 <= k < j ==> a[k] == s[k]
      invariant forall k :: j < k <= i ==> a[k] == s[k - 1]
      invariant forall k :: i < k < a.Length ==> a[k] == old(a[k])
      invariant forall k :: j <= k < i ==> Precedes(side, x, s[k])
    {
      a[j] := a[j - 1];
      j := j - 1;
    }
    a[j] := x;
    InsertLandsAt(side, s, x, j);
    ShiftedIsInsert(a[..i + 1], s, x, j);
  }

  /** `sort_by` on the merged vector, in place: an insertion sort. */
  method SortInPlace(side: Side, a: array<Order>)
    modifies a
    ensures a[..] == StableSort(side, old(a[..]))
    ensures InPriorityOrder(side, a[..])
    ensures multiset(a[..]) == multiset(old(a[..]))
  {
    ghost var input := a[..];
    var i := 0;
    while i < a.Length
      invariant 0 <= i <= a.Length
      invariant a[..i] == StableSort(side, input[..i])
      invariant forall k :: i <= k < a.Length ==> a[k] == input[k]
    {
      InsertAt(side, a, i);
      StableSortStep(side, input, i);
      i := i + 1;
    }
    assert a[..] == a[..a.Length] && input == input[..a.Length];
    SortedPermutation(side, input);
  }

  /** Sorting one more order of `s` inserts it into the sorted prefix. */
  lemma StableSortStep(side: Side, s: seq<Order>, i: nat)
    requires i < |s|
    ensures StableSort(side, s[..i + 1]) == Insert(side, StableSort(side, s[..i]), s[i])
  {
    assert s[..i + 1][..i] == s[..i];
  }

  /** The sorted sequence is in execution order and a permutation of the input. */
  lemma SortedPermutation(side: Side, s: seq<Order>)
    ensures InPriorityOrder(side, StableSort(side, s))
    ensures multiset(StableSort(side, s)) == multiset(s)
  {
    SortOrders(side, s);
    SortPermutes(side, s);
  }
}
