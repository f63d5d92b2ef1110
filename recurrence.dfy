/**
 The dynamic-programming recurrence that both solvers compute, as pure functions.

 A state is (periods remaining, stock). With periods remaining p > 0 the value is the
 minimum over the ten order quantities 0, 5, ..., 45 of the expected cost of the
 period plus the value of the next state, the expectation taken over the demand
 distribution of period p. The recurrence is written once, parameterized by the
 boundary policy used for the next state: `Unbounded` is the top-down solver,
 `Window(lo, hi)` is the bottom-up table, where a next stock outside [lo, hi)
 contributes a future cost of 0.
 */
module Recurrence {
  import opened Inventory

  datatype Boundary = Unbounded | Window(lo: int, hi: int)

  /** A state as a dictionary key: (periods remaining, stock). */
  type Key = (int, int)

  /** The order quantities tried in every state: OrderCount of them, OrderStep apart. */
  const OrderStep: nat := 5
  const OrderCount: nat := 10
  const MaxOrder: nat := 45

  function Order(i: nat): (q: nat)
    requires i < OrderCount
    ensures q % OrderStep == 0 && q <= MaxOrder
  {
    OrderStep * i
  }

  function Min(x: real, y: real): (m: real)
    ensures m <= x && m <= y && (m == x || m == y)
  {
    if x <= y then x else y
  }

  /** Future cost of reaching stock `s` with `p` periods remaining, under boundary `b`. */
  function Next(c: InventoryControl, b: Boundary, p: nat, s: int): real
    decreases p, 5, 0
  {
    match b
    case Unbounded => Value(c, b, p, s)
    case Window(lo, hi) => if lo <= s < hi then Value(c, b, p, s) else 0.0
  }

  /** Minimum expected cost with `p` periods remaining and stock `s`. */
  function Value(c: InventoryControl, b: Boundary, p: nat, s: int): real
    decreases p, 4, 0
  {
    if p == 0 then 0.0 else Best(c, b, p, s, OrderCount)
  }

  /** Minimum over the first `n` order quantities of their expected cost. */
  function Best(c: InventoryControl, b: Boundary, p: nat, s: int, n: nat): real
    requires 1 <= p && 1 <= n <= OrderCount
    decreases p, 3, n
  {
    var e := OrderExpectation(c, b, p, s, n - 1);
    if n == 1 then e else Min(Best(c, b, p, s, n - 1), e)
  }

  /** Expected cost of the `i`-th order quantity under the demand distribution of period `p`. */
  function OrderExpectation(c: InventoryControl, b: Boundary, p: nat, s: int, i: nat): real
    requires 1 <= p && i < OrderCount
    decreases p, 3, 0
  {
    Expected(c, b, p, s, Order(i), DemandOutcomes(p), |DemandOutcomes(p)|)
  }

  /** Probability-weighted cost of ordering `q`, summed over the first `k` outcomes of
      `os`, in the order they are listed. */
  function Expected(c: InventoryControl, b: Boundary, p: nat, s: int, q: nat, os: seq<Outcome>, k: nat): real
    requires 1 <= p && k <= |os|
    decreases p, 2, k
  {
    if k == 0 then 0.0
    else Expected(c, b, p, s, q, os, k - 1) + Weighted(os[k - 1], OutcomeCost(c, b, p, s, q, os[k - 1].demand))
  }

  /** Cost of the period plus the future cost when demand `d` occurs. */
  function OutcomeCost(c: InventoryControl, b: Boundary, p: nat, s: int, q: nat, d: int): real
    requires 1 <= p
    decreases p, 1, 0
  {
    PeriodCost(c, s, q, d) + Next(c, b, p - 1, s + q - d)
  }

  // ---------------------------------------------------------------------------
  // The minimum over orders

  /** `Best` is the minimum: no tried order is cheaper, and some tried order attains it. */
  lemma {:induction false} BestIsMinimum(c: InventoryControl, b: Boundary, p: nat, s: int, n: nat)
    requires 1 <= p && 1 <= n <= OrderCount
    ensures forall i :: 0 <= i < n ==> Best(c, b, p, s, n) <= OrderExpectation(c, b, p, s, i)
    ensures exists i :: 0 <= i < n && Best(c, b, p, s, n) == OrderExpectation(c, b, p, s, i)
  {
    if n == 1 {
      assert Best(c, b, p, s, n) == OrderExpectation(c, b, p, s, 0);
    } else {
      BestIsMinimum(c, b, p, s, n - 1);
      var k :| 0 <= k < n - 1 && Best(c, b, p, s, n - 1) == OrderExpectation(c, b, p, s, k);
      if Best(c, b, p, s, n) == OrderExpectation(c, b, p, s, n - 1) {
      } else {
        assert Best(c, b, p, s, n) == OrderExpectation(c, b, p, s, k);
      }
    }
  }

  /** Value of a state with periods remaining: the cheapest order's expected cost. */
  lemma ValueIsCheapestOrder(c: InventoryControl, b: Boundary, p: nat, s: int)
    requires p >= 1
    ensures forall i :: 0 <= i < OrderCount ==> Value(c, b, p, s) <= OrderExpectation(c, b, p, s, i)
    ensures exists i :: 0 <= i < OrderCount && Value(c, b, p, s) == OrderExpectation(c, b, p, s, i)
  {
    BestIsMinimum(c, b, p, s, OrderCount);
  }

  /** Pointwise cheaper outcomes give a cheaper expectation (probabilities are non-negative). */
  lemma {:induction false} ExpectedLe(c1: InventoryControl, b1: Boundary, c2: InventoryControl, b2: Boundary,
                                      p: nat, s: int, q: nat, os: seq<Outcome>, k: nat)
    requires 1 <= p && k <= |os|
    requires forall j :: 0 <= j < k ==>
      OutcomeCost(c1, b1, p, s, q, os[j].demand) <= OutcomeCost(c2, b2, p, s, q, os[j].demand)
    ensures Expected(c1, b1, p, s, q, os, k) <= Expected(c2, b2, p, s, q, os, k)
  {
    if k > 0 {
      ExpectedLe(c1, b1, c2, b2, p, s, q, os, k - 1);
      var d := os[k - 1].demand;
      ChargeMonotone(os[k - 1].tenths, OutcomeCost(c1, b1, p, s, q, d), OutcomeCost(c2, b2, p, s, q, d));
    }
  }

  /** Pointwise cheaper orders give a cheaper minimum. */
  lemma BestLe(c1: InventoryControl, b1: Boundary, c2: InventoryControl, b2: Boundary, p: nat, s: int)
    requires 1 <= p
    requires forall i :: 0 <= i < OrderCount ==> OrderExpectation(c1, b1, p, s, i) <= OrderExpectation(c2, b2, p, s, i)
    ensures Value(c1, b1, p, s) <= Value(c2, b2, p, s)
  {
    ValueIsCheapestOrder(c1, b1, p, s);
    ValueIsCheapestOrder(c2, b2, p, s);
  }

  // ---------------------------------------------------------------------------
  // Properties of the value function

  /** Non-negative rates give a non-negative value, under any boundary policy. */
  lemma {:induction false} ValueNonNegative(c: InventoryControl, b: Boundary, p: nat, s: int)
    requires NonNegativeRates(c)
    ensures Value(c, b, p, s) >= 0.0
  {
    if p > 0 {
      var p' := p - 1;
      forall t: int ensures Value(c, b, p', t) >= 0.0 {
        ValueNonNegative(c, b, p', t);
      }
      forall i | 0 <= i < OrderCount ensures OrderExpectation(c, b, p, s, i) >= 0.0 {
        ExpectedNonNegative(c, b, p, s, Order(i), DemandOutcomes(p), |DemandOutcomes(p)|);
      }
      ValueIsCheapestOrder(c, b, p, s);
    }
  }

  ghost predicate NonNegativeRow(c: InventoryControl, b: Boundary, p: nat) {
    forall t: int :: Value(c, b, p, t) >= 0.0
  }

  lemma {:induction false} ExpectedNonNegative(c: InventoryControl, b: Boundary, p: nat, s: int, q: nat,
                                               os: seq<Outcome>, k: nat)
    requires NonNegativeRates(c)
    requires 1 <= p && k <= |os|
    requires NonNegativeRow(c, b, p - 1)
    ensures Expected(c, b, p, s, q, os, k) >= 0.0
  {
    if k > 0 {
      ExpectedNonNegative(c, b, p, s, q, os, k - 1);
      var d := os[k - 1].demand;
      assert Value(c, b, p - 1, s + q - d) >= 0.0;
      assert Next(c, b, p - 1, s + q - d) >= 0.0;
      assert OutcomeCost(c, b, p, s, q, d) >= 0.0;
    }
  }

  /** With all three rates zero, every state is worth exactly 0. */
  lemma {:induction false} ValueZeroRates(c: InventoryControl, b: Boundary, p: nat, s: int)
    requires c.holdingCost == 0.0 && c.shortageCost == 0.0 && c.orderCost == 0.0
    ensures Value(c, b, p, s) == 0.0
  {
    if p > 0 {
      var p' := p - 1;
      forall t: int ensures Value(c, b, p', t) == 0.0 {
        ValueZeroRates(c, b, p', t);
      }
      forall i | 0 <= i < OrderCount ensures OrderExpectation(c, b, p, s, i) == 0.0 {
        ExpectedZeroRates(c, b, p, s, Order(i), DemandOutcomes(p), |DemandOutcomes(p)|);
      }
      ValueIsCheapestOrder(c, b, p, s);
    }
  }

  ghost predicate ZeroRow(c: InventoryControl, b: Boundary, p: nat) {
    forall t: int :: Value(c, b, p, t) == 0.0
  }

  lemma {:induction false} ExpectedZeroRates(c: InventoryControl, b: Boundary, p: nat, s: int, q: nat,
                                             os: seq<Outcome>, k: nat)
    requires c.holdingCost == 0.0 && c.shortageCost == 0.0 && c.orderCost == 0.0
    requires 1 <= p && k <= |os|
    requires ZeroRow(c, b, p - 1)
    ensures Expected(c, b, p, s, q, os, k) == 0.0
  {
    if k > 0 {
      ExpectedZeroRates(c, b, p, s, q, os, k - 1);
      var d := os[k - 1].demand;
      PeriodCostZeroRates(c, s, q, d);
      assert Value(c, b, p - 1, s + q - d) == 0.0;
      assert Next(c, b, p - 1, s + q - d) == 0.0;
      assert OutcomeCost(c, b, p, s, q, d) == 0.0;
    }
  }

  /** Raising the shortage rate never lowers the optimal expected cost. */
  lemma {:induction false} ValueMonotoneInShortage(c: InventoryControl, b: Boundary, extra: real, p: nat, s: int)
    requires extra >= 0.0
    ensures Value(c, b, p, s) <= Value(c.(shortageCost := c.shortageCost + extra), b, p, s)
  {
    if p > 0 {
      var c' := c.(shortageCost := c.shortageCost + extra);
      var p' := p - 1;
      forall t: int ensures Value(c, b, p', t) <= Value(c', b, p', t) {
        ValueMonotoneInShortage(c, b, extra, p', t);
      }
      forall i | 0 <= i < OrderCount ensures OrderExpectation(c, b, p, s, i) <= OrderExpectation(c', b, p, s, i) {
        OrderExpectationMonotoneInShortage(c, b, extra, p, s, i);
      }
      BestLe(c, b, c', b, p, s);
    }
  }

  ghost predicate ShortageRowLe(c: InventoryControl, b: Boundary, extra: real, p: nat) {
    forall t: int :: Value(c, b, p, t) <= Value(c.(shortageCost := c.shortageCost + extra), b, p, t)
  }

  lemma OrderExpectationMonotoneInShortage(c: InventoryControl, b: Boundary, extra: real, p: nat, s: int, i: nat)
    requires extra >= 0.0 && 1 <= p && i < OrderCount
    requires ShortageRowLe(c, b, extra, p - 1)
    ensures OrderExpectation(c, b, p, s, i) <= OrderExpectation(c.(shortageCost := c.shortageCost + extra), b, p, s, i)
  {
    var c' := c.(shortageCost := c.shortageCost + extra);
    var q, os := Order(i), DemandOutcomes(p);
    forall j | 0 <= j < |os|
      ensures OutcomeCost(c, b, p, s, q, os[j].demand) <= OutcomeCost(c', b, p, s, q, os[j].demand)
    {
      var d := os[j].demand;
      PeriodCostMonotoneInShortage(c, extra, s, q, d);
      assert Value(c, b, p - 1, s + q - d) <= Value(c', b, p - 1, s + q - d);
      assert Next(c, b, p - 1, s + q - d) <= Next(c', b, p - 1, s + q - d);
    }
    ExpectedLe(c, b, c', b, p, s, q, os, |os|);
  }

  /** The expectation of the constant cost `x` over the first `k` outcomes of `os`. */
  function ConstantExpected(os: seq<Outcome>, k: nat, x: real): real
    requires k <= |os|
  {
    if k == 0 then 0.0 else ConstantExpected(os, k - 1, x) + Weighted(os[k - 1], x)
  }

  /** Outcome costs bounded below by `x` give an expectation bounded below by that of `x`. */
  lemma {:induction false} ExpectedAtLeast(c: InventoryControl, b: Boundary, p: nat, s: int, q: nat,
                                           os: seq<Outcome>, k: nat, x: real)
    requires 1 <= p && k <= |os|
    requires forall j :: 0 <= j < k ==> x <= OutcomeCost(c, b, p, s, q, os[j].demand)
    ensures ConstantExpected(os, k, x) <= Expected(c, b, p, s, q, os, k)
  {
    if k > 0 {
      ExpectedAtLeast(c, b, p, s, q, os, k - 1, x);
      ChargeMonotone(os[k - 1].tenths, x, OutcomeCost(c, b, p, s, q, os[k - 1].demand));
    }
  }

  /** The same bound for the expected cost of order `i`. */
  lemma OrderExpectationAtLeast(c: InventoryControl, b: Boundary, p: nat, s: int, i: nat, x: real)
    requires 1 <= p && i < OrderCount
    requires forall j :: 0 <= j < |DemandOutcomes(p)| ==>
      x <= OutcomeCost(c, b, p, s, Order(i), DemandOutcomes(p)[j].demand)
    ensures ConstantExpected(DemandOutcomes(p), |DemandOutcomes(p)|, x) <= OrderExpectation(c, b, p, s, i)
  {
    ExpectedAtLeast(c, b, p, s, Order(i), DemandOutcomes(p), |DemandOutcomes(p)|, x);
  }

  /** Outcome costs bounded above by `x` give an expectation bounded above by that of `x`. */
  lemma {:induction false} ExpectedAtMost(c: InventoryControl, b: Boundary, p: nat, s: int, q: nat,
                                          os: seq<Outcome>, k: nat, x: real)
    requires 1 <= p && k <= |os|
    requires forall j :: 0 <= j < k ==> OutcomeCost(c, b, p, s, q, os[j].demand) <= x
    ensures Expected(c, b, p, s, q, os, k) <= ConstantExpected(os, k, x)
  {
    if k > 0 {
      ExpectedAtMost(c, b, p, s, q, os, k - 1, x);
      ChargeMonotone(os[k - 1].tenths, OutcomeCost(c, b, p, s, q, os[k - 1].demand), x);
    }
  }

  // ---------------------------------------------------------------------------
  // The window against the unbounded recurrence

  /** With non-negative rates, replacing future costs outside a window by 0 can only lower
      the value. */
  lemma {:induction false} WindowNeverAboveUnbounded(c: InventoryControl, lo: int, hi: int, p: nat, s: int)
    requires NonNegativeRates(c)
    ensures Value(c, Window(lo, hi), p, s) <= Value(c, Unbounded, p, s)
  {
    if p > 0 {
      var w := Window(lo, hi);
      var p' := p - 1;
      forall t: int ensures Value(c, w, p', t) <= Value(c, Unbounded, p', t) {
        WindowNeverAboveUnbounded(c, lo, hi, p', t);
      }
      forall i | 0 <= i < OrderCount ensures OrderExpectation(c, w, p, s, i) <= OrderExpectation(c, Unbounded, p, s, i) {
        OrderExpectationWindowBelow(c, lo, hi, p, s, i);
      }
      BestLe(c, w, c, Unbounded, p, s);
    }
  }

  ghost predicate WindowRowBelow(c: InventoryControl, lo: int, hi: int, p: nat) {
    forall t: int :: Value(c, Window(lo, hi), p, t) <= Value(c, Unbounded, p, t)
  }

  lemma OrderExpectationWindowBelow(c: InventoryControl, lo: int, hi: int, p: nat, s: int, i: nat)
    requires NonNegativeRates(c) && 1 <= p && i < OrderCount
    requires WindowRowBelow(c, lo, hi, p - 1)
    ensures OrderExpectation(c, Window(lo, hi), p, s, i) <= OrderExpectation(c, Unbounded, p, s, i)
  {
    var w := Window(lo, hi);
    var q, os := Order(i), DemandOutcomes(p);
    forall j | 0 <= j < |os|
      ensures OutcomeCost(c, w, p, s, q, os[j].demand) <= OutcomeCost(c, Unbounded, p, s, q, os[j].demand)
    {
      var t := s + q - os[j].demand;
      ValueNonNegative(c, Unbounded, p - 1, t);
      assert Value(c, w, p - 1, t) <= Value(c, Unbounded, p - 1, t);
      assert Next(c, w, p - 1, t) <= Next(c, Unbounded, p - 1, t);
    }
    ExpectedLe(c, w, c, Unbounded, p, s, q, os, |os|);
  }


  /** From stock `s` with `p` periods remaining, every stock the recursion looks up with
      at least one period remaining lies in [lo, hi): with two or more periods left, the
      next stock of every tried order and every outcome of period `p` is in the window
      and is itself covered one period later. */
  predicate Covered(lo: int, hi: int, p: nat, s: int)
    decreases p
  {
    p <= 1
    || forall i, j :: 0 <= i < OrderCount && 0 <= j < |DemandOutcomes(p)| ==>
         lo <= NextStock(p, s, i, j) < hi && Covered(lo, hi, p - 1, NextStock(p, s, i, j))
  }

  /** The stock after ordering the `i`-th quantity from stock `s` and meeting the `j`-th
      demand outcome of period `p`. */
  function NextStock(p: nat, s: int, i: nat, j: nat): int
    requires i < OrderCount && j < |DemandOutcomes(p)|
  {
    s + Order(i) - DemandOutcomes(p)[j].demand
  }

  /** One unfolding of `Covered` for a chosen order and outcome. */
  lemma CoveredNext(lo: int, hi: int, p: nat, s: int, i: nat, j: nat)
    requires 2 <= p && Covered(lo, hi, p, s) && i < OrderCount && j < |DemandOutcomes(p)|
    ensures lo <= NextStock(p, s, i, j) < hi && Covered(lo, hi, p - 1, NextStock(p, s, i, j))
  {
  }

  /** A sufficient condition for `Covered` in closed form: each period moves the stock by
      at least -MaxDemand and at most MaxOrder - MinDemand, whatever its demand tier. */
  predicate UniformlyCovered(lo: int, hi: int, p: nat, s: int) {
    p <= 1 || (lo <= s - MaxDemand * (p - 1) && s + (MaxOrder - MinDemand) * (p - 1) < hi)
  }

  /** One period later the next stock is inside the window and still uniformly covered. */
  lemma UniformlyCoveredStep(lo: int, hi: int, p: nat, s: int, t: int)
    requires p > 1 && UniformlyCovered(lo, hi, p, s)
    requires s - MaxDemand <= t <= s + (MaxOrder - MinDemand)
    ensures lo <= t < hi && UniformlyCovered(lo, hi, p - 1, t)
  {
    assert MaxDemand * (p - 1) == MaxDemand * (p - 2) + MaxDemand;
    assert (MaxOrder - MinDemand) * (p - 1) == (MaxOrder - MinDemand) * (p - 2) + (MaxOrder - MinDemand);
  }

  lemma {:induction false} UniformlyCoveredIsCovered(lo: int, hi: int, p: nat, s: int)
    requires UniformlyCovered(lo, hi, p, s)
    ensures Covered(lo, hi, p, s)
  {
    if p > 1 {
      forall i, j | 0 <= i < OrderCount && 0 <= j < |DemandOutcomes(p)|
        ensures lo <= NextStock(p, s, i, j) < hi && Covered(lo, hi, p - 1, NextStock(p, s, i, j))
      {
        var t := NextStock(p, s, i, j);
        UniformlyCoveredStep(lo, hi, p, s, t);
        UniformlyCoveredIsCovered(lo, hi, p - 1, t);
      }
    }
  }

  /** Inside the envelope the windowed recurrence equals the unbounded one. */
  lemma {:induction false} WindowAgreesWithUnbounded(c: InventoryControl, lo: int, hi: int, p: nat, s: int)
    requires Covered(lo, hi, p, s)
    ensures Value(c, Window(lo, hi), p, s) == Value(c, Unbounded, p, s)
  {
    if p > 0 {
      var w := Window(lo, hi);
      var p' := p - 1;
      forall t | Covered(lo, hi, p', t) ensures Value(c, w, p', t) == Value(c, Unbounded, p', t) {
        WindowAgreesWithUnbounded(c, lo, hi, p', t);
      }
      forall i | 0 <= i < OrderCount
        ensures OrderExpectation(c, w, p, s, i) == OrderExpectation(c, Unbounded, p, s, i)
      {
        OrderExpectationAgrees(c, lo, hi, p, s, i);
      }
      BestLe(c, w, c, Unbounded, p, s);
      BestLe(c, Unbounded, c, w, p, s);
    }
  }

  lemma OutcomeCostAgrees(c: InventoryControl, lo: int, hi: int, p: nat, s: int, i: nat, j: nat)
    requires 1 <= p && Covered(lo, hi, p, s) && i < OrderCount && j < |DemandOutcomes(p)|
    requires CoveredRowAgrees(c, lo, hi, p - 1)
    ensures OutcomeCost(c, Window(lo, hi), p, s, Order(i), DemandOutcomes(p)[j].demand)
         == OutcomeCost(c, Unbounded, p, s, Order(i), DemandOutcomes(p)[j].demand)
  {
    var w, t := Window(lo, hi), NextStock(p, s, i, j);
    if p > 1 {
      CoveredNext(lo, hi, p, s, i, j);
      assert Value(c, w, p - 1, t) == Value(c, Unbounded, p - 1, t);
    } else {
      assert Value(c, w, 0, t) == 0.0 == Value(c, Unbounded, 0, t);
    }
    assert Next(c, w, p - 1, t) == Next(c, Unbounded, p - 1, t);
  }

  ghost predicate CoveredRowAgrees(c: InventoryControl, lo: int, hi: int, p: nat) {
    forall t: int :: Covered(lo, hi, p, t) ==> Value(c, Window(lo, hi), p, t) == Value(c, Unbounded, p, t)
  }

  lemma OrderExpectationAgrees(c: InventoryControl, lo: int, hi: int, p: nat, s: int, i: nat)
    requires 1 <= p && i < OrderCount && Covered(lo, hi, p, s)
    requires CoveredRowAgrees(c, lo, hi, p - 1)
    ensures OrderExpectation(c, Window(lo, hi), p, s, i) == OrderExpectation(c, Unbounded, p, s, i)
  {
    var w := Window(lo, hi);
    var q, os := Order(i), DemandOutcomes(p);
    forall j | 0 <= j < |os|
      ensures OutcomeCost(c, w, p, s, q, os[j].demand) == OutcomeCost(c, Unbounded, p, s, q, os[j].demand)
    {
      OutcomeCostAgrees(c, lo, hi, p, s, i, j);
    }
    ExpectedLe(c, w, c, Unbounded, p, s, q, os, |os|);
    ExpectedLe(c, Unbounded, c, w, p, s, q, os, |os|);
  }
}
