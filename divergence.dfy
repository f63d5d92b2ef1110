/**
 An instance on which the bottom-up table with its fixed window [TableLo, TableHi)
 answers differently from the top-down recursion: the initial stock -50 is the lowest
 stock of the window, so every shortage carried into the next period falls outside the
 table and is costed at 0.
 */
module Divergence {
  import opened Inventory
  import opened Recurrence
  import opened BottomUp

  /** Initial stock -50, no holding cost, shortage cost 1 per unit, order cost 10 per unit. */
  const Divergent: InventoryControl := InventoryControl(-50, 0.0, 1.0, 10.0)

  const DivergentPeriods: nat := 2

  /** The rates of the instance: no holding cost, shortage 1 and order cost 10 per unit. */
  predicate DivergentRates(c: InventoryControl) {
    c.holdingCost == 0.0 && c.shortageCost == 1.0 && c.orderCost == 10.0
  }

  /** The cost of one period under those rates when it ends short. */
  lemma ShortPeriodCost(c: InventoryControl, stock: int, order: nat, demand: int)
    requires DivergentRates(c) && stock + order - demand < 0
    ensures PeriodCost(c, stock, order, demand)
         == (demand - stock - order) as real + (if order > 0 then 10.0 * order as real else 0.0)
  {
    ChargeIsProduct(demand - stock - order, 1.0);
    if order > 0 {
      ChargeIsProduct(order, 10.0);
    }
  }

  /** The expectation of a constant over the lowest demand tier is that constant. */
  lemma LowTierConstant(p: nat, x: real)
    requires 1 <= p <= 5
    ensures ConstantExpected(DemandOutcomes(p), 3, x) == x
  {
    var os := DemandOutcomes(p);
    FirstTierOutcomes(p);
    ChargeIsProduct(3, x);
    ChargeIsProduct(4, x);
    assert ConstantExpected(os, 1, x) == Charge(3, x) / 10.0;
    assert ConstantExpected(os, 2, x) == Charge(3, x) / 10.0 + Charge(4, x) / 10.0;
    assert ConstantExpected(os, 3, x) == Charge(3, x) / 10.0 + Charge(4, x) / 10.0 + Charge(3, x) / 10.0;
  }

  /** With one period left and a stock of -55 or less, every order costs at least 50:
      ordering costs 10 per unit, and not ordering leaves a shortage of at least 65. */
  lemma OnePeriodLeftAtLeast(c: InventoryControl, p: nat, t: int)
    requires DivergentRates(c) && p == 1 && t <= -55
    ensures 50.0 <= Value(c, Unbounded, p, t)
  {
    ValueIsCheapestOrder(c, Unbounded, p, t);
    forall i | 0 <= i < OrderCount ensures 50.0 <= OrderExpectation(c, Unbounded, p, t, i) {
      OnePeriodLeftOrderAtLeast(c, p, t, i);
    }
  }

  lemma OnePeriodLeftOrderAtLeast(c: InventoryControl, p: nat, t: int, i: nat)
    requires DivergentRates(c) && p == 1 && t <= -55 && i < OrderCount
    ensures 50.0 <= OrderExpectation(c, Unbounded, p, t, i)
  {
    var q, os := Order(i), DemandOutcomes(p);
    LowTierConstant(p, 50.0);
    forall j | 0 <= j < |os| ensures 50.0 <= OutcomeCost(c, Unbounded, p, t, q, os[j].demand) {
      var d := os[j].demand;
      ShortPeriodCost(c, t, q, d);
      assert Next(c, Unbounded, p - 1, t + q - d) == 0.0;
      OutcomeCostSplit(c, Unbounded, p, t, q, d);
    }
    ExpectedAtLeast(c, Unbounded, p, t, q, os, |os|, 50.0);
  }

  /** With two periods left and stock -50, ordering costs 10 per unit in the first period,
      and not ordering leaves a shortage of at least 60 followed by a period costing at
      least 50; either way each outcome costs at least 105. */
  lemma TwoPeriodsOutcomeAtLeast(c: InventoryControl, p: nat, s: int, q: nat, d: int)
    requires DivergentRates(c) && p == 2 && s == -50
    requires q <= MaxOrder && (q == 0 || OrderStep <= q) && 10 <= d <= 20
    ensures 105.0 <= OutcomeCost(c, Unbounded, p, s, q, d)
  {
    var t := s + q - d;
    ShortPeriodCost(c, s, q, d);
    var cost := PeriodCost(c, s, q, d);
    var future := Value(c, Unbounded, p - 1, t);
    if q == 0 {
      OnePeriodLeftAtLeast(c, p - 1, t);
    }
    ValueNonNegative(c, Unbounded, p - 1, t);
    assert 105.0 <= cost + future by {
      FirstPeriodBound(cost, future, q, d);
    }
    assert Next(c, Unbounded, p - 1, t) == future;
    OutcomeCostSplit(c, Unbounded, p, s, q, d);
  }

  lemma TwoPeriodsOrderAtLeast(c: InventoryControl, p: nat, s: int, i: nat)
    requires DivergentRates(c) && p == 2 && s == -50 && i < OrderCount
    ensures 105.0 <= OrderExpectation(c, Unbounded, p, s, i)
  {
    TwoPeriodsOutcomesAtLeast(c, p, s, i);
    OrderExpectationAtLeast(c, Unbounded, p, s, i, 105.0);
  }

  /** Every outcome of order `i` costs at least 105, and so does their expectation of 105. */
  lemma TwoPeriodsOutcomesAtLeast(c: InventoryControl, p: nat, s: int, i: nat)
    requires DivergentRates(c) && p == 2 && s == -50 && i < OrderCount
    ensures forall j :: 0 <= j < |DemandOutcomes(p)| ==>
      105.0 <= OutcomeCost(c, Unbounded, p, s, Order(i), DemandOutcomes(p)[j].demand)
    ensures ConstantExpected(DemandOutcomes(p), |DemandOutcomes(p)|, 105.0) == 105.0
  {
    var q, os := Order(i), DemandOutcomes(p);
    OrderZeroOrAtLeastStep(i);
    LowTierConstant(p, 105.0);
    forall j | 0 <= j < |os| ensures 105.0 <= OutcomeCost(c, Unbounded, p, s, q, os[j].demand) {
      TwoPeriodsOutcomeAtLeast(c, p, s, q, os[j].demand);
    }
  }

  /** Unbounded, every order from stock -50 with two periods left costs at least 105. */
  lemma UnboundedAtLeast(c: InventoryControl, p: nat, s: int)
    requires DivergentRates(c) && p == 2 && s == -50
    ensures 105.0 <= Value(c, Unbounded, p, s)
  {
    ValueIsCheapestOrder(c, Unbounded, p, s);
    forall i | 0 <= i < OrderCount ensures 105.0 <= OrderExpectation(c, Unbounded, p, s, i) {
      TwoPeriodsOrderAtLeast(c, p, s, i);
    }
  }

  /** In the fixed window, not ordering from stock -50 costs each outcome its shortage of
      50 + demand and nothing afterwards, which is at most 70. */
  lemma WindowAtMost(c: InventoryControl, p: nat, s: int)
    requires DivergentRates(c) && p == 2 && s == -50
    ensures Value(c, TableWindow, p, s) <= 70.0
  {
    ValueIsCheapestOrder(c, TableWindow, p, s);
    WindowNoOrderAtMost(c, p, s);
  }

  lemma WindowNoOrderAtMost(c: InventoryControl, p: nat, s: int)
    requires DivergentRates(c) && p == 2 && s == -50
    ensures OrderExpectation(c, TableWindow, p, s, 0) <= 70.0
  {
    var os := DemandOutcomes(p);
    LowTierConstant(p, 70.0);
    var q := Order(0);
    forall j | 0 <= j < |os| ensures OutcomeCost(c, TableWindow, p, s, q, os[j].demand) <= 70.0 {
      var d := os[j].demand;
      ShortPeriodCost(c, s, q, d);
      assert Next(c, TableWindow, p - 1, s + q - d) == 0.0;
      OutcomeCostSplit(c, TableWindow, p, s, q, d);
    }
    ExpectedAtMost(c, TableWindow, p, s, q, os, |os|, 70.0);
  }

  /** One unfolding of `OutcomeCost`, stated apart so that the concrete lemmas above need
      not unfold it among the instance's known values. */
  lemma OutcomeCostSplit(c: InventoryControl, b: Boundary, p: nat, s: int, q: nat, d: int)
    requires 1 <= p
    ensures OutcomeCost(c, b, p, s, q, d) == PeriodCost(c, s, q, d) + Next(c, b, p - 1, s + q - d)
  {
  }

  /** Every order after the first is at least one step. */
  lemma OrderZeroOrAtLeastStep(i: nat)
    requires i < OrderCount
    ensures Order(i) == 0 || OrderStep <= Order(i)
  {
    assert Order(i) == OrderStep * i;
  }

  /** The arithmetic of the bound: a shortage of 50 + d - q, ordering at 10 per unit, and a
      future of at least 50 when nothing was ordered. */
  lemma FirstPeriodBound(cost: real, future: real, q: nat, d: int)
    requires 10 <= d && (q == 0 || 5 <= q)
    requires cost == (d + 50 - q) as real + (if q > 0 then 10.0 * q as real else 0.0)
    requires 0.0 <= future && (q == 0 ==> 50.0 <= future)
    ensures 105.0 <= cost + future
  {
  }

  /** The two solvers disagree on this instance, although its initial stock lies inside the
      table's window, so the bottom-up lookup succeeds. */
  lemma WindowTruncationDiverges()
    ensures TableLo <= Divergent.initialStock < TableHi
    ensures Value(Divergent, TableWindow, DivergentPeriods, Divergent.initialStock)
          < Value(Divergent, Unbounded, DivergentPeriods, Divergent.initialStock)
  {
    WindowAtMost(Divergent, DivergentPeriods, Divergent.initialStock);
    UnboundedAtLeast(Divergent, DivergentPeriods, Divergent.initialStock);
  }
}
