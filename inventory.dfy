/**
 The inventory-control problem instance: the cost model (three cost rates and the
 initial stock) and the period-dependent demand distribution. Everything here is a
 pure function of read-only parameters. Costs and probabilities are exact reals.
 */
module Inventory {

  /** The problem parameters. `holdingCost` is charged per unit left in stock at the
      end of a period, `shortageCost` per unit of backlog, `orderCost` per unit ordered. */
  datatype InventoryControl = InventoryControl(
    initialStock: int,
    holdingCost: real,
    shortageCost: real,
    orderCost: real
  )

  /** One possible demand value and its probability, in tenths: every probability in the
      distribution is a multiple of 1/10, so `tenths` holds it exactly. */
  datatype Outcome = Outcome(demand: nat, tenths: nat)

  function Probability(o: Outcome): real {
    o.tenths as real / 10.0
  }

  /** Bounds of every demand value the distribution can produce. */
  const MinDemand: nat := 10
  const MaxDemand: nat := 30

  ghost predicate NonNegativeRates(c: InventoryControl) {
    c.holdingCost >= 0.0 && c.shortageCost >= 0.0 && c.orderCost >= 0.0
  }

  /** Total probability of a list of outcomes. */
  function ProbabilityMass(os: seq<Outcome>): real {
    if os == [] then 0.0 else Probability(os[0]) + ProbabilityMass(os[1..])
  }

  /** The demand distribution of a period, in three hard-coded tiers: periods up to 5,
      periods 6 to 10, and later periods. */
  function DemandOutcomes(period: int): (r: seq<Outcome>)
    ensures |r| == 3
    ensures ProbabilityMass(r) == 1.0
    ensures forall j :: 0 <= j < |r| ==>
      MinDemand <= r[j].demand <= MaxDemand && 0.0 < Probability(r[j]) <= 1.0
  {
    if period <= 5 then
      [Outcome(10, 3), Outcome(15, 4), Outcome(20, 3)]
    else if period <= 10 then
      [Outcome(15, 2), Outcome(20, 5), Outcome(25, 3)]
    else
      [Outcome(20, 4), Outcome(25, 4), Outcome(30, 2)]
  }

  /** The distribution of periods one to five: demands 10, 15 and 20 with probabilities
      0.3, 0.4 and 0.3. */
  lemma FirstTierOutcomes(p: int)
    requires 1 <= p <= 5
    ensures DemandOutcomes(p) == [Outcome(10, 3), Outcome(15, 4), Outcome(20, 3)]
  {
  }

  /** Stock after ordering `order` units and meeting `demand`; negative means backlog. */
  function EndingStock(stock: int, order: int, demand: int): int {
    stock + order - demand
  }

  /** The charge for `units` units at `rate` per unit, accumulated one unit at a time
      (`ChargeIsProduct` shows it is the product). */
  function Charge(units: nat, rate: real): (r: real)
    ensures rate >= 0.0 ==> r >= 0.0
    ensures rate == 0.0 ==> r == 0.0
  {
    if units == 0 then 0.0 else Charge(units - 1, rate) + rate
  }

  lemma {:induction false} ChargeIsProduct(units: nat, rate: real)
    ensures Charge(units, rate) == units as real * rate
  {
    if units > 0 {
      ChargeIsProduct(units - 1, rate);
      assert (units - 1) as real * rate + rate == units as real * rate;
    }
  }

  /** A higher rate never gives a lower charge. */
  lemma {:induction false} ChargeMonotone(units: nat, low: real, high: real)
    requires low <= high
    ensures Charge(units, low) <= Charge(units, high)
  {
    if units > 0 {
      ChargeMonotone(units - 1, low, high);
    }
  }

  /** `x` weighted by the probability of `o`. */
  function Weighted(o: Outcome, x: real): real {
    Charge(o.tenths, x) / 10.0
  }

  lemma WeightedIsProduct(o: Outcome, x: real)
    ensures Weighted(o, x) == Probability(o) * x
  {
    ChargeIsProduct(o.tenths, x);
    assert o.tenths as real * x / 10.0 == o.tenths as real / 10.0 * x;
  }

  /** The per-unit ordering cost, charged only when something is ordered. */
  function OrderingCost(c: InventoryControl, order: int): real {
    if order > 0 then Charge(order, c.orderCost) else 0.0
  }

  /** Cost of one period: holding cost on leftover stock, shortage cost on backlog,
      and the ordering cost. */
  function PeriodCost(c: InventoryControl, stock: int, order: int, demand: int): (r: real)
    ensures NonNegativeRates(c) ==> r >= 0.0
  {
    var ending := EndingStock(stock, order, demand);
    var holding := Charge(if ending > 0 then ending else 0, c.holdingCost);
    var shortage := Charge(if -ending > 0 then -ending else 0, c.shortageCost);
    holding + shortage + OrderingCost(c, order)
  }

  /** At most one of the holding and shortage charges applies: leftover stock is charged
      at the holding rate, a backlog at the shortage rate. */
  lemma PeriodCostCases(c: InventoryControl, stock: int, order: int, demand: int)
    ensures EndingStock(stock, order, demand) >= 0 ==>
      PeriodCost(c, stock, order, demand)
        == EndingStock(stock, order, demand) as real * c.holdingCost + OrderingCost(c, order)
    ensures EndingStock(stock, order, demand) <= 0 ==>
      PeriodCost(c, stock, order, demand)
        == (-EndingStock(stock, order, demand)) as real * c.shortageCost + OrderingCost(c, order)
    ensures OrderingCost(c, order) == if order > 0 then order as real * c.orderCost else 0.0
  {
    var ending := EndingStock(stock, order, demand);
    if ending >= 0 {
      ChargeIsProduct(ending, c.holdingCost);
    }
    if ending <= 0 {
      ChargeIsProduct(-ending, c.shortageCost);
    }
    if order > 0 {
      ChargeIsProduct(order, c.orderCost);
    }
  }

  /** Raising the shortage rate never lowers the cost of a period. */
  lemma PeriodCostMonotoneInShortage(c: InventoryControl, extra: real, stock: int, order: int, demand: int)
    requires extra >= 0.0
    ensures PeriodCost(c, stock, order, demand)
         <= PeriodCost(c.(shortageCost := c.shortageCost + extra), stock, order, demand)
  {
    var ending := EndingStock(stock, order, demand);
    if ending < 0 {
      ChargeMonotone(-ending, c.shortageCost, c.shortageCost + extra);
    }
  }

  /** With all rates zero a period costs nothing. */
  lemma PeriodCostZeroRates(c: InventoryControl, stock: int, order: int, demand: int)
    requires c.holdingCost == 0.0 && c.shortageCost == 0.0 && c.orderCost == 0.0
    ensures PeriodCost(c, stock, order, demand) == 0.0
  {
  }
}
