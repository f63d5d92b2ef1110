/**
 The top-down solver: a recursion on (periods remaining, stock) that caches every
 state it solves in a memo table owned by the caller. The memo is an object whose
 table the solver extends in place.
 */
module TopDown {
  import opened Inventory
  import opened Recurrence

  class Memo {
    var table: map<Key, real>

    constructor ()
      ensures table == map[]
    {
      table := map[];
    }
  }

  /** Every entry holds the unbounded value of its state. */
  ghost predicate Sound(c: InventoryControl, m: map<Key, real>) {
    forall k :: k in m ==> k.0 >= 0 && m[k] == Value(c, Unbounded, k.0, k.1)
  }

  /** An envelope around the states a solve from (p, s) can visit: at most p periods
      remaining and at least one, and a stock within -MaxDemand and MaxOrder - MinDemand
      per period of the start. It is larger than the set of visited states, since it
      ignores that orders come in steps of 5 and that each tier has its own demands. */
  ghost predicate InEnvelope(p: int, s: int, k: Key) {
    1 <= k.0 <= p
    && s - MaxDemand * (p - k.0) <= k.1 <= s + (MaxOrder - MinDemand) * (p - k.0)
  }

  /** A state in the envelope of a next state of (p, s) is in the envelope of (p, s). */
  lemma InEnvelopeStep(p: int, s: int, next: int, k: Key)
    requires s - MaxDemand <= next <= s + (MaxOrder - MinDemand)
    requires InEnvelope(p - 1, next, k)
    ensures InEnvelope(p, s, k) && k.0 < p
  {
    assert MaxDemand * (p - k.0) == MaxDemand * (p - 1 - k.0) + MaxDemand;
    assert (MaxOrder - MinDemand) * (p - k.0) == (MaxOrder - MinDemand) * (p - 1 - k.0) + (MaxOrder - MinDemand);
  }

  /** Minimum expected cost with `period` periods remaining and stock `stock`,
      computed by recursion and cached in `memo`. */
  method SolveTopDown(c: InventoryControl, period: nat, stock: int, memo: Memo) returns (r: real)
    modifies memo
    decreases period, 1
    ensures period == 0 ==> r == 0.0 && memo.table == old(memo.table)
    ensures period > 0 && (period, stock) in old(memo.table) ==>
      r == old(memo.table)[(period, stock)] && memo.table == old(memo.table)
    ensures forall k :: k in old(memo.table) ==> k in memo.table && memo.table[k] == old(memo.table)[k]
    ensures period > 0 ==> (period, stock) in memo.table && memo.table[(period, stock)] == r
    ensures forall k :: k in memo.table && k !in old(memo.table) ==> InEnvelope(period, stock, k)
    ensures Sound(c, old(memo.table)) ==> Sound(c, memo.table) && r == Value(c, Unbounded, period, stock)
  {
    if period == 0 {
      return 0.0;
    }
    var key := (period, stock);
    if key in memo.table {
      return memo.table[key];
    }
    ghost var sound := Sound(c, memo.table);
    var minimum := 0.0;
    for i := 0 to OrderCount
      invariant forall k :: k in old(memo.table) ==> k in memo.table && memo.table[k] == old(memo.table)[k]
      invariant forall k :: k in memo.table && k !in old(memo.table) ==> InEnvelope(period, stock, k) && k.0 < period
      invariant sound ==> Sound(c, memo.table)
      invariant sound && i > 0 ==> minimum == Best(c, Unbounded, period, stock, i)
    {
      var expected := ExpectedTopDown(c, period, stock, Order(i), memo);
      minimum := if i == 0 then expected else Min(minimum, expected);
    }
    memo.table := memo.table[key := minimum];
    r := minimum;
  }

  /** Expected cost of ordering `order` in state (period, stock), solving each next state
      recursively through `memo`. */
  method ExpectedTopDown(c: InventoryControl, period: nat, stock: int, order: nat, memo: Memo) returns (expected: real)
    requires 1 <= period && order <= MaxOrder
    modifies memo
    decreases period, 0
    ensures forall k :: k in old(memo.table) ==> k in memo.table && memo.table[k] == old(memo.table)[k]
    ensures forall k :: k in memo.table && k !in old(memo.table) ==> InEnvelope(period, stock, k) && k.0 < period
    ensures Sound(c, old(memo.table)) ==>
      Sound(c, memo.table)
      && expected == Expected(c, Unbounded, period, stock, order, DemandOutcomes(period), |DemandOutcomes(period)|)
  {
    ghost var sound := Sound(c, memo.table);
    var outcomes := DemandOutcomes(period);
    expected := 0.0;
    for j := 0 to |outcomes|
      invariant forall k :: k in old(memo.table) ==> k in memo.table && memo.table[k] == old(memo.table)[k]
      invariant forall k :: k in memo.table && k !in old(memo.table) ==> InEnvelope(period, stock, k) && k.0 < period
      invariant sound ==> Sound(c, memo.table)
      invariant sound ==> expected == Expected(c, Unbounded, period, stock, order, outcomes, j)
    {
      var demand := outcomes[j].demand;
      var cost := PeriodCost(c, stock, order, demand);
      var next := stock + order - demand;
      ghost var before := memo.table;
      var future := SolveTopDown(c, period - 1, next, memo);
      forall k | k in memo.table && k !in old(memo.table)
        ensures InEnvelope(period, stock, k) && k.0 < period
      {
        if k !in before {
          InEnvelopeStep(period, stock, next, k);
        }
      }
      assert sound ==> future == Next(c, Unbounded, period - 1, next);
      expected := expected + Weighted(outcomes[j], cost + future);
    }
  }
}
