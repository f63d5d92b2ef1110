/**
 The bottom-up solver: a table indexed by (periods remaining, stock), filled row by
 row for stocks in the fixed window [TableLo, TableHi). A next stock outside the
 window is not in the table and contributes a future cost of 0, so the table holds the
 recurrence under the boundary policy `TableWindow`.
 */
module BottomUp {
  import opened Inventory
  import opened Recurrence

  datatype Option<T> = None | Some(value: T)

  /** The stocks that get a table entry in every row. */
  const TableLo: int := -50
  const TableHi: int := 100
  const TableWindow: Boundary := Window(TableLo, TableHi)

  /** Row `row` of `dp` is complete for the window [lo, hi): it has exactly the window's
      stocks, each holding the windowed value of its state. */
  ghost predicate TableRow(c: InventoryControl, lo: int, hi: int, dp: map<Key, real>, row: nat) {
    forall x: int ::
      ((row, x) in dp <==> lo <= x < hi)
      && ((row, x) in dp ==> dp[(row, x)] == Value(c, Window(lo, hi), row, x))
  }

  /** The future cost the table loop reads for a next state: its entry, or 0 when the
      state is not in the table. */
  function Lookup(dp: map<Key, real>, k: Key): real {
    if k in dp then dp[k] else 0.0
  }

  /** Looking a next state up in a complete row, with 0 for a missing entry, gives its
      future cost; a stock outside the window is missing and costs 0. */
  lemma TableLookup(c: InventoryControl, lo: int, hi: int, dp: map<Key, real>, row: nat, x: int)
    requires TableRow(c, lo, hi, dp, row)
    ensures Lookup(dp, (row, x)) == Next(c, Window(lo, hi), row, x)
    ensures !(lo <= x < hi) ==> (row, x) !in dp && Next(c, Window(lo, hi), row, x) == 0.0
  {
  }

  /** One step of the expectation loop: adding outcome `j`, with its future cost looked up
      in a complete row, extends the sum over the first `j` outcomes to the first `j + 1`. */
  lemma ExpectedStepFromTable(c: InventoryControl, lo: int, hi: int, dp: map<Key, real>, period: nat, stock: int,
                              order: nat, os: seq<Outcome>, j: nat, next: int, expected: real, future: real)
    requires 1 <= period && TableRow(c, lo, hi, dp, period - 1) && j < |os|
    requires expected == Expected(c, Window(lo, hi), period, stock, order, os, j)
    requires next == stock + order - os[j].demand
    requires future == Lookup(dp, (period - 1, next))
    ensures expected + Weighted(os[j], PeriodCost(c, stock, order, os[j].demand) + future)
         == Expected(c, Window(lo, hi), period, stock, order, os, j + 1)
  {
    TableLookup(c, lo, hi, dp, period - 1, next);
  }

  /** Expected cost of ordering `order` in state (period, stock), with future costs read
      from row `period - 1` of the table. */
  method ExpectedFromTable(c: InventoryControl, lo: int, hi: int, dp: map<Key, real>, period: nat, stock: int,
                           order: nat) returns (expected: real)
    requires 1 <= period && TableRow(c, lo, hi, dp, period - 1)
    ensures expected
         == Expected(c, Window(lo, hi), period, stock, order, DemandOutcomes(period), |DemandOutcomes(period)|)
  {
    var outcomes := DemandOutcomes(period);
    expected := 0.0;
    for j := 0 to |outcomes|
      invariant expected == Expected(c, Window(lo, hi), period, stock, order, outcomes, j)
    {
      var demand := outcomes[j].demand;
      var cost := PeriodCost(c, stock, order, demand);
      var next := stock + order - demand;
      var future := Lookup(dp, (period - 1, next));
      ExpectedStepFromTable(c, lo, hi, dp, period, stock, order, outcomes, j, next, expected, future);
      expected := expected + Weighted(outcomes[j], cost + future);
    }
  }

  /** Value of the cell (period, stock): the cheapest order's expected cost. */
  method CellValue(c: InventoryControl, lo: int, hi: int, dp: map<Key, real>, period: nat, stock: int)
      returns (minimum: real)
    requires 1 <= period && TableRow(c, lo, hi, dp, period - 1)
    ensures minimum == Value(c, Window(lo, hi), period, stock)
  {
    minimum := 0.0;
    for i := 0 to OrderCount
      invariant i > 0 ==> minimum == Best(c, Window(lo, hi), period, stock, i)
    {
      var expected := ExpectedFromTable(c, lo, hi, dp, period, stock, Order(i));
      minimum := if i == 0 then expected else Min(minimum, expected);
    }
  }

  /** The table for rows 0 to `totalPeriods` over the stocks [lo, hi): its keys are
      exactly those rows times those stocks, and every entry is the windowed value of its
      state. A negative `totalPeriods` gives the empty table. */
  method FillTable(c: InventoryControl, totalPeriods: int, lo: int, hi: int) returns (dp: map<Key, real>)
    ensures forall k :: k in dp <==> 0 <= k.0 <= totalPeriods && lo <= k.1 < hi
    ensures forall k :: k in dp ==> k.0 >= 0 && dp[k] == Value(c, Window(lo, hi), k.0, k.1)
    ensures forall k :: k in dp && k.0 == 0 ==> dp[k] == 0.0
  {
    dp := map[];
    var rows := if totalPeriods >= 0 then totalPeriods + 1 else 0;
    for period := 0 to rows
      invariant forall k :: k in dp <==> 0 <= k.0 < period && lo <= k.1 < hi
      invariant forall k :: k in dp ==> k.0 >= 0 && dp[k] == Value(c, Window(lo, hi), k.0, k.1)
    {
      var stock := lo;
      while stock < hi
        invariant lo <= hi ==> lo <= stock <= hi
        invariant hi < lo ==> stock == lo
        invariant forall k :: k in dp <==> (0 <= k.0 < period && lo <= k.1 < hi) || (k.0 == period && lo <= k.1 < stock)
        invariant forall k :: k in dp ==> k.0 >= 0 && dp[k] == Value(c, Window(lo, hi), k.0, k.1)
      {
        if period == 0 {
          dp := dp[(period, stock) := 0.0];
        } else {
          assert TableRow(c, lo, hi, dp, period - 1);
          var minimum := CellValue(c, lo, hi, dp, period, stock);
          dp := dp[(period, stock) := minimum];
        }
        stock := stock + 1;
      }
    }
  }

  /** The bottom-up answer for the initial stock. The final lookup fails (None) when
      `totalPeriods` is negative or the initial stock lies outside the window. */
  method SolveBottomUp(c: InventoryControl, totalPeriods: int) returns (r: Option<real>)
    ensures r.Some? <==> 0 <= totalPeriods && TableLo <= c.initialStock < TableHi
    ensures r.Some? ==> r.value == Value(c, TableWindow, totalPeriods, c.initialStock)
  {
    var dp := FillTable(c, totalPeriods, TableLo, TableHi);
    var key := (totalPeriods, c.initialStock);
    if key in dp {
      r := Some(dp[key]);
    } else {
      r := None;
    }
  }

  /** A window reaching `MaxDemand` below and `MaxOrder - MinDemand` above the initial stock
      for every period of the horizon holds every state the recursion can reach. */
  function CoveringWindow(initialStock: int, totalPeriods: nat): (w: (int, int))
    ensures w.0 <= initialStock < w.1
    ensures Covered(w.0, w.1, totalPeriods, initialStock)
  {
    var lo, hi := initialStock - MaxDemand * totalPeriods, initialStock + (MaxOrder - MinDemand) * totalPeriods + 1;
    assert MaxDemand * totalPeriods >= MaxDemand * (totalPeriods - 1);
    assert (MaxOrder - MinDemand) * totalPeriods >= (MaxOrder - MinDemand) * (totalPeriods - 1);
    UniformlyCoveredIsCovered(lo, hi, totalPeriods, initialStock);
    (lo, hi)
  }

  /** The bottom-up solver with its window sized to the horizon instead of fixed: its
      answer is the unbounded value, the one the top-down solver computes. */
  method SolveBottomUpCovering(c: InventoryControl, totalPeriods: nat) returns (r: real)
    ensures r == Value(c, Unbounded, totalPeriods, c.initialStock)
  {
    var (lo, hi) := CoveringWindow(c.initialStock, totalPeriods);
    var dp := FillTable(c, totalPeriods, lo, hi);
    r := dp[(totalPeriods, c.initialStock)];
    WindowAgreesWithUnbounded(c, lo, hi, totalPeriods, c.initialStock);
  }
}
