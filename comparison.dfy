/**
 Running both solvers on one problem instance, as the comparison driver does, and what
 can be said about their two answers.
 */
module Comparison {
  import opened Inventory
  import opened Recurrence
  import opened TopDown
  import opened BottomUp

  /** Solves the instance top-down with a fresh memo and bottom-up with the table.
      When every state the recursion looks up with a period remaining lies inside the
      table's window, and the initial stock does too, the two answers are equal. */
  method CompareSolvers(c: InventoryControl, totalPeriods: nat) returns (recursive: real, iterative: Option<real>)
    ensures recursive == Value(c, Unbounded, totalPeriods, c.initialStock)
    ensures iterative.Some? <==> TableLo <= c.initialStock < TableHi
    ensures iterative.Some? ==> iterative.value == Value(c, TableWindow, totalPeriods, c.initialStock)
    ensures Covered(TableLo, TableHi, totalPeriods, c.initialStock) && TableLo <= c.initialStock < TableHi ==>
      iterative == Some(recursive)
    ensures NonNegativeRates(c) && iterative.Some? ==> iterative.value <= recursive
  {
    var memo := new Memo();
    assert Sound(c, memo.table);
    recursive := SolveTopDown(c, totalPeriods, c.initialStock, memo);
    iterative := SolveBottomUp(c, totalPeriods);
    if Covered(TableLo, TableHi, totalPeriods, c.initialStock) && TableLo <= c.initialStock < TableHi {
      WindowAgreesWithUnbounded(c, TableLo, TableHi, totalPeriods, c.initialStock);
    }
    if NonNegativeRates(c) && iterative.Some? {
      WindowNeverAboveUnbounded(c, TableLo, TableHi, totalPeriods, c.initialStock);
    }
  }

  /** The same comparison against the bottom-up solver whose window is sized to the
      horizon: the two answers are always equal. */
  method CompareSolversCovering(c: InventoryControl, totalPeriods: nat) returns (recursive: real, iterative: real)
    ensures recursive == Value(c, Unbounded, totalPeriods, c.initialStock)
    ensures iterative == recursive
  {
    var memo := new Memo();
    assert Sound(c, memo.table);
    recursive := SolveTopDown(c, totalPeriods, c.initialStock, memo);
    iterative := SolveBottomUpCovering(c, totalPeriods);
  }

  /** With two periods left, the fixed window covers exactly the stocks in [-30, 65): the
      lowest next stock (no order, demand 20) and the highest (order 45, demand 10) must
      both lie in [TableLo, TableHi). */
  lemma TableCoveredTwo(p: nat, s: int)
    requires p == 2
    ensures Covered(TableLo, TableHi, p, s) <==> -30 <= s < 65
  {
    FirstTierOutcomes(p);
    assert Order(0) == 0 && Order(9) == 45;
    if Covered(TableLo, TableHi, p, s) {
      CoveredNext(TableLo, TableHi, p, s, 0, 2);
      CoveredNext(TableLo, TableHi, p, s, 9, 0);
    }
    if -30 <= s < 65 {
      forall i, j | 0 <= i < OrderCount && 0 <= j < |DemandOutcomes(p)|
        ensures TableLo <= NextStock(p, s, i, j) < TableHi
      {
      }
    }
  }

  /** With three periods left, the fixed window covers exactly the stocks in [-10, 30). */
  lemma TableCoveredThree(p: nat, s: int)
    requires p == 3
    ensures Covered(TableLo, TableHi, p, s) <==> -10 <= s < 30
  {
    FirstTierOutcomes(p);
    assert Order(0) == 0 && Order(9) == 45;
    if Covered(TableLo, TableHi, p, s) {
      CoveredNext(TableLo, TableHi, p, s, 0, 2);
      TableCoveredTwo(p - 1, NextStock(p, s, 0, 2));
      CoveredNext(TableLo, TableHi, p, s, 9, 0);
      TableCoveredTwo(p - 1, NextStock(p, s, 9, 0));
    }
    if -10 <= s < 30 {
      forall i, j | 0 <= i < OrderCount && 0 <= j < |DemandOutcomes(p)|
        ensures TableLo <= NextStock(p, s, i, j) < TableHi
             && Covered(TableLo, TableHi, p - 1, NextStock(p, s, i, j))
      {
        TableCoveredTwo(p - 1, NextStock(p, s, i, j));
      }
    }
  }

  /** With four or more periods left no stock is covered by the fixed window, so the
      agreement clause of `CompareSolvers` speaks only of horizons of at most three. */
  lemma {:induction false} TableNeverCoveredFromFour(p: nat, s: int)
    requires 4 <= p
    ensures !Covered(TableLo, TableHi, p, s)
  {
    if Covered(TableLo, TableHi, p, s) {
      if p == 4 {
        FirstTierOutcomes(p);
        assert Order(0) == 0 && Order(9) == 45;
        CoveredNext(TableLo, TableHi, p, s, 0, 2);
        TableCoveredThree(p - 1, NextStock(p, s, 0, 2));
        CoveredNext(TableLo, TableHi, p, s, 9, 0);
        TableCoveredThree(p - 1, NextStock(p, s, 9, 0));
      } else {
        CoveredNext(TableLo, TableHi, p, s, 0, 0);
        TableNeverCoveredFromFour(p - 1, NextStock(p, s, 0, 0));
      }
      assert false;
    }
  }

  /** The driver's instance, stock 20 with 12 periods: ordering nothing against demands of
      30, 30 and 25 reaches stock -65 with 9 periods left, below the table's window, and
      the window does not cover the instance. */
  lemma DriverInstanceLeavesTable(p: nat, s: int)
    requires p == 12 && s == 20
    ensures NextStock(p - 2, NextStock(p - 1, NextStock(p, s, 0, 2), 0, 2), 0, 2) == -65 < TableLo
    ensures !Covered(TableLo, TableHi, p, s)
  {
    assert Order(0) == 0;
    TableNeverCoveredFromFour(p, s);
  }
}
