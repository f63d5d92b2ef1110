# Stochastic inventory control by dynamic programming

The modelled program plans orders for one stocked item over a finite horizon. In each
period the planner orders one of the quantities 0, 5, …, 45. A random demand then
arrives, drawn from a three-point distribution that depends on the period. Every unit
left in stock costs a holding rate and every unit of backlog a shortage rate; each
ordered unit costs an order rate. The minimum expected total cost over the horizon
comes from a dynamic program over states (periods remaining, stock). The program
solves it twice:

- top-down, by a recursion that caches solved states in a memo dictionary owned by
  the caller;
- bottom-up, by filling a table row by row over the fixed stock window [-50, 100).
  A next stock outside that window counts as a future cost of 0, and the final
  lookup fails when the initial stock is outside the window.

A driver runs both solvers on one instance and compares the answers.

The Dafny project has six modules:

- `Inventory` (`inventory.dfy`): the instance, the demand distribution and the cost
  of one period. These are pure functions.
- `Recurrence` (`recurrence.dfy`): the value function that both solvers compute,
  written once as mutually recursive functions over a `Boundary` policy. `Unbounded`
  is the top-down solver and `Window(lo, hi)` is the bottom-up table. The module also
  holds the lemmas about the value function.
- `TopDown` (`top_down.dfy`): the memo as a class with a map field, and the recursive
  solver as methods that extend that map in place.
- `BottomUp` (`bottom_up.dfy`): the table filled by loops over periods, stocks, orders
  and outcomes, each proved against `Recurrence`. The failing final lookup is an
  `Option`.
- `Comparison` (`comparison.dfy`): the driver's two solver calls and what can be said
  about their answers.
- `Divergence` (`divergence.dfy`): a concrete instance on which the two solvers
  disagree (see "Findings").

All line references below are to `controle_estoque.py`.

## Model

| member | source | states |
|---|---|---|
| Inventory.DemandOutcomes | controle_estoque.py:14-21 | Every period has exactly three outcomes. Their probabilities sum to 1, each lies in (0, 1], and every demand lies in [10, 30]. |
| Inventory.FirstTierOutcomes | controle_estoque.py:16-17 | Periods one to five draw demands 10, 15 and 20 with probabilities 0.3, 0.4 and 0.3. |
| Inventory.Probability | controle_estoque.py:17-21 | The probability of an outcome, stored as whole tenths, as a real number. |
| Inventory.EndingStock | controle_estoque.py:25 | The stock after ordering and meeting the demand: stock + order − demand, negative for a backlog. |
| Inventory.OrderingCost | controle_estoque.py:29 | The order rate times the quantity when the quantity is positive, otherwise 0. |
| Inventory.Charge | controle_estoque.py:27-29 | A per-unit charge is non-negative at a non-negative rate and zero at a zero rate. |
| Inventory.ChargeIsProduct | controle_estoque.py:27-29 | The charge for n units at rate r is exactly n·r, the product the cost function computes. |
| Inventory.ChargeMonotone | controle_estoque.py:28 | A higher rate never gives a lower charge for the same units. |
| Inventory.WeightedIsProduct | controle_estoque.py:53 | Weighting a cost by an outcome is multiplication by that outcome's probability. |
| Inventory.Weighted | controle_estoque.py:53 | A cost weighted by an outcome's probability, that is the tenths times the cost, divided by 10. |
| Inventory.PeriodCost | controle_estoque.py:23-31 | With non-negative rates the cost of a period is non-negative. |
| Inventory.PeriodCostCases | controle_estoque.py:23-31 | Leftover stock is charged only at the holding rate and a backlog only at the shortage rate, so one product term applies. The order term is quantity·rate when the quantity is positive and 0 otherwise. |
| Inventory.PeriodCostMonotoneInShortage | controle_estoque.py:28 | Raising the shortage rate never lowers a period's cost. |
| Inventory.PeriodCostZeroRates | controle_estoque.py:23-31 | With all three rates zero a period costs 0. |
| Recurrence.Order | controle_estoque.py:45 | Every tried order is a multiple of 5 and at most 45. |
| Recurrence.Min | controle_estoque.py:55 | The minimum is at most both arguments and equals one of them. |
| Recurrence.Value | controle_estoque.py:36-58 | 0 with no periods left; otherwise the minimum over the ten orders of the probability-weighted sum of period cost plus next-state cost, with the next-state cost taken according to the `Boundary`. |
| Recurrence.Best | controle_estoque.py:44-55 | The running minimum of the expected costs of the first n orders, kept in the order they are tried. |
| Recurrence.OrderExpectation | controle_estoque.py:46-53 | The expected cost of one tried order: the weighted sum over all outcomes of the period's demand tier. |
| Recurrence.Expected | controle_estoque.py:47-53 | The running sum over the first k outcomes of probability times (period cost plus next-state cost), accumulated in list order. |
| Recurrence.OutcomeCost | controle_estoque.py:50-53 | The period cost of one outcome plus the cost of the next state, with stock + order − demand and one period fewer. |
| Recurrence.Next | controle_estoque.py:79-82 | The cost of the next state: with `Unbounded` the recursive value (line 52); with `Window(lo, hi)` that value for stocks in the window and 0 outside it, as the table lookup does. |
| Recurrence.NextStock | controle_estoque.py:51 | The stock after the i-th tried order and the j-th outcome of the period. |
| Recurrence.BestIsMinimum | controle_estoque.py:44-55 | The running minimum over the first n orders is below each of their expected costs and equal to one of them. |
| Recurrence.ValueIsCheapestOrder | controle_estoque.py:33-58 | With periods left, a state's value is the expected cost of the cheapest of the ten orders: no order is cheaper and one attains it. |
| Recurrence.ExpectedLe | controle_estoque.py:47-53 | Outcome costs that are pointwise lower give a lower expected cost, because the weights are non-negative. |
| Recurrence.BestLe | controle_estoque.py:44-55 | Order costs that are pointwise lower give a lower value. |
| Recurrence.ValueNonNegative | controle_estoque.py:33-58 | With non-negative rates every state's value is non-negative, under either boundary policy. |
| Recurrence.ExpectedNonNegative | controle_estoque.py:47-53 | With non-negative rates and a non-negative next row, every expected order cost is non-negative. |
| Recurrence.ValueZeroRates | controle_estoque.py:33-58 | With all rates zero every state is worth exactly 0. |
| Recurrence.ExpectedZeroRates | controle_estoque.py:47-53 | With all rates zero and a zero next row, every expected order cost is 0. |
| Recurrence.ValueMonotoneInShortage | controle_estoque.py:23-58 | Raising the shortage rate never lowers the optimal expected cost of any state. |
| Recurrence.OrderExpectationMonotoneInShortage | controle_estoque.py:45-53 | The same monotonicity for one order's expected cost, given it for the next row. |
| Recurrence.ExpectedAtLeast | controle_estoque.py:47-53 | Outcome costs of at least x give an expected cost of at least the expectation of x. |
| Recurrence.OrderExpectationAtLeast | controle_estoque.py:45-53 | The same lower bound for the expected cost of one tried order. |
| Recurrence.ExpectedAtMost | controle_estoque.py:47-53 | Outcome costs of at most x give an expected cost of at most the expectation of x. |
| Recurrence.WindowNeverAboveUnbounded | controle_estoque.py:79-82 | With non-negative rates, costing out-of-window next stocks at 0 can only lower a value, never raise it. |
| Recurrence.OrderExpectationWindowBelow | controle_estoque.py:72-84 | The same inequality for one order's expected cost, given it for the next row. |
| Recurrence.CoveredNext | controle_estoque.py:76-82 | In a covered state with two or more periods left, the next stock of every tried order and outcome lies in the window and is covered one period later. |
| Recurrence.UniformlyCoveredStep | controle_estoque.py:45-51 | A period moves the stock by at least -30 and at most 35, so a state inside the closed-form envelope has every next stock in the window and inside the envelope one period later. |
| Recurrence.UniformlyCoveredIsCovered | controle_estoque.py:45-51 | The closed-form envelope is a sufficient condition for being covered. |
| Recurrence.WindowAgreesWithUnbounded | controle_estoque.py:79-82 | In a covered state the windowed value equals the unbounded value. A state is covered when every stock the recursion looks up with a period remaining, for every tried order and every outcome of the tier, lies in the window. |
| Recurrence.OutcomeCostAgrees | controle_estoque.py:76-84 | In a covered state the cost of one outcome is the same under both boundary policies. |
| Recurrence.OrderExpectationAgrees | controle_estoque.py:72-84 | In a covered state one order's expected cost is the same under both boundary policies. |
| TopDown.Memo.constructor | controle_estoque.py:103 | A new memo is empty. |
| TopDown.InEnvelopeStep | controle_estoque.py:50-51 | A state in the envelope `InEnvelope` of a next state is in the envelope of the current state, with fewer periods left. |
| TopDown.SolveTopDown | controle_estoque.py:33-58 | Zero periods give 0 and leave the memo unchanged. A cached state returns its entry and leaves the memo unchanged. Old entries are kept, the solved state is cached with the result, and every new key lies in the envelope `InEnvelope` of the call. From a sound memo the result is the unbounded value and the memo stays sound. |
| TopDown.ExpectedTopDown | controle_estoque.py:45-53 | One order's loop over the outcomes: old entries are kept and new keys lie in the envelope `InEnvelope`. From a sound memo the sum is the unbounded expected cost of that order and the memo stays sound. |
| BottomUp.TableLookup | controle_estoque.py:79-82 | Looking a stock up in a complete row, with 0 for a missing key, gives its windowed future cost. A stock outside the window is missing and costs 0. |
| BottomUp.Lookup | controle_estoque.py:79-82 | The entry for a key when the table has it, 0 otherwise. |
| BottomUp.ExpectedStepFromTable | controle_estoque.py:75-84 | One outcome step of the table loop extends the expected sum by that outcome's windowed cost. |
| BottomUp.ExpectedFromTable | controle_estoque.py:72-84 | Reading future costs from the previous row gives the windowed expected cost of the order. |
| BottomUp.CellValue | controle_estoque.py:69-88 | The minimum over the ten orders is the windowed value of the cell. |
| BottomUp.FillTable | controle_estoque.py:62-88 | The keys are exactly rows 0 to the horizon times stocks in the window, with none for a negative horizon. Every entry is the windowed value of its state, and row 0 is all zeros. |
| BottomUp.SolveBottomUp | controle_estoque.py:60-90 | An answer exists exactly when the horizon is non-negative and the initial stock lies in [-50, 100); the other case is the lookup that fails. The answer is the windowed value of the initial state. |
| BottomUp.CoveringWindow | controle_estoque.py:65 | A window sized to the horizon contains the initial stock and covers the initial state. |
| BottomUp.SolveBottomUpCovering | controle_estoque.py:60-90 | The bottom-up solver over a horizon-sized window returns the unbounded value, the answer of the top-down solver. |
| Comparison.CompareSolvers | controle_estoque.py:115-130 | The recursive answer is the unbounded value and the iterative one is the windowed value, present exactly when the initial stock is in the window. In a covered state the two are equal. With non-negative rates the iterative answer is never above the recursive one. |
| Comparison.TableCoveredTwo | controle_estoque.py:64-82 | With two periods left, the fixed window [-50, 100) covers exactly the stocks in [-30, 65). |
| Comparison.TableCoveredThree | controle_estoque.py:64-82 | With three periods left, the fixed window covers exactly the stocks in [-10, 30). |
| Comparison.TableNeverCoveredFromFour | controle_estoque.py:64-82 | With four or more periods left, the fixed window covers no stock. |
| Comparison.DriverInstanceLeavesTable | controle_estoque.py:95-102 | From the driver's instance (stock 20, 12 periods), not ordering against demands 30, 30 and 25 reaches stock -65 with 9 periods left, below the window, and the instance is not covered. |
| Comparison.CompareSolversCovering | controle_estoque.py:115-130 | Against the horizon-sized table the two answers are always equal. |
| Divergence.ShortPeriodCost | controle_estoque.py:23-31 | Under the instance's rates, a period that ends short costs its backlog plus 10 per ordered unit. |
| Divergence.OnePeriodLeftAtLeast | controle_estoque.py:33-58 | With one period left and stock at most -55, the instance's unbounded value is at least 50. |
| Divergence.UnboundedAtLeast | controle_estoque.py:33-58 | With two periods left and stock -50, the instance's unbounded value is at least 105. |
| Divergence.WindowAtMost | controle_estoque.py:79-82 | With two periods left and stock -50, the instance's windowed value is at most 70. |
| Divergence.WindowTruncationDiverges | controle_estoque.py:64-90 | On the instance the initial stock lies in the window, yet the windowed value is strictly below the unbounded one. |

## Left out

- The printing drivers, the memo-size report and the second scenario (lines 92-153) are only output. The imports and the `demanda_maxima` field are unused by the core.
- Floating point: costs and probabilities are exact reals. The driver's 0.01 tolerance becomes exact equality.
- `float('inf')` as the starting minimum is not modelled: the first order's expected cost starts the minimum instead, which gives the same result over the non-empty order list.
- Probabilities are held as whole tenths (0.3 is 3). Money amounts are accumulated unit by unit (`Inventory.Charge`), and lemmas prove both equal to the source's products.
- A negative period passed to the recursion would never reach the base case. The model takes a natural number of periods.
- TopDown.SolveTopDown: the bound on the number of memo entries is stated as "every new key lies in the envelope `TopDown.InEnvelope`" rather than as a count. The envelope is larger than the set of visited states: it ignores that orders come in steps of 5 and that each tier has its own demands.
- Comparison.CompareSolvers: equality of the two answers is proved only for covered states (`Recurrence.Covered`). With the fixed window [-50, 100), `Comparison.TableNeverCoveredFromFour` shows that no state with four or more periods left is covered, and `Comparison.TableCoveredThree` shows that with three periods only stocks in [-10, 30) are. The equality clause therefore applies only to horizons of at most three. The driver's own instance (stock 20, 12 periods) leaves the window: `Comparison.DriverInstanceLeavesTable` reaches stock -65 with 9 periods left. Demand is capped per tier, so the lowest stock looked up with a period left is -245. For every instance, the other clause gives a one-sided bound: with non-negative rates the iterative answer is at most the recursive one.
- BottomUp.SolveBottomUp: the `KeyError` of the final lookup becomes `None`.
- The per-order and per-outcome methods (`TopDown.ExpectedTopDown`, `BottomUp.ExpectedFromTable`, `BottomUp.CellValue`) are the source's nested loop bodies lifted into methods of their own. The window parameters of `BottomUp.FillTable` generalise the literal `range(-50, 100)`; `BottomUp.SolveBottomUp` passes exactly that window.

## Findings

| source | as written | input that shows it | evidently intended | confidence | as-written member | corrected member |
|---|---|---|---|---|---|---|
| controle_estoque.py:64-90 | The table covers only stocks in [-50, 100). A next stock outside it is not looked up but costed at 0, so tail states are silently dropped. | `estoque_inicial=-50`, `custo_armazenamento=0.0`, `custo_falta=1.0`, `custo_pedido=10.0`, `total_periodos=2`. The bottom-up answer is at most 70 and the top-down answer at least 105. | The bottom-up solver returns the top-down value, as the driver's comparison expects. | medium; proved on the model, not executed | Divergence.WindowTruncationDiverges | BottomUp.SolveBottomUpCovering |

The corrected solver sizes the window to the horizon: 30 stock units below the initial
stock per period, and 35 above, plus one. `Comparison.CompareSolversCovering` uses it,
and its two answers are proved equal on every instance.
