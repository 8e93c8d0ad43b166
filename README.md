# Unbounded knapsack solver for advertising campaigns

This project models `optimizer.Solver`. The solver spends a monthly budget of
impressions on advertising campaigns. Each campaign has a cost in impressions
per unit and a value per unit, and any campaign may be bought any number of
times.

The Solver class has two tables indexed by the number of impressions `0 .. C`:
- `subproblems` is the `best` array here;
- `campaignsAdded` is the `choice` array here.

It also keeps the campaign list and the reported solution. It has four
operations:

- `generateSolution` fills the tables by dynamic programming. Levels run from
  1 upwards. At each level every campaign is tried in list order, and an entry
  is replaced only by a strictly larger candidate. The solution is then the
  top level.
- `obtainKnapsack` walks back from the top level along the choices and counts
  the units of each campaign in a map.
- `applyPriorityCampaigns` sorts the list stably with a comparator.
- `applyDominance` removes, in place, campaigns that the truncating ratio test
  `(cost_i * value_j) / value_i < cost_j` says an earlier campaign dominates.

The Java classes are modelled as follows:
- `Solver` is the class `Optimizer.Solver`. Its tables are arrays, its list is
  a `seq` field that the methods reassign, and `Valid()` is the invariant every
  public operation keeps.
- `Campaign` is a datatype. Its equality is the Java `equals` (customer,
  impressions and value).
- `Knapsack` is a datatype holding the value, the capacity and a
  `map<Campaign, nat>` of counts.

The loops are methods proved against functions on sequences:
- `Table.Improve` is one level of the fill, and `Table.Fill` is the whole fill;
- `Extraction.Picks` is the backtrack, and `Campaigns.CountMap` is the counting;
- `Priority.SortBy` is the sort;
- `Dominance.PruneFrom`, `Dominance.PruneOuter` and `Dominance.Prune` are the
  pruning loops.

The lemmas about those functions give the main results:
- the fill is optimal over every multiset of campaigns within the capacity;
- the backtrack round-trips the table;
- the fill's values do not depend on the list order;
- the pruning removes only campaigns its test condemns, but it can lose the
  optimum.

Points where the code behaves differently from what its comments or the
usual meaning of a dominance filter lead one to expect (the model follows the
code):
- The doc comment of `applyDominance` (src/optimizer/Solver.java:120-128)
  names the dominance relation of Martello and Toth. A relation of that kind
  discards only items that no optimal solution needs. The code's test
  compares truncated ratios instead, and `Optimality.PruneCanLoseOptimum`
  shows a list where the optimum drops from 2 to 0.
- A dominance filter is usually expected to test every pair. This scan moves
  past the campaign that shifts into the freed slot, and never tests the
  current last campaign. `Dominance.PruneLeavesDominated` shows two dominated
  campaigns that survive.
- The pruning divides only by the value of the campaign whose turn it is, and
  only while at least two campaigns follow it in the list as the earlier turns
  left it. A value of 0 there makes Java throw `ArithmeticException`.
  `Dominance.DividesSafely` is exactly this condition. A zero-valued campaign
  that is removed before its turn is allowed, as `Dominance.ZeroValueRemovedEarly`
  shows.
- Calling `obtainKnapsack` before `generateSolution` does not fail. It returns
  value 0, capacity 0 and an empty map, because the solution fields start at 0
  and level 0 has no choice. `Optimizer.Solver.ObtainKnapsack` states this case.
- The code checks neither the sign of the capacity nor the sign of the costs.
  The model makes both preconditions; "## Left out" says what Java does there.

## Model

| member | source | states |
|---|---|---|
| Optimizer.Solver.constructor | src/optimizer/Solver.java:30-36 | Tables for levels 0 .. maxImpressions, every level 0 with no choice, solution value and index 0, and the invariant holds |
| Optimizer.Solver.GenerateSolution | src/optimizer/Solver.java:48-75 | The tables become Fill of their old contents, the solution is the top level, the invariant is kept, no campaign can raise any level, no selection of the list within the capacity beats the solution, and from blank tables every level is solved |
| Optimizer.Solver.FillLevels | src/optimizer/Solver.java:51-72 | The outer loop over levels 1 .. C leaves both arrays equal to Fill of their old contents |
| Optimizer.Solver.ImproveLevel | src/optimizer/Solver.java:60-71 | The inner loop over the list sets level i to Improve over the levels below it and changes no other level |
| Optimizer.FillKeepsTablesInvariant | src/optimizer/Solver.java:48-75 | A whole fill keeps the solver invariant with the top level as solution, leaves the tables closed under the list, and solves blank tables |
| Optimizer.TablesInvariantForFewerCampaigns | src/optimizer/Solver.java:133-150 | Reordering or dropping campaigns (a sub-multiset of the list) keeps the solver invariant |
| Table.Improve | src/optimizer/Solver.java:60-71 | The level ends at least at its old entry and at least at every fitting candidate from the list; it is unchanged when not raised, and a raised entry is the candidate of a list campaign that fits the level |
| Table.Fill | src/optimizer/Solver.java:51-72 | The fill of levels 0 .. n - 1 gives two tables of exactly n levels; their contents are stated by FillPrefix, FillFromBlank, FillKeepsInvariant and FillIsOptimal |
| Table.ImproveTakesFirst | src/optimizer/Solver.java:64-69 | Under the strict test a raised level names the first campaign in list order that achieves its final value |
| Table.FillTieBreak | src/optimizer/Solver.java:64-69 | After the whole fill, every level worth more than 0 names the first campaign in list order achieving its value over the levels below |
| Table.FillPrefix | src/optimizer/Solver.java:51-72 | A level, once filled, is final: the first m levels of the fill to n are the fill to m |
| Table.FillLevelZero | src/optimizer/Solver.java:51 | Level 0 keeps its initial entry and choice |
| Table.FillFromBlank | src/optimizer/Solver.java:48-72 | From blank tables the fill solves every level: the tables are consistent and closed, no level is negative, a level has no choice exactly when it is 0, and every choice is a list campaign |
| Table.FillKeepsClosedTable | src/optimizer/Solver.java:48-72 | A fill over tables already closed under the list changes neither table, so a second generateSolution is a no-op |
| Table.FillKeepsInvariant | src/optimizer/Solver.java:48-72 | A fill from blank or closed consistent tables gives consistent, closed, non-negative tables; blank tables end solved and closed ones unchanged |
| Optimality.ClosedBoundsSelections | src/optimizer/Solver.java:48-72 | On closed non-negative tables no feasible selection within k impressions is worth more than level k |
| Optimality.ClosedIsUpperBound | src/optimizer/Solver.java:48-72 | The same bound for every feasible selection at once |
| Optimality.FillIsOptimal | src/optimizer/Solver.java:48-72 | From blank tables, level k is the value of the selection the backtrack recovers, that selection is feasible, and no feasible selection is worth more |
| Optimality.FillMonotone | src/optimizer/Solver.java:48-72 | The filled levels never decrease as the capacity grows |
| Optimality.FillValueIgnoresOrder | src/optimizer/Solver.java:51-72 | Two lists with the same campaigns fill to the same values, whatever their order |
| Optimality.SortKeepsFillValues | src/optimizer/Solver.java:116-118 | Sorting the list keeps positive costs and leaves every filled value unchanged |
| Optimality.EmptyListSolvesToZero | src/optimizer/Solver.java:60-71 | With no campaigns every level stays 0 with no choice, and the backtrack recovers nothing |
| Optimality.PruneCanLoseOptimum | src/optimizer/Solver.java:133-150 | Pruning [(3,4),(2,2),(5,1)] drops (2,2) and the optimum for 2 impressions falls from 2 to 0 |
| Optimizer.Solver.ObtainKnapsack | src/optimizer/Solver.java:86-107 | The result carries the solution value and index, and its map counts exactly the campaigns of the backtrack, each at least once. Counts times values add up to the solution value, counts times costs stay within the capacity, and index 0 gives the empty map with value 0 |
| Optimizer.Solver.CountBacktrack | src/optimizer/Solver.java:91-104 | The counting loop ends with the count map of the campaigns the backtrack visits from the given level |
| Extraction.Picks | src/optimizer/Solver.java:91-104 | The backtrack from level i visits at most i campaigns, and none exactly when level i has no choice |
| Extraction.PicksRoundTrip | src/optimizer/Solver.java:91-104 | On consistent tables the campaigns visited from level i are worth exactly level i and cost at most i impressions |
| Extraction.PicksFromList | src/optimizer/Solver.java:91-104 | Every campaign the backtrack visits is a campaign of the list the table was filled with |
| Extraction.BacktrackStep | src/optimizer/Solver.java:96-103 | One step adds the level's choice to the campaigns taken as one count step, and goes on at a non-negative level |
| Extraction.CountedPicksRoundTrip | src/optimizer/Solver.java:86-107 | Counts times values of the count map of the backtrack equal level i, and counts times costs lie between 0 and i |
| Campaigns.Tally | src/optimizer/Solver.java:96-101 | One counting step: the campaign gets count 1 if new, else its old count plus 1, the keys gain only that campaign, and every other count is unchanged |
| Campaigns.CountMap | src/optimizer/Solver.java:96-101 | The count map is empty exactly for the empty selection, holds the last selected campaign, and has no more keys than the selection has units |
| Campaigns.CountMapCounts | src/optimizer/Solver.java:96-101 | The keys of the count map are exactly the selected campaigns, each counted with its multiplicity, at least 1 |
| Campaigns.CountMapTotal | src/optimizer/Solver.java:96-101 | Summing count times f over the count map equals summing f over the selection |
| Campaigns.TallyTotal | src/optimizer/Solver.java:96-101 | One counting step adds exactly f of the counted campaign to the map total |
| Optimizer.Solver.ApplyPriorityCampaigns | src/optimizer/Solver.java:116-118 | The list becomes its stable sort: ordered by the comparator, a permutation of the old list, and campaigns of equal rank keep their order; the invariant and solution are kept |
| Priority.SortBy | src/optimizer/Solver.java:116-118 | The sorted list is a permutation of the input |
| Priority.SortBySorted | src/optimizer/Solver.java:116-118 | The sorted list is ordered by the comparator |
| Priority.SortByStable | src/optimizer/Solver.java:116-118 | For every rank, the campaigns of that rank appear in the same order as in the input |
| Optimizer.Solver.ApplyDominance | src/optimizer/Solver.java:133-150 | The list becomes Prune of the old list: an order-preserving sublist and a sub-multiset, where every removed unit is dominated by a kept campaign that stands before it in the old list; positive costs, the invariant and the solution are kept |
| Optimizer.Solver.RemoveDominatedBy | src/optimizer/Solver.java:136-148 | The inner loop for campaign i leaves the list as PruneFrom from index i + 1, with m equal to the new length |
| Dominance.RemoveAt | src/optimizer/Solver.java:144 | Removing index j shortens the list by one, keeps the campaigns before j and moves the later ones down by one |
| Dominance.PruneFrom | src/optimizer/Solver.java:137-148 | The inner scan keeps the first j campaigns and the last one and never grows the list |
| Dominance.PruneOuter | src/optimizer/Solver.java:135-149 | The outer scan from i keeps campaigns 0 .. i and the last one and never grows the list |
| Dominance.Prune | src/optimizer/Solver.java:133-150 | Lists of at most two campaigns are left as they are |
| Dominance.PruneFromDominated | src/optimizer/Solver.java:140-145 | A campaign the inner scan removes is dominated by the scanning campaign, whose value is non-zero, and it stood at index j or later |
| Dominance.PruneOuterDominated | src/optimizer/Solver.java:135-149 | Every unit the outer scan from i drops is dominated by a campaign it keeps, with non-zero value, that stands before the dropped one in the list |
| Dominance.PruneShrinks | src/optimizer/Solver.java:133-150 | Pruning only removes campaigns, counted with multiplicity |
| Dominance.PruneIsSubsequence | src/optimizer/Solver.java:133-150 | Pruning leaves an order-preserving subsequence of the list |
| Dominance.PruneRemovesOnlyDominated | src/optimizer/Solver.java:133-150 | Every unit pruning drops is dominated by a campaign it keeps, which stands before the dropped one in the original list |
| Dominance.PruneKeepsEnds | src/optimizer/Solver.java:133-150 | Pruning never drops the first or the last campaign |
| Dominance.PruneLeavesDominated | src/optimizer/Solver.java:137-145 | In [(3,4),(2,2),(2,2),(5,1)] the second (2,2) and (5,1) survive though (3,4) dominates both |
| Dominance.JavaDivBelow | src/optimizer/Solver.java:140-143 | For a non-negative dividend and a positive divisor, Java division is Euclidean division, and q < d holds exactly when a < d * b |
| Dominance.JavaDiv | src/optimizer/Solver.java:140-142 | Java `/` on int: the magnitude of the quotient times the divisor is at most the dividend magnitude and within one divisor of it (rounding toward zero), and a non-zero quotient is positive exactly when the operands have the same sign |
| Dominance.Dominates | src/optimizer/Solver.java:140-143 | For a positive value of the first campaign and a non-negative product the truncating test is the exact comparison cost_i * value_j < cost_j * value_i |
| Dominance.ZeroValueRemovedEarly | src/optimizer/Solver.java:135-145 | In [(1,1),(5,0),(1,1),(1,1)] the zero-valued campaign is removed before its turn, so no division by 0 occurs and the list prunes to three copies of (1,1) |
| Optimizer.Solve | src/optimizer/Solver.java:30-107 | Construct, fill and backtrack: the knapsack holds list campaigns at least once each, costs at most maxImpressions, earns its value, and no selection within maxImpressions earns more |

## Left out

- The comparator of `applyPriorityCampaigns` is not part of this model. It is the parameter `before`, and it must be a total preorder. `Collections.sort` is modelled as a stable insertion sort.
- The `Knapsack` class is not part of this model. Its value, capacity and count map form a datatype, and its setter is folded into the constructor call.
- The `Campaign` getters, setters, `hashCode` and `toString` are left out. The model keeps only the equality, through the datatype, and the `HashMap` becomes a `map` keyed by that equality.
- Java `int` overflow is not modelled. Integers are unbounded, so the product `cost_i * value_j` of the test and the value sums never wrap.
- Costs of at least 1 are required for the fill and the backtrack (`PositiveCosts`). A zero cost makes the fill read the level it is writing, and makes the backtrack loop forever. A negative cost indexes above the level.
- `Optimizer.Solver.constructor` requires `maxImpressions >= 0`. At -1 Java builds tables of length 0. `applyPriorityCampaigns` and `applyDominance` then run normally, but `generateSolution` throws `ArrayIndexOutOfBoundsException` at src/optimizer/Solver.java:73, and so does `obtainKnapsack` at line 91. Below -1 the array allocation itself throws.
- `Optimizer.Solver.ApplyDominance` requires `Dominance.DividesSafely`: no division by a zero value. Java throws `ArithmeticException` otherwise.
- The list is a value, so aliasing between the solver's list and the caller's `ArrayList` is not modelled.
- The nested loops of `generateSolution` become `FillLevels` and `ImproveLevel`.
  The counting loop of `obtainKnapsack` becomes `CountBacktrack`, and the inner
  loop of `applyDominance` becomes `RemoveDominatedBy`. Each helper runs the
  same statements as the Java loop.
- The `i >= 0` test of the backtrack loop is kept. The model proves that it
  always holds when it is evaluated.
