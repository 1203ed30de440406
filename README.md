# Heroes battle AI: path finder and army composer

This project is a Dafny model of the two algorithms a turn-based grid battle
game uses for its computer-controlled side:

- **The path finder** (`UnitTargetPathFinderImpl.getTargetPath`). It computes
  the shortest walking route from an attacking unit's cell to its target's
  cell on the 27 x 21 movement grid. It steps in the four axis directions. A
  cell holding an alive unit is an obstacle. The search is Dijkstra's
  algorithm with unit step costs, and it stops when the target's cell is
  polled from the priority queue. The route is rebuilt by following the
  predecessor links back and reversing.
- **The army composer** (`GeneratePresetImpl.generate`). It ranks the unit
  archetypes by (attack + health) per point of cost, best first. In that
  order, it fields up to eleven copies of each archetype while the next copy
  still fits the point budget. Each copy is named `"<type> <n>"` and stands
  on a fresh random cell of the 3 x 21 deployment area.

Files:

- `Wrappers.dfy`: `Option`.
- `PathFinder.dfy`: module `PathFinder`. The search is written imperatively,
  over a distance/predecessor table `map<Cell, EdgeNode>` and a frontier
  `set<Cell>`, and is proved against the predicates `IsRoute` and
  `Reachable`.
- `ArmyComposer.dfy`: module `ArmyComposer`. The ranking is a stable
  insertion sort. The two selection loops are methods proved against the
  recursive specification functions `CopiesAffordable`, `SpentAfter` and
  `Plan`. `Plan` is the sequence of `(rank, copy number)` orders that the
  loops issue. Random placement is a nondeterministic choice of a free cell.

Occupancy is the literal rule of the code: every alive unit blocks its cell,
including the target itself. Only the attacker's starting cell is never
tested, because the search starts there without looking at it. One might
expect the target's own cell to be exempt. The code excludes neither cell,
and the model follows the code. `PathFinder.AliveTargetUnreachable` and the last ensures of
`PathFinder.GetTargetPath` state the consequence: an alive target on another
cell is never reached.

## Model

| member | source | states |
|---|---|---|
| PathFinder.GetTargetPath | src/com/heroes_task/programs/UnitTargetPathFinderImpl.java:22-85 | Either endpoint off the board gives the empty path. Otherwise the path is non-empty exactly when the target's cell is reachable avoiding alive units. A non-empty path is a route from the attacker's cell to the target's cell, and no route is shorter. The same cell gives the one-cell path. An alive target on another cell gives the empty path. |
| PathFinder.InBounds | src/com/heroes_task/programs/UnitTargetPathFinderImpl.java:88-90 | `isWithinBounds`: 0 <= x < 27 and 0 <= y < 21. `PathFinder.InBoard` shows every such cell is one of the grid's cells. |
| PathFinder.InBoard | src/com/heroes_task/programs/UnitTargetPathFinderImpl.java:88-90 | A cell that passes the bounds test is a cell of the grid. |
| PathFinder.OccupiedCells | src/com/heroes_task/programs/UnitTargetPathFinderImpl.java:30-36 | The occupancy set is exactly the set of cells of the alive units. |
| PathFinder.AdjacentIffUnitStep | src/com/heroes_task/programs/UnitTargetPathFinderImpl.java:60-63 | The four direction offsets reach exactly the cells at Manhattan distance one. |
| PathFinder.AliveTargetUnreachable | src/com/heroes_task/programs/UnitTargetPathFinderImpl.java:66-69 | An occupied target cell different from the start is unreachable, because the bounds/occupancy test rejects it. |
| PathFinder.SameCellRoute | src/com/heroes_task/programs/UnitTargetPathFinderImpl.java:51-57 | When start and target coincide, the one-cell sequence is a route and the only route of length at most one. |
| PathFinder.Relax | src/com/heroes_task/programs/UnitTargetPathFinderImpl.java:71-79 | The neighbour's record changes exactly when it is missing or strictly improved. It is then reached through the current cell. No recorded distance grows. |
| PathFinder.RecordKeepsChains | src/com/heroes_task/programs/UnitTargetPathFinderImpl.java:74-78 | Recording a free, newly reached neighbour one step further keeps every predecessor link sound: adjacent, one step closer, on a free cell. |
| PathFinder.TryDirection | src/com/heroes_task/programs/UnitTargetPathFinderImpl.java:61-79 | One direction is tried. A new record is one step further than the current cell and joins the frontier. Existing records are unchanged. |
| PathFinder.ExpandNeighbours | src/com/heroes_task/programs/UnitTargetPathFinderImpl.java:59-80 | After the four directions, every free neighbour is recorded at most one step further. Only new cells are added, and they are exactly what joins the frontier. The links stay sound. |
| PathFinder.PollNearest | src/com/heroes_task/programs/UnitTargetPathFinderImpl.java:51-52 | The polled cell has the least recorded distance on the frontier and is removed from it. |
| PathFinder.FrontierCut | src/com/heroes_task/programs/UnitTargetPathFinderImpl.java:51-80 | Every route from the start to an unexpanded cell crosses the frontier at a position no smaller than that cell's recorded distance. |
| PathFinder.PolledIsShortest | src/com/heroes_task/programs/UnitTargetPathFinderImpl.java:51-56 | A polled nearest cell's recorded distance is at most the length of every route to it, minus one. |
| PathFinder.ExhaustedMeansUnreachable | src/com/heroes_task/programs/UnitTargetPathFinderImpl.java:81-84 | Once the queue is empty, no unexpanded cell is reachable. |
| PathFinder.NearestBoundsAll | src/com/heroes_task/programs/UnitTargetPathFinderImpl.java:51-52 | No recorded distance exceeds a nearest frontier cell's distance by more than one. |
| PathFinder.SettleKeepsInvariant | src/com/heroes_task/programs/UnitTargetPathFinderImpl.java:51-80 | Expanding a nearest frontier cell keeps the search invariant. The invariant is: sound links, expanded distances at most the level, frontier distances in [level, level + 1], and expanded cells' free neighbours recorded. |
| PathFinder.SettleNearest | src/com/heroes_task/programs/UnitTargetPathFinderImpl.java:59-80 | A non-goal nearest cell is expanded and moves from the frontier to the expanded cells, with the invariant kept. Existing records, distance and link, are unchanged. The new frontier is the rest of the old one plus the newly recorded cells, each free and one step further than the expanded cell. |
| PathFinder.SettlingShrinks | src/com/heroes_task/programs/UnitTargetPathFinderImpl.java:51 | Each round expands a new board cell, so the search loop terminates. |
| PathFinder.Search | src/com/heroes_task/programs/UnitTargetPathFinderImpl.java:38-84 | A non-empty result is a shortest route from start to goal. An empty result means the goal is unreachable. |
| PathFinder.ConstructPath | src/com/heroes_task/programs/UnitTargetPathFinderImpl.java:93-104 | Following the links back and reversing yields a route from the start to the target, with one cell more than the target's recorded distance. |
| PathFinder.WalkStep | src/com/heroes_task/programs/UnitTargetPathFinderImpl.java:97-100 | Each step back moves to an adjacent recorded cell one step closer to the start. |
| PathFinder.ReversedTrailIsRoute | src/com/heroes_task/programs/UnitTargetPathFinderImpl.java:102-103 | The walked trail, reversed, starts at the start, ends at the target, steps between neighbours and stays on free cells. |
| PathFinder.Reverse | src/com/heroes_task/programs/UnitTargetPathFinderImpl.java:102 | The result holds the same cells in the opposite order. |
| ArmyComposer.Generate | src/com/heroes_task/programs/GeneratePresetImpl.java:19-84 | Over the ranked archetypes, the army is order by order a copy of what the greedy plan asks for. A composed army holds the whole plan and its points equal the planned spend. An exhausted army is a strict prefix covering every deployment cell. No two units share a cell, all stand in the area, and the points are their total cost, within the budget unless the army is empty. |
| ArmyComposer.Compose | src/com/heroes_task/programs/GeneratePresetImpl.java:40-83 | The outer loop over ranked archetypes has the same outcome facts as `Generate`, stated with the recursive forms `Fills` and `Placed`. |
| ArmyComposer.FieldCopies | src/com/heroes_task/programs/GeneratePresetImpl.java:42-76 | The inner loop fields exactly `CopiesAffordable` copies of the archetype, in copy order, on distinct free cells, adding their cost. If the area runs full first, it stops with every cell taken. In both cases the units fielded before and the cells taken before are kept: the army only grows at its end. |
| ArmyComposer.PlaceCopy | src/com/heroes_task/programs/GeneratePresetImpl.java:46-75 | One inner iteration: copy number `unitCount` is appended on a free cell and its cost added, keeping the loop state. Otherwise every cell is taken and nothing changes. The army only grows at its end. |
| ArmyComposer.GrowsTransitive | src/com/heroes_task/programs/GeneratePresetImpl.java:56-73 | Growing the army at its end and the occupied cells, twice over, is growing them once. |
| ArmyComposer.FieldArchetype | src/com/heroes_task/programs/GeneratePresetImpl.java:41-77 | One outer iteration: unless placement runs out, the army becomes exactly the plan for one more archetype, with its points being `SpentAfter` that archetype. If placement runs out, the army is a strict prefix of the plan covering every cell. Either way the army only grows at its end. |
| ArmyComposer.PickFreeCell | src/com/heroes_task/programs/GeneratePresetImpl.java:46-56 | A chosen cell is in the area and free. No cell is chosen exactly when every cell of the area is taken. |
| ArmyComposer.MakeCopy | src/com/heroes_task/programs/GeneratePresetImpl.java:58-69 | The new unit is copy `n` of the archetype, named `"<type> <n>"`, with the archetype's stats and bonus tables, on the chosen cell. |
| ArmyComposer.Copies | src/com/heroes_task/programs/GeneratePresetImpl.java:42-75 | The orders of one archetype's inner loop: exactly k orders, the j-th for copy number j. |
| ArmyComposer.CopyName | src/com/heroes_task/programs/GeneratePresetImpl.java:60 | `unitType + " " + unitCount`: the unit type, one space, then the copy number in decimal (`CopyNameParts`). |
| ArmyComposer.CopyNameParts | src/com/heroes_task/programs/GeneratePresetImpl.java:60 | A copy's name splits into its unit type, one space, and the decimal notation of its copy number, with lengths adding up. |
| ArmyComposer.NatToString | src/com/heroes_task/programs/GeneratePresetImpl.java:60 | The decimal notation is non-empty, and longer than one digit exactly from 10 upward. |
| ArmyComposer.NatToStringInjective | src/com/heroes_task/programs/GeneratePresetImpl.java:60 | Different numbers have different decimal notations. |
| ArmyComposer.CopyNamesDistinct | src/com/heroes_task/programs/GeneratePresetImpl.java:60 | Different copies of one archetype get different names. |
| ArmyComposer.ScoresAtLeast | src/com/heroes_task/programs/GeneratePresetImpl.java:34-36 | The comparator: `a` ranks no lower than `b` when (attack + health) of `a` times the cost of `b` is at least the same product the other way round. |
| ArmyComposer.RatioScoreTimesCost | src/com/heroes_task/programs/GeneratePresetImpl.java:35-36 | The comparator's key attack/cost + health/cost, times the cost, is attack + health. |
| ArmyComposer.ScoresAtLeastIffRatio | src/com/heroes_task/programs/GeneratePresetImpl.java:34-36 | For positive costs, the cross-multiplied comparison holds exactly when attack/cost + health/cost of `a` is at least that of `b` in exact real arithmetic. |
| ArmyComposer.ScoresAtLeastTransitive | src/com/heroes_task/programs/GeneratePresetImpl.java:34-36 | The exact score comparison (cross-multiplied, costs positive) is transitive. |
| ArmyComposer.NotBothTied | src/com/heroes_task/programs/GeneratePresetImpl.java:34-36 | Two units in strictly decreasing score order cannot both have the same score as a third. |
| ArmyComposer.Insert | src/com/heroes_task/programs/GeneratePresetImpl.java:34-36 | Insertion adds exactly the one unit: multiset and membership. |
| ArmyComposer.SortByScore | src/com/heroes_task/programs/GeneratePresetImpl.java:34-36 | The ranking is a permutation of the archetypes. |
| ArmyComposer.InsertSorted | src/com/heroes_task/programs/GeneratePresetImpl.java:34-36 | Inserting into a list sorted by descending score keeps it sorted. |
| ArmyComposer.SortByScoreSorted | src/com/heroes_task/programs/GeneratePresetImpl.java:34-36 | The ranking is in non-increasing order of score. |
| ArmyComposer.TiesCons | src/com/heroes_task/programs/GeneratePresetImpl.java:34-36 | The units tied with a given score in a list are those at its head (if tied) followed by those in its tail. |
| ArmyComposer.InsertTies | src/com/heroes_task/programs/GeneratePresetImpl.java:34-36 | Insertion puts the new unit ahead of its equal-score peers and keeps their order. |
| ArmyComposer.SortByScoreStable | src/com/heroes_task/programs/GeneratePresetImpl.java:34-36 | The ranking is stable: units of equal score keep their input order. |
| ArmyComposer.CostOfIsProduct | src/com/heroes_task/programs/GeneratePresetImpl.java:74 | The points of `n` copies of cost `c` equal `n * c`. |
| ArmyComposer.CostOfMonotone | src/com/heroes_task/programs/GeneratePresetImpl.java:74 | More copies of a positive cost cost more points. |
| ArmyComposer.CostOfShift | src/com/heroes_task/programs/GeneratePresetImpl.java:74 | The points of `n` copies are one cost plus the points of `n - 1` copies. |
| ArmyComposer.CopiesFrom | src/com/heroes_task/programs/GeneratePresetImpl.java:45-76 | The inner loop run on values: from a count of copies and the points spent, adds one copy while fewer than eleven are fielded and one more fits. Its bounds are the contract of `CopiesFromBounds`. |
| ArmyComposer.CopiesFromBounds | src/com/heroes_task/programs/GeneratePresetImpl.java:45-76 | The inner loop from a partial count stops at or above its start and at most at eleven. The added copies fit the budget, and it stops at eleven or because one more would not fit. |
| ArmyComposer.CopiesAffordable | src/com/heroes_task/programs/GeneratePresetImpl.java:45 | At most eleven copies are fielded, they fit the budget, and the count is eleven or one more would overrun it. |
| ArmyComposer.CopiesAffordableIsLargest | src/com/heroes_task/programs/GeneratePresetImpl.java:45-75 | The count fielded is the largest k of at most eleven with spent + k * cost within the budget (zero when none fits); every larger count up to eleven overruns it. |
| ArmyComposer.GuardMatchesAffordable | src/com/heroes_task/programs/GeneratePresetImpl.java:45 | The loop guard `unitCount < 11 && currentPoints + cost <= maxPoints` holds exactly while fewer than `CopiesAffordable` copies are fielded. |
| ArmyComposer.SpentWithinBudget | src/com/heroes_task/programs/GeneratePresetImpl.java:45-74 | The points spent are never negative and never exceed the budget, unless nothing was bought. |
| ArmyComposer.GreedyStop | src/com/heroes_task/programs/GeneratePresetImpl.java:45 | After each archetype, either eleven copies were fielded or one more would overrun the budget. |
| ArmyComposer.NothingAffordable | src/com/heroes_task/programs/GeneratePresetImpl.java:45 | With every cost above the budget, the plan is empty and nothing is spent. |
| ArmyComposer.CountCopies | src/com/heroes_task/programs/GeneratePresetImpl.java:42-75 | One archetype's block of orders counts `k` orders for that archetype and none for any other. |
| ArmyComposer.CountAppend | src/com/heroes_task/programs/GeneratePresetImpl.java:73 | Order counts add up over concatenation. |
| ArmyComposer.PlanCopiesPerArchetype | src/com/heroes_task/programs/GeneratePresetImpl.java:41-76 | Each archetype is ordered exactly `CopiesOf` times, and never more than eleven. |
| ArmyComposer.AppendBlockOrdered | src/com/heroes_task/programs/GeneratePresetImpl.java:41-45 | Appending the block of the next archetype keeps the orders in rank order. |
| ArmyComposer.PlanInRankOrder | src/com/heroes_task/programs/GeneratePresetImpl.java:41 | The orders name archetypes in ranked order, each among those processed. |
| ArmyComposer.PlanCopyNumbers | src/com/heroes_task/programs/GeneratePresetImpl.java:42-75 | Every order's copy number is below the count fielded of its archetype. |
| ArmyComposer.PlanPrefix | src/com/heroes_task/programs/GeneratePresetImpl.java:41-77 | The orders for the first `i` archetypes are a prefix of those for the first `n`. |
| ArmyComposer.PlanBlock | src/com/heroes_task/programs/GeneratePresetImpl.java:41-77 | The orders for the archetype ranked `i` form one contiguous block of the full plan, copy 0 first. |
| ArmyComposer.PlanGrowth | src/com/heroes_task/programs/GeneratePresetImpl.java:41-77 | Processing one more archetype appends its copies to the plan and adds their cost to the spend. |
| ArmyComposer.FillsFollowsPlan | src/com/heroes_task/programs/GeneratePresetImpl.java:73 | An army built one copy at a time along the plan matches the plan at every position. |
| ArmyComposer.FillsExtend | src/com/heroes_task/programs/GeneratePresetImpl.java:73 | Appending the copy the next order asks for keeps the army along the plan. |
| ArmyComposer.CellsOfMembers | src/com/heroes_task/programs/GeneratePresetImpl.java:56 | A cell is recorded as occupied exactly when some fielded unit stands on it. |
| ArmyComposer.PlacedWellPlaced | src/com/heroes_task/programs/GeneratePresetImpl.java:49-56 | Placing each unit on a then-free cell of the area means all units stand in the area on pairwise distinct cells. |
| ArmyComposer.TracksExtend | src/com/heroes_task/programs/GeneratePresetImpl.java:56 | Adding a unit on a free cell keeps the occupied set equal to the army's cells. |
| ArmyComposer.PriceStep | src/com/heroes_task/programs/GeneratePresetImpl.java:74 | Adding one affordable copy keeps the points equal to the army's total cost and within the budget. |
| ArmyComposer.FillingStep | src/com/heroes_task/programs/GeneratePresetImpl.java:56-75 | One iteration of the inner loop keeps its whole state: plan prefix, points, placement. |
| ArmyComposer.BlockEntry | src/com/heroes_task/programs/GeneratePresetImpl.java:75 | Inside an archetype's block, the entry at copy `c` is the order for copy `c`. |

## Left out

- Logging (`System.out.println`) is not modelled. It has no effect on the results.
- Randomness: `new Random()` and its `nextInt` calls become a nondeterministic choice among the free cells (`PickFreeCell`). The uniform distribution and the retry loop are not modelled.
- A full deployment area: the source retries random cells forever once all 63 cells are taken. The model stops and returns `Exhausted` with the army built so far.
- Scores are compared exactly in integers, by cross-multiplying with positive costs (`ScoresAtLeastIffRatio` shows this is the order of the exact ratio scores). The source compares doubles, so ties and near-ties can rank differently.
- Costs of zero or less are excluded by a precondition. Cross-multiplying by a negative cost would reverse the order. At cost 0 the source's score is infinite or NaN, and the loop guard would field eleven copies for no points.
- Sorting: `unitList.sort` reorders the caller's list in place. `SortByScore` instead returns the ranked sequence and leaves the input unchanged, so that effect on the caller is not captured.
- 32-bit arithmetic: `currentPoints`, the costs and the coordinates are unbounded integers. Java `int` overflow in `currentPoints + unit.getCost()` or in `x + direction[0]` is not modelled.
- Bonus tables of copies are carried over as values (`map<string, real>`). The fresh `HashMap` copies, their identity and any later mutation are not modelled.
- The game library's `Unit`, `Army` and `Edge` classes are not part of this model. Only the fields the core reads or writes are represented, as datatypes.
- PathFinder.GetTargetPath: the priority queue's tie-breaking among equally near cells is left unspecified (`PollNearest` picks any nearest cell). The model therefore promises some shortest route, not the particular one the Java heap yields.
- Priority-queue internals: the frontier is a set scanned for a minimum. The heap, and the source's mutation of a queued node's distance, are not modelled. The search never improves an already-recorded cell, and `ExpandNeighbours`' contract states this.
- The string keys `"x,y"` of the node table and `"x_y"` of the placement set become `Cell` values.
- The `Integer.MAX_VALUE` default distance of an unrecorded cell becomes the absence of its key.
- The linked `EdgeNode` objects become value records in a map, with the predecessor stored as its cell. Aliasing between nodes is not modelled.
