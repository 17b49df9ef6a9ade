# Schelling segregation engine in Dafny

This project models the simulation core of `main.py`, a Schelling segregation model on
a 40 x 40 board, and proves properties of that model. The board holds three cell sets:
the rich, the poor and the empty cells. The core consists of these parts:

- `generate_rich_poor_points` shuffles the board and splits the population between the
  two groups (module `Initializer`).
- `count_neighbors` counts the in-bounds Moore neighbours of a cell in a set (module
  `Neighborhood`).
- `check_tolerance` tests one occupant against its tolerance, with the edge correction
  (module `Tolerance`).
- `move_points` and `is_nearby` make up the relocation pass. Module `Relocation` gives
  it on values, occupant by occupant. Module `Grid` holds the board, the three-way
  partition and `is_nearby`.
- The two drivers run passes until a pass moves nobody: the batch loop, capped at 50
  passes, and `animate_movement`, capped at 100 (module `Convergence` for the pass
  sequence, module `Engine` for the loops).
- `calculate_satisfaction` gives the satisfied percentage of a group (module
  `Satisfaction`).
- `add_remove_resident` edits the board by one cell, then runs one pass (modules
  `Editor` and `Engine`).

The source changes its three sets in place. Class `Engine.Simulation` therefore keeps
them as mutable fields. Its methods do what the source does, step by step:
- a dissatisfied occupant is placed provisionally on each candidate cell;
- every candidate except the best one so far is taken back;
- the origin is vacated at the end.

Each method is proved to leave exactly the state that a value-level function
describes: `Step`, `Phase`, `Pass`, `After`, `History` or `Edited`. The lemmas about
those functions then hold of the running engine.

Three behaviours of the code are worth noting, and the model follows them:
- "add" gives the new cell to the poor for every group name other than `"rich"`;
- the editor returns nothing;
- a dissatisfied occupant moves to the best nearby empty cell even when that cell has
  more unlike neighbours than its current one. The running best starts at infinity, so
  the first candidate is always accepted.

Nondeterminism becomes parameters:
- The result of `random.shuffle` is `shuffled`, any duplicate-free rearrangement of the
  board.
- The cell that `random.choice` draws is `pick`.
- The iteration order of Python's sets is `rank`, one fixed listing of all 1600 cells
  (`Grid.IsRanking`). Every set the engine iterates over is listed in rank order
  (`Grid.Enumerate`).

With these parameters fixed, a pass is a function of the board, so "a pass that moves
nobody is a fixed point" is a precise statement.

Several recursive definitions are split into a base-case function and a last-step
function, with a lemma exposing one step:
- `Phase` and `PhaseThenLast`, with `PhaseLast`;
- `After` and `AfterLast`, with `AfterNext`;
- `KeptMoving` and `KeptMovingLast`, with `KeptMovingNext`;
- `History` and `HistoryLast`, with `HistoryNext`.

The split stops the verifier from unfolding more than one pass at a time. The lemmas `PhaseLast`, `AfterNext`, `KeptMovingNext` and `HistoryNext` only
restate the defining equation of the pair as one equation. Their rows below are marked
as unfolding lemmas.

`Satisfaction.DivBound` and `Satisfaction.DivExact` are helper facts about integer
division. They support the rounding lemmas and have no row of their own.

## Model

| member | source | states |
|---|---|---|
| Grid.AllPoints | main.py:12 | `list(product(range(40), range(40)))` has 1600 entries |
| Grid.AllPointsEnumeratesBoard | main.py:12 | that list holds every board cell exactly once and nothing else |
| Grid.BoardMembership | main.py:12 | a cell is on the board exactly when both coordinates lie in [0, 40) |
| Grid.BoardCardinality | main.py:12-14 | the board has 1600 cells, the bound the initialiser checks against |
| Grid.DistinctCardinality | main.py:18-19 | turning a duplicate-free slice into a set keeps its length |
| Grid.PartitionCoversBoard | main.py:21 | in a partitioned state the three sets together are exactly the board |
| Grid.IsNearbyIsChebyshev | main.py:90-94 | `is_nearby` holds exactly when the Chebyshev distance is at most `distance`, and it is symmetric |
| Grid.Enumerate | main.py:56 | listing a set along an order gives no more entries than the order has |
| Grid.EnumerateMembers | main.py:56 | `list(point_set)` in rank order holds exactly the set's members that the order lists |
| Grid.EnumerateDistinct | main.py:56 | listing along a duplicate-free order repeats no member |
| Grid.ListsMembers | main.py:56 | a listing of a set holds exactly its members and has its size |
| Grid.ListsDistinct | main.py:56 | a listing of a set repeats no entry |
| Grid.DistinctLists | main.py:56 | every duplicate-free sequence is a listing of the set of its entries |
| Grid.RankingMembers | main.py:56 | a ranking has 1600 entries and lists exactly the board cells |
| Grid.RankingDistinct | main.py:56 | a ranking lists each cell once |
| Grid.AllPointsIsRanking | main.py:12 | the row-by-row board order is a ranking, so rankings exist |
| Neighborhood.Neighbors | main.py:28-29 | the neighbour list has at most 8 entries |
| Neighborhood.CandidateAdjacent | main.py:28-29 | a kept offset gives an on-board cell other than the point, at distance 1 |
| Neighborhood.RowAdjacent | main.py:28-29 | the same holds for the three offsets with a fixed i |
| Neighborhood.NeighborsAreAdjacent | main.py:28-29 | every listed neighbour is on the board, differs from the point and is at Chebyshev distance 1 |
| Neighborhood.NeighborsBySituation | main.py:28-29 | a corner cell has 3 in-bounds neighbours, an edge cell 5, an interior cell 8 |
| Neighborhood.CountIn | main.py:31 | the number of list entries in a set is at most the list's length |
| Neighborhood.CountInAppend | main.py:31 | counting a concatenation adds the counts of its parts |
| Neighborhood.CountNeighbors | main.py:25-31 | `count_neighbors` returns a value in [0, 8] |
| Neighborhood.RowCount | main.py:28-31 | the three terms of one row of the sum count that row of the neighbour list |
| Neighborhood.CountNeighborsIsListCount | main.py:28-31 | `count_neighbors` equals the number of entries of the neighbour list that lie in the set |
| Neighborhood.CountNeighborsBySituation | main.py:25-31 | the count is at most 3 at a corner and at most 5 on an edge |
| Neighborhood.CountInExtremes | main.py:31 | the count is 0 when no listed cell is in the set, and the full length when all are |
| Neighborhood.CountInAgree | main.py:31 | two sets that agree on the listed cells give the same count |
| Neighborhood.CountNeighborsLocal | main.py:28-31 | only on-board cells at distance exactly 1 influence the count |
| Neighborhood.CountNeighborsIgnoresSelfAndOffBoard | main.py:28-29 | the point itself and off-board cells never count |
| Neighborhood.CountInDisjoint | main.py:31 | counts over disjoint sets add up to the count over their union |
| Neighborhood.CountNeighborsDisjoint | main.py:37-41 | the rich and the poor neighbour counts of disjoint groups add up to at most 8 |
| Neighborhood.CountNeighborsOfBoard | main.py:28-31 | counting against the whole board counts every listed neighbour |
| Tolerance.CheckToleranceIsUnlikeFraction | main.py:34-50 | `check_tolerance` holds exactly when the unlike-neighbour count divided by 8 is at most the tolerance: the edge correction never changes the verdict |
| Tolerance.ImputationWellDefined | main.py:41-46 | with disjoint groups the imputed slot count `8 - num_neighbors` is never negative |
| Tolerance.CheckToleranceMonotone | main.py:49-50 | raising the tolerance never turns satisfied into dissatisfied |
| Tolerance.CheckToleranceFull | main.py:49-50 | at a tolerance of 1 or more every occupant is satisfied |
| Tolerance.CheckToleranceNoUnlike | main.py:34-50 | without unlike neighbours every non-negative tolerance is met |
| Tolerance.CornerWithRichNeighbors | main.py:40-50 | a rich occupant of corner (0, 0) with three rich neighbours has 0 unlike neighbours out of 8 and is satisfied at any tolerance of 0 or more |
| Initializer.SliceIndex | main.py:18-19 | a normalised slice bound lies in [0, len] and is unchanged when already in range |
| Initializer.SlicesDisjoint | main.py:18-19 | non-overlapping slices of the shuffled list give disjoint sets |
| Initializer.SliceDistinct | main.py:18-19 | a slice of a duplicate-free list is duplicate-free |
| Initializer.GenerateFailsIffTooMany | main.py:14-15 | the initialiser fails exactly when `num_points` exceeds 1600 |
| Initializer.GeneratePartitions | main.py:16-21 | any successful initialisation, negative `num_points` included, gives pairwise disjoint sets whose union is the board |
| Initializer.GenerateSizes | main.py:18-21 | for 0 <= n <= 1600 the sets have sizes n // 2, n - n // 2 and 1600 - n |
| Initializer.RemainderSize | main.py:21 | removing two disjoint subsets leaves the difference of the sizes |
| Satisfaction.RoundHalfEvenNearest | main.py:179 | `round` gives an integer within half a unit of the exact quotient, and an even one at a tie |
| Satisfaction.RoundHalfEvenBounds | main.py:178-179 | a quotient in [0, hi] rounds into [0, hi] |
| Satisfaction.RoundHalfEvenExact | main.py:178-179 | a whole quotient rounds to itself |
| Satisfaction.SatisfiedCount | main.py:177 | the number of satisfied members is at most the group size |
| Satisfaction.SatisfiedCountExtremes | main.py:177 | everybody satisfied gives the group size; nobody satisfied gives 0 |
| Satisfaction.CalculateSatisfaction | main.py:176-179 | 0 for an empty group, and always a percentage in [0, 100] |
| Satisfaction.SatisfactionExtremes | main.py:176-179 | a non-empty, fully satisfied group scores 100; a group with nobody satisfied scores 0 |
| Satisfaction.SatisfactionIsNearestPercentage | main.py:178-179 | the result is within half a point of 100 times the satisfied share |
| Relocation.NearbyEmptySpotsMembers | main.py:63 | the candidate list holds exactly the empty cells near the occupant (in rank order) |
| Relocation.NearbyEmptySpotsDistinct | main.py:63 | no candidate is listed twice |
| Relocation.NearbyEmptySpotAt | main.py:63-66 | the candidate at index j is empty and no earlier candidate repeats it, so the provisional `empty_spots.remove` never fails |
| Relocation.UndoPlacement | main.py:65-78 | placing an occupant on an empty cell and taking it back restores the state |
| Relocation.UndoSecondPlacement | main.py:70-78 | with the best so far placed, trying another cell and taking it back leaves only the best placed |
| Relocation.ReplacePlacement | main.py:70-75 | keeping a strictly better cell and releasing the previous best leaves only the new one placed |
| Relocation.Scores | main.py:69 | the scan computes one unlike-neighbour count per candidate |
| Relocation.ScoresAt | main.py:69 | entry i of the scores is the unlike-neighbour count of candidate i |
| Relocation.ScoresCount | main.py:69 | every entry of the scores is its candidate's unlike-neighbour count |
| Relocation.BestCandidate | main.py:59-75 | the scan keeps a candidate exactly when there is one, and the kept index is in range |
| Relocation.BestCandidateExtend | main.py:70-78 | one more candidate becomes the best when it is the first or strictly lower than the best so far, and otherwise the best is unchanged |
| Relocation.BestCandidateIsEarliestMinimum | main.py:59-75 | the kept index has the lowest score, and every earlier index a strictly higher one |
| Relocation.ScanIsEarliestMinimum | main.py:64-75 | the kept candidate has the lowest unlike count of all candidates, and every earlier candidate a strictly higher one |
| Relocation.DestinationIsNearbyEmpty | main.py:63-75 | a destination is an empty cell near the occupant |
| Relocation.DestinationExistsIff | main.py:58-81 | a destination exists exactly when some empty cell is near the occupant |
| Relocation.DestinationIsBest | main.py:59-75 | the destination has the minimum unlike count of all nearby empty cells (even if worse than staying), and ties go to the earliest candidate |
| Relocation.MoveKeepsSizes | main.py:64-84 | moving from an origin to an empty cell keeps the sizes of the group and of the empty set |
| Relocation.MovePreserves | main.py:64-84 | a completed move keeps the partition and every size, adds the destination to the group, removes the origin, and leaves the other group untouched |
| Relocation.MoveRich | main.py:64-84 | the same for a rich occupant, with the resulting sets written out |
| Relocation.MovePoor | main.py:64-84 | the same for a poor occupant |
| Relocation.StayEffect | main.py:85-86 | an occupant that stays changes nothing |
| Relocation.MoveEffect | main.py:81-84 | a move empties the origin and keeps the group's invariant |
| Relocation.StepPreserves | main.py:57-86 | one occupant's turn keeps the partition and all sizes, leaves the other group alone, changes nothing unless it reports a move, and empties the origin when it does |
| Relocation.StepMovesIff | main.py:57-84 | an occupant moves exactly when it is dissatisfied and some empty cell is nearby |
| Relocation.StepDestination | main.py:81-84 | a moving occupant goes to its destination and its origin becomes empty |
| Relocation.StepStays | main.py:57-86 | a satisfied occupant, or one with no nearby empty cell, stays and nothing changes |
| Relocation.PhaseLast | main.py:56-86 | unfolding lemma: a snapshot's phase is the phase over all but its last occupant followed by that occupant's turn |
| Relocation.PhaseReady | main.py:56 | during the phase over `list(point_set)` the board stays partitioned, and each occupant is still in its group when its turn comes |
| Relocation.PhaseTurn | main.py:56-86 | the phase over the first i + 1 occupants is the phase over the first i followed by occupant i's turn, and that occupant is still in its group |
| Relocation.GroupEffectCompose | main.py:56-86 | the effects of consecutive turns of original occupants compose |
| Relocation.PhasePreserves | main.py:56-86 | a phase keeps the partition and all sizes, leaves the other group alone, changes nothing unless it reports a move, and only moves snapshot occupants |
| Relocation.PassPreserves | main.py:53-87 | a pass keeps the partition and every set size, and reports a move exactly when it changes the board |
| Relocation.PassFixedPoint | main.py:53-87 | after a pass that reports no move, the board is unchanged and the next pass reports none either |
| Convergence.AfterNext | main.py:143-144 | unfolding lemma: pass k + 1 is applied to the board left by the first k passes |
| Convergence.KeptMovingNext | main.py:143-145 | unfolding lemma: the first k + 1 passes kept moving exactly when the first k did and pass k + 1 moved somebody |
| Convergence.KeptMovingAt | main.py:143-145 | if the run kept moving for n passes, each of those passes moved somebody |
| Convergence.AfterPreserves | main.py:143-144 | any number of passes keeps the board partitioned |
| Convergence.MovedAtIffChanged | main.py:53-87 | a pass reports a move exactly when the board after it differs from the board before |
| Convergence.StableAfterQuietPass | main.py:143-145 | after the first pass that moves nobody, every later pass finds the same board and moves nobody, so stopping loses nothing |
| Engine.SatisfactionAfter | main.py:196-197 | the satisfaction recorded after a pass is a percentage in [0, 100] |
| Engine.History | main.py:199-201 | the record after n passes has n entries |
| Engine.HistoryLast | main.py:199-201 | last-step half of `History`: the record of a positive number of passes has that many entries |
| Engine.HistoryNext | main.py:199-201 | unfolding lemma: each pass appends its satisfaction to the record |
| Engine.HistoryAt | main.py:196-201 | entry k of the record is the group's satisfaction after pass k + 1 |
| Engine.Simulation.constructor | main.py:238 | the engine starts from a partitioned initial state |
| Engine.Simulation.Place | main.py:65-66 | `point_set.add` then `empty_spots.remove` of an empty cell |
| Engine.Simulation.Vacate | main.py:72-83 | `point_set.remove` then `empty_spots.add` of a group member |
| Engine.Simulation.Restore | main.py:86 | `point_set.add(point)` after a failed search |
| Engine.Simulation.Relocate | main.py:57-86 | one occupant's turn in place leaves exactly the board and move flag of `Relocation.Step` |
| Engine.Simulation.MoveGroup | main.py:56-86 | the loop over `list(point_set)` leaves the board partitioned and equal to the phase over the rank-ordered snapshot |
| Engine.Simulation.MovePoints | main.py:53-87 | `move_points` leaves the board partitioned and returns exactly what `Relocation.Pass` gives: rich phase, then poor phase over a snapshot taken after it |
| Engine.Simulation.BatchRun | main.py:142-145 | runs 1 to 50 passes; the board is what that many passes give; every pass but the last moved somebody; when it stops early, the last pass moved nobody and the board is a fixed point |
| Engine.Simulation.AnimateMovement | main.py:183-212 | runs 1 to 100 passes; records iteration numbers 0, 1, ... and exactly the two groups' satisfaction after each pass; every pass but the last moved somebody; when it stops early, the last pass moved nobody |
| Engine.Simulation.AddRemoveResident | main.py:268-291 | the board afterwards is one pass applied to the edited board, and it stays partitioned |
| Editor.EditPreservesPartition | main.py:271-287 | every edit keeps the board partitioned |
| Editor.EditAdd | main.py:271-277 | with an empty cell available, adding moves exactly one cell from the empty set to the rich (group "rich") or to the poor (any other name) |
| Editor.EditRemove | main.py:279-287 | removing from a non-empty named group moves exactly one of its cells to the empty set |
| Editor.EditNoChangeIff | main.py:271-287 | the edit changes nothing exactly when its pool is empty or the request is not recognised |

## Left out

- The Tkinter interface is not modelled, because it is presentation only: `draw_grid`, the windows, the buttons and `mainloop` (main.py:97-110, 217-265, 296-334).
- Image and GIF export and the file-system paths are not modelled, because they are I/O through foreign libraries: `save_image`, `draw_grid_to_image`, `save_gif` and the `frames` list.
- The matplotlib chart inside `animate_movement` is not modelled. `Engine.Simulation.AnimateMovement` keeps the pass loop and the three series it plots.
- The batch sweep over `num_points`, `tolerance` and `image_num` (main.py:138-141, 146) is not modelled, because it repeats the core with I/O. `Engine.Simulation.BatchRun` models the settling loop it runs for each image.
- Tolerances are parameters of type `real`, so reading them from Entry widgets with `float(...)` is left out. A float is a rational number, and a count divided by 8 is exact in binary. The comparison in `check_tolerance` is therefore modelled exactly.
- Satisfaction.CalculateSatisfaction: rounds the exact quotient `100 * satisfied / len` half to even. The source rounds the float `satisfied / len * 100` instead, whose rounding error could move a value that lies exactly on a .5 boundary. That float behaviour is not modelled.
- `random.shuffle` and `random.choice` are not modelled. Their outcomes are the parameters `shuffled` and `pick`, and no probability is claimed.
- The iteration order of Python sets is not modelled. One ranking `rank` of all cells orders every set the engine lists. CPython's actual order depends on hashing and insertion history, and may differ from set to set; the model fixes one order for all sets so that a pass is a function of the board.
- `float('inf')`, the starting best count, is modelled as the constant 9 (`Engine.Infinity`). Every neighbour count is at most 8, so the first comparison always succeeds, as it does in the source.
- The unused variable `best_new_tolerance` (main.py:59) is not modelled, because nothing reads it.
- `if best_new_point:` is modelled as "a candidate was kept". A Python tuple such as (0, 0) is always true, so this is exact.
- Engine.Simulation.Relocate: does not state as a separate property that the three sets stay a partition between the provisional placements. Its loop invariant says that the only change is one placement on a cell that was empty, which implies it.
- The global variables shared between the GUI callbacks are modelled as the fields of one `Engine.Simulation` object. The program is single-threaded, so no concurrency is modelled.
