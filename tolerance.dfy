/**
 The per-occupant tolerance test (`check_tolerance`): an occupant is satisfied
 when its unlike neighbours, out of a fixed denominator of eight, make up no more
 than its tolerance. Missing slots at the border are imputed to the occupant's own
 group, which leaves the unlike count untouched.
 */
module Tolerance {
  import opened Grid
  import opened Neighborhood

  /** `check_tolerance(point, rich_points, poor_points, tolerance, is_rich)`. */
  predicate CheckTolerance(point: Cell, richPoints: set<Cell>, poorPoints: set<Cell>,
                           tolerance: real, isRich: bool)
  {
    // the denominator of the unlike fraction: the neighbour slots of an interior cell
    var totalNeighbors := 8;
    var numRich := CountNeighbors(point, richPoints);
    var numPoor := CountNeighbors(point, poorPoints);
    var numNeighbors := numRich + numPoor;
    // edge and corner correction: missing slots go to the occupant's own group
    var (rich', poor') :=
      if numNeighbors < totalNeighbors then
        if isRich then (numRich + (totalNeighbors - numNeighbors), numPoor)
        else (numRich, numPoor + (totalNeighbors - numNeighbors))
      else (numRich, numPoor);
    // divided by `totalNeighbors`, written as the literal 8.0
    var percentUnlikeNeighbors := (if isRich then poor' else rich') as real / 8.0;
    percentUnlikeNeighbors <= tolerance
  }

  /** The occupant's unlike neighbours: poor ones for a rich occupant, rich ones otherwise. */
  function UnlikeNeighbors(point: Cell, richPoints: set<Cell>, poorPoints: set<Cell>, isRich: bool): nat {
    CountNeighbors(point, if isRich then poorPoints else richPoints)
  }

  /** The imputation changes nothing: the verdict is "unlike count / 8 <= tolerance". */
  lemma CheckToleranceIsUnlikeFraction(point: Cell, richPoints: set<Cell>, poorPoints: set<Cell>,
                                       tolerance: real, isRich: bool)
    ensures CheckTolerance(point, richPoints, poorPoints, tolerance, isRich)
        <==> UnlikeNeighbors(point, richPoints, poorPoints, isRich) as real / 8.0 <= tolerance
  {
  }

  /** With disjoint groups the imputed slot count is never negative. */
  lemma ImputationWellDefined(point: Cell, richPoints: set<Cell>, poorPoints: set<Cell>)
    requires richPoints !! poorPoints
    ensures CountNeighbors(point, richPoints) + CountNeighbors(point, poorPoints) <= 8
  {
    CountNeighborsDisjoint(point, richPoints, poorPoints);
  }

  /** Raising the tolerance never turns a satisfied occupant into a dissatisfied one. */
  lemma CheckToleranceMonotone(point: Cell, richPoints: set<Cell>, poorPoints: set<Cell>,
                               t1: real, t2: real, isRich: bool)
    requires t1 <= t2
    ensures CheckTolerance(point, richPoints, poorPoints, t1, isRich)
        ==> CheckTolerance(point, richPoints, poorPoints, t2, isRich)
  {
  }

  /** A tolerance of 1 or more satisfies every occupant. */
  lemma CheckToleranceFull(point: Cell, richPoints: set<Cell>, poorPoints: set<Cell>,
                           tolerance: real, isRich: bool)
    requires tolerance >= 1.0
    ensures CheckTolerance(point, richPoints, poorPoints, tolerance, isRich)
  {
  }

  /** Without unlike neighbours every non-negative tolerance is met. */
  lemma CheckToleranceNoUnlike(point: Cell, richPoints: set<Cell>, poorPoints: set<Cell>,
                               tolerance: real, isRich: bool)
    requires tolerance >= 0.0
    requires forall q :: q in Neighbors(point) ==> q !in (if isRich then poorPoints else richPoints)
    ensures CheckTolerance(point, richPoints, poorPoints, tolerance, isRich)
  {
    CountInExtremes(Neighbors(point), if isRich then poorPoints else richPoints);
    CountNeighborsIsListCount(point, if isRich then poorPoints else richPoints);
  }

  /**
   The corner cell (0, 0) whose three neighbours are all rich: a rich occupant there
   has no unlike neighbours, so it is satisfied at every non-negative tolerance.
   */
  lemma CornerWithRichNeighbors(richPoints: set<Cell>, poorPoints: set<Cell>, tolerance: real)
    requires richPoints !! poorPoints
    requires (0, 1) in richPoints && (1, 0) in richPoints && (1, 1) in richPoints
    requires tolerance >= 0.0
    ensures UnlikeNeighbors((0, 0), richPoints, poorPoints, true) == 0
    ensures CheckTolerance((0, 0), richPoints, poorPoints, tolerance, true)
  {
    NeighborsAreAdjacent((0, 0));
    forall q | q in Neighbors((0, 0))
      ensures q !in poorPoints
    {
      assert q == (0, 1) || q == (1, 0) || q == (1, 1);
    }
    CountInExtremes(Neighbors((0, 0)), poorPoints);
    CountNeighborsIsListCount((0, 0), poorPoints);
  }
}
