/**
 The engine as the program runs it: the three sets live in mutable fields and
 every operation updates them in place, step by step. Each method is proved to
 leave exactly the state that the value-level functions of modules Relocation,
 Convergence and Editor describe, so every lemma proved there holds of it.
 */
module Engine {
  import opened Grid
  import opened Neighborhood
  import opened Tolerance
  import opened Relocation
  import opened Satisfaction
  import opened Convergence
  import opened Editor

  /** Stands in for `float('inf')`, the starting best count: larger than any neighbour count (at most 8). */
  const Infinity: nat := 9

  /**
   The satisfaction of one group after `passes` passes from `s`: the value the
   animated driver records after each pass, a percentage.
   */
  function SatisfactionAfter(s: State, passes: nat, toleranceRich: real, tolerancePoor: real, rank: seq<Cell>,
                             isRich: bool): (r: int)
    ensures 0 <= r <= 100
  {
    var t := After(s, passes, toleranceRich, tolerancePoor, rank);
    CalculateSatisfaction(Own(t, isRich), t.rich, t.poor, if isRich then toleranceRich else tolerancePoor, isRich)
  }

  /**
   The satisfaction of one group recorded after each of the first `passes` passes
   from `s`, oldest first: the list the animated driver plots.
   */
  function History(s: State, passes: nat, toleranceRich: real, tolerancePoor: real, rank: seq<Cell>,
                   isRich: bool): (r: seq<int>)
    ensures |r| == passes
    decreases passes, 1
  {
    if passes == 0 then [] else HistoryLast(s, passes, toleranceRich, tolerancePoor, rank, isRich)
  }

  /** A positive number of passes: the record of one pass fewer, then the latest value. */
  function HistoryLast(s: State, passes: nat, toleranceRich: real, tolerancePoor: real, rank: seq<Cell>,
                       isRich: bool): (r: seq<int>)
    requires passes > 0
    ensures |r| == passes
    decreases passes, 0
  {
    History(s, passes - 1, toleranceRich, tolerancePoor, rank, isRich)
      + [SatisfactionAfter(s, passes, toleranceRich, tolerancePoor, rank, isRich)]
  }

  /** One more pass appends its satisfaction to the record. */
  lemma HistoryNext(s: State, k: nat, toleranceRich: real, tolerancePoor: real, rank: seq<Cell>, isRich: bool)
    ensures History(s, k + 1, toleranceRich, tolerancePoor, rank, isRich)
         == History(s, k, toleranceRich, tolerancePoor, rank, isRich)
            + [SatisfactionAfter(s, k + 1, toleranceRich, tolerancePoor, rank, isRich)]
  {
  }

  /** Entry `k` of the record is the satisfaction after pass number `k + 1`. */
  lemma {:induction false} HistoryAt(s: State, n: nat, k: nat, toleranceRich: real, tolerancePoor: real,
                                     rank: seq<Cell>, isRich: bool)
    requires k < n
    ensures History(s, n, toleranceRich, tolerancePoor, rank, isRich)[k]
         == SatisfactionAfter(s, k + 1, toleranceRich, tolerancePoor, rank, isRich)
  {
    HistoryNext(s, n - 1, toleranceRich, tolerancePoor, rank, isRich);
    if k < n - 1 {
      HistoryAt(s, n - 1, k, toleranceRich, tolerancePoor, rank, isRich);
    }
  }

  class Simulation {
    var richPoints: set<Cell>
    var poorPoints: set<Cell>
    var emptySpots: set<Cell>

    /** The three sets as a value. */
    function Snapshot(): State
      reads this
    {
      State(richPoints, poorPoints, emptySpots)
    }

    /** The sets partition the board. */
    ghost predicate Valid()
      reads this
    {
      Partition(Snapshot())
    }

    /** Starts from the sets an initialisation produced. */
    constructor(s: State)
      requires Partition(s)
      ensures Valid()
      ensures Snapshot() == s
    {
      richPoints, poorPoints, emptySpots := s.rich, s.poor, s.empty;
    }

    /** `point_set.add(c)` then `empty_spots.remove(c)`; the removal needs `c` to be empty. */
    method Place(c: Cell, isRich: bool)
      requires c in emptySpots
      modifies this
      ensures Snapshot() == Placed(old(Snapshot()), c, isRich)
    {
      if isRich {
        richPoints := richPoints + {c};
      } else {
        poorPoints := poorPoints + {c};
      }
      emptySpots := emptySpots - {c};
    }

    /** `point_set.remove(c)` then `empty_spots.add(c)`; the removal needs `c` in the group. */
    method Vacate(c: Cell, isRich: bool)
      requires c in Own(Snapshot(), isRich)
      modifies this
      ensures Snapshot() == Vacated(old(Snapshot()), c, isRich)
    {
      if isRich {
        richPoints := richPoints - {c};
      } else {
        poorPoints := poorPoints - {c};
      }
      emptySpots := emptySpots + {c};
    }

    /** `point_set.add(point)` when no candidate was found. */
    method Restore(c: Cell, isRich: bool)
      modifies this
      ensures Snapshot() == Restored(old(Snapshot()), c, isRich)
    {
      if isRich {
        richPoints := richPoints + {c};
      } else {
        poorPoints := poorPoints + {c};
      }
    }

    /**
     The body of the inner loop of `move_points` for one occupant: a dissatisfied one
     is placed provisionally on each nearby empty cell in turn; the candidate with
     the strictly lowest unlike count so far stays placed, every other one is taken
     back, and the origin is vacated if some candidate was kept.
     */
    method Relocate(point: Cell, isRich: bool, tolerance: real, rank: seq<Cell>) returns (moved: bool)
      requires Own(Snapshot(), isRich) !! emptySpots
      requires IsRanking(rank)
      requires point in Own(Snapshot(), isRich)
      modifies this
      ensures (Snapshot(), moved) == Step(old(Snapshot()), point, isRich, tolerance, rank)
    {
      moved := false;
      if !CheckTolerance(point, richPoints, poorPoints, tolerance, isRich) {
        ghost var s0 := Snapshot();
        var bestNewPoint: Option<Cell> := None;
        var lowestOppositeNeighbors := Infinity;
        var nearbyEmptySpots := NearbyEmptySpots(Snapshot(), point, rank);
        ghost var scores := Scores(nearbyEmptySpots, Opposite(s0, isRich));
        var j := 0;
        while j < |nearbyEmptySpots|
          invariant 0 <= j <= |nearbyEmptySpots|
          invariant j == 0 ==> bestNewPoint.None? && lowestOppositeNeighbors == Infinity && Snapshot() == s0
          invariant j > 0 ==>
            var b := BestCandidate(scores[..j]).value;
            && bestNewPoint == Some(nearbyEmptySpots[b])
            && lowestOppositeNeighbors == scores[b]
            && Snapshot() == Placed(s0, nearbyEmptySpots[b], isRich)
        {
          var newPoint := nearbyEmptySpots[j];
          NearbyEmptySpotAt(s0, point, rank, j);
          BestCandidateExtend(scores, j);
          Place(newPoint, isRich);
          var oppositeNeighbors := CountNeighbors(newPoint, if isRich then poorPoints else richPoints);
          assert (if isRich then poorPoints else richPoints) == Opposite(s0, isRich);
          ScoresAt(nearbyEmptySpots, Opposite(s0, isRich), j);
          assert oppositeNeighbors == scores[j];
          if oppositeNeighbors < lowestOppositeNeighbors {
            if bestNewPoint.Some? {
              ghost var b := BestCandidate(scores[..j]).value;
              NearbyEmptySpotAt(s0, point, rank, b);
              Vacate(bestNewPoint.value, isRich);
              ReplacePlacement(s0, nearbyEmptySpots[b], newPoint, isRich);
            }
            bestNewPoint := Some(newPoint);
            lowestOppositeNeighbors := oppositeNeighbors;
            assert BestCandidate(scores[..j + 1]) == Some(j);
          } else {
            ghost var b := BestCandidate(scores[..j]).value;
            NearbyEmptySpotAt(s0, point, rank, b);
            Vacate(newPoint, isRich);
            UndoSecondPlacement(s0, nearbyEmptySpots[b], newPoint, isRich);
            assert BestCandidate(scores[..j + 1]) == Some(b);
          }
          j := j + 1;
        }
        assert scores[..j] == scores;
        if bestNewPoint.Some? {
          Vacate(point, isRich);
          moved := true;
        } else {
          Restore(point, isRich);
        }
      }
    }

    /** The loop of `move_points` over a snapshot `list(point_set)` of one group. */
    method MoveGroup(isRich: bool, tolerance: real, rank: seq<Cell>) returns (moved: bool)
      requires Valid()
      requires IsRanking(rank)
      modifies this
      ensures Valid()
      ensures (Snapshot(), moved)
           == Phase(old(Snapshot()), Enumerate(rank, Own(old(Snapshot()), isRich)), isRich, tolerance, rank)
    {
      ghost var s0 := Snapshot();
      var snapshot := Enumerate(rank, if isRich then richPoints else poorPoints);
      moved := false;
      var i := 0;
      while i < |snapshot|
        invariant 0 <= i <= |snapshot|
        invariant (Snapshot(), moved) == PhaseUpTo(s0, snapshot, i, isRich, tolerance, rank)
        invariant Valid()
      {
        var point := snapshot[i];
        PhaseTurn(s0, isRich, tolerance, rank, i);
        var m := Relocate(point, isRich, tolerance, rank);
        moved := moved || m;
        i := i + 1;
      }
      assert snapshot[..i] == snapshot;
    }

    /** `move_points`: the rich group with its tolerance, then the poor group with its own. */
    method MovePoints(toleranceRich: real, tolerancePoor: real, rank: seq<Cell>) returns (moved: bool)
      requires Valid()
      requires IsRanking(rank)
      modifies this
      ensures Valid()
      ensures (Snapshot(), moved) == Pass(old(Snapshot()), toleranceRich, tolerancePoor, rank)
    {
      ghost var s0 := Snapshot();
      ghost var s1 := Phase(s0, Enumerate(rank, s0.rich), true, toleranceRich, rank);
      var groups := [(true, toleranceRich), (false, tolerancePoor)];
      moved := false;
      for g := 0 to 2
        invariant Valid()
        invariant g == 0 ==> Snapshot() == s0 && !moved
        invariant g == 1 ==> (Snapshot(), moved) == s1
        invariant g == 2 ==> (Snapshot(), moved) == Pass(s0, toleranceRich, tolerancePoor, rank)
      {
        var (isRich, tolerance) := groups[g];
        var m := MoveGroup(isRich, tolerance, rank);
        moved := moved || m;
      }
    }

    /**
     The settling loop of the batch driver: at most 50 passes, stopping right after
     the first pass that moves nobody. Returns how many passes ran.
     */
    method BatchRun(tolerance: real, rank: seq<Cell>) returns (passes: nat)
      requires Valid()
      requires IsRanking(rank)
      modifies this
      ensures Valid()
      ensures 1 <= passes <= 50
      ensures Snapshot() == After(old(Snapshot()), passes, tolerance, tolerance, rank)
      ensures KeptMoving(old(Snapshot()), passes - 1, tolerance, tolerance, rank)
      ensures passes < 50 ==> !MovedAt(old(Snapshot()), passes - 1, tolerance, tolerance, rank)
      ensures passes < 50 ==> Pass(Snapshot(), tolerance, tolerance, rank) == (Snapshot(), false)
    {
      ghost var s0 := Snapshot();
      passes := 0;
      while passes < 50
        invariant 0 <= passes <= 50
        invariant Valid()
        invariant Snapshot() == After(s0, passes, tolerance, tolerance, rank)
        invariant KeptMoving(s0, passes, tolerance, tolerance, rank)
      {
        var moved := MovePoints(tolerance, tolerance, rank);
        AfterNext(s0, passes, tolerance, tolerance, rank);
        KeptMovingNext(s0, passes, tolerance, tolerance, rank);
        passes := passes + 1;
        if !moved {
          PassFixedPoint(After(s0, passes - 1, tolerance, tolerance, rank), tolerance, tolerance, rank);
          break;
        }
      }
      KeptMovingNext(s0, passes - 1, tolerance, tolerance, rank);
    }

    /**
     `animate_movement` without its drawing: at most 100 passes, recording after each
     one its number and the two groups' satisfaction, and stopping right after the
     first pass that moves nobody.
     */
    method AnimateMovement(toleranceRich: real, tolerancePoor: real, rank: seq<Cell>)
      returns (iterations: seq<nat>, richSatisfaction: seq<int>, poorSatisfaction: seq<int>)
      requires Valid()
      requires IsRanking(rank)
      modifies this
      ensures Valid()
      ensures 1 <= |iterations| <= 100
      ensures |richSatisfaction| == |poorSatisfaction| == |iterations|
      ensures Snapshot() == After(old(Snapshot()), |iterations|, toleranceRich, tolerancePoor, rank)
      ensures forall k :: 0 <= k < |iterations| ==> iterations[k] == k
      ensures richSatisfaction == History(old(Snapshot()), |iterations|, toleranceRich, tolerancePoor, rank, true)
      ensures poorSatisfaction == History(old(Snapshot()), |iterations|, toleranceRich, tolerancePoor, rank, false)
      ensures KeptMoving(old(Snapshot()), |iterations| - 1, toleranceRich, tolerancePoor, rank)
      ensures |iterations| < 100
          ==> !MovedAt(old(Snapshot()), |iterations| - 1, toleranceRich, tolerancePoor, rank)
    {
      ghost var s0 := Snapshot();
      iterations, richSatisfaction, poorSatisfaction := [], [], [];
      var iteration := 0;
      var moving := true;
      while iteration < 100 && moving
        invariant 0 <= iteration <= 100
        invariant !moving ==> 0 < iteration && !MovedAt(s0, iteration - 1, toleranceRich, tolerancePoor, rank)
        invariant |iterations| == |richSatisfaction| == |poorSatisfaction| == iteration
        invariant Valid()
        invariant Snapshot() == After(s0, iteration, toleranceRich, tolerancePoor, rank)
        invariant forall k :: 0 <= k < iteration ==> iterations[k] == k
        invariant richSatisfaction == History(s0, iteration, toleranceRich, tolerancePoor, rank, true)
        invariant poorSatisfaction == History(s0, iteration, toleranceRich, tolerancePoor, rank, false)
        invariant moving ==> KeptMoving(s0, iteration, toleranceRich, tolerancePoor, rank)
        invariant 0 < iteration ==> KeptMoving(s0, iteration - 1, toleranceRich, tolerancePoor, rank)
      {
        var moved := MovePoints(toleranceRich, tolerancePoor, rank);
        AfterNext(s0, iteration, toleranceRich, tolerancePoor, rank);
        KeptMovingNext(s0, iteration, toleranceRich, tolerancePoor, rank);
        HistoryNext(s0, iteration, toleranceRich, tolerancePoor, rank, true);
        HistoryNext(s0, iteration, toleranceRich, tolerancePoor, rank, false);
        assert Snapshot() == After(s0, iteration + 1, toleranceRich, tolerancePoor, rank);
        var richNow := CalculateSatisfaction(richPoints, richPoints, poorPoints, toleranceRich, true);
        var poorNow := CalculateSatisfaction(poorPoints, richPoints, poorPoints, tolerancePoor, false);
        assert richNow == SatisfactionAfter(s0, iteration + 1, toleranceRich, tolerancePoor, rank, true);
        assert poorNow == SatisfactionAfter(s0, iteration + 1, toleranceRich, tolerancePoor, rank, false);
        iterations := iterations + [iteration];
        richSatisfaction := richSatisfaction + [richNow];
        poorSatisfaction := poorSatisfaction + [poorNow];
        iteration := iteration + 1;
        moving := moved;
      }
    }

    /**
     `add_remove_resident(action, group)`: the edit, with the cell `random.choice`
     draws given as `pick`, followed by one pass in every case.
     */
    method AddRemoveResident(action: string, group: string, pick: Cell,
                             toleranceRich: real, tolerancePoor: real, rank: seq<Cell>)
      requires Valid()
      requires IsRanking(rank)
      requires ValidPick(Snapshot(), action, group, pick)
      modifies this
      ensures Valid()
      ensures Snapshot() == Pass(Edited(old(Snapshot()), action, group, pick), toleranceRich, tolerancePoor, rank).0
    {
      ghost var s0 := Snapshot();
      if action == "add" && emptySpots != {} {
        emptySpots := emptySpots - {pick};
        if group == "rich" {
          richPoints := richPoints + {pick};
        } else {
          poorPoints := poorPoints + {pick};
        }
      } else if action == "remove" {
        if group == "rich" && richPoints != {} {
          richPoints := richPoints - {pick};
          emptySpots := emptySpots + {pick};
        } else if group == "poor" && poorPoints != {} {
          poorPoints := poorPoints - {pick};
          emptySpots := emptySpots + {pick};
        }
      }
      assert Snapshot() == Edited(s0, action, group, pick);
      EditPreservesPartition(s0, action, group, pick);
      var _ := MovePoints(toleranceRich, tolerancePoor, rank);
    }
  }
}
