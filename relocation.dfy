/**
 The relocation pass (`move_points`) on values: what one pass does to a board
 state, occupant by occupant. Module Engine runs it in place and is proved to
 compute exactly these functions.

 For each group (rich with its tolerance, then poor with its own), every occupant
 of a snapshot of the group is tested; a dissatisfied one is tried on each empty
 cell within Chebyshev distance 5, the first candidate with the strictly lowest
 count of unlike neighbours is kept, and the origin is vacated.
 */
module Relocation {
  import opened Grid
  import opened Neighborhood
  import opened Tolerance

  /** `point_set`: the set of the group being processed. */
  function Own(s: State, isRich: bool): set<Cell> {
    if isRich then s.rich else s.poor
  }

  /** The other group: the one whose neighbours count as unlike. */
  function Opposite(s: State, isRich: bool): set<Cell> {
    if isRich then s.poor else s.rich
  }

  /** `point_set.add(c)` followed by `empty_spots.remove(c)`. */
  function Placed(s: State, c: Cell, isRich: bool): State {
    if isRich then State(s.rich + {c}, s.poor, s.empty - {c})
    else State(s.rich, s.poor + {c}, s.empty - {c})
  }

  /** `point_set.remove(c)` followed by `empty_spots.add(c)`. */
  function Vacated(s: State, c: Cell, isRich: bool): State {
    if isRich then State(s.rich - {c}, s.poor, s.empty + {c})
    else State(s.rich, s.poor - {c}, s.empty + {c})
  }

  /** `point_set.add(point)`, run when no candidate was found. */
  function Restored(s: State, c: Cell, isRich: bool): State {
    if isRich then s.(rich := s.rich + {c}) else s.(poor := s.poor + {c})
  }

  /** `[p for p in empty_spots if is_nearby(p, point)]`, with `empty_spots` listed in rank order. */
  function NearbyEmptySpots(s: State, point: Cell, rank: seq<Cell>): seq<Cell> {
    Enumerate(rank, set c | c in s.empty && IsNearby(c, point))
  }

  /** The candidates are the empty cells near `point` that the ranking lists. */
  lemma NearbyEmptySpotsMembers(s: State, point: Cell, rank: seq<Cell>)
    ensures forall c :: c in NearbyEmptySpots(s, point, rank) <==> c in rank && c in s.empty && IsNearby(c, point)
  {
    EnumerateMembers(rank, set c | c in s.empty && IsNearby(c, point));
  }

  /** The candidates are listed once each. */
  lemma NearbyEmptySpotsDistinct(s: State, point: Cell, rank: seq<Cell>)
    requires IsRanking(rank)
    ensures Distinct(NearbyEmptySpots(s, point, rank))
  {
    RankingDistinct(rank);
    EnumerateDistinct(rank, set c | c in s.empty && IsNearby(c, point));
  }

  /** The candidate at index `j` is an empty cell that no earlier candidate repeats. */
  lemma NearbyEmptySpotAt(s: State, point: Cell, rank: seq<Cell>, j: nat)
    requires IsRanking(rank)
    requires j < |NearbyEmptySpots(s, point, rank)|
    ensures var candidates := NearbyEmptySpots(s, point, rank);
      && candidates[j] in s.empty
      && forall k :: 0 <= k < j ==> candidates[k] != candidates[j]
  {
    NearbyEmptySpotsMembers(s, point, rank);
    NearbyEmptySpotsDistinct(s, point, rank);
  }

  /** Taking back a provisional placement on an empty cell restores the state. */
  lemma UndoPlacement(s: State, c: Cell, isRich: bool)
    requires Own(s, isRich) !! s.empty
    requires c in s.empty
    ensures Vacated(Placed(s, c, isRich), c, isRich) == s
  {
  }

  /**
   With `best` provisionally placed, trying `c` and taking it back again returns to
   the state with only `best` placed.
   */
  lemma UndoSecondPlacement(s: State, best: Cell, c: Cell, isRich: bool)
    requires Own(s, isRich) !! s.empty
    requires best in s.empty && c in s.empty && best != c
    ensures Vacated(Placed(Placed(s, best, isRich), c, isRich), c, isRich) == Placed(s, best, isRich)
  {
  }

  /** With `best` provisionally placed, keeping `c` instead and releasing `best` leaves only `c` placed. */
  lemma ReplacePlacement(s: State, best: Cell, c: Cell, isRich: bool)
    requires Own(s, isRich) !! s.empty
    requires best in s.empty && c in s.empty && best != c
    ensures Vacated(Placed(Placed(s, best, isRich), c, isRich), best, isRich) == Placed(s, c, isRich)
  {
  }

  /** The unlike-neighbour count of each candidate, as the scan computes it. */
  function Scores(candidates: seq<Cell>, opposite: set<Cell>): (r: seq<nat>)
    ensures |r| == |candidates|
  {
    if candidates == [] then []
    else [CountNeighbors(candidates[0], opposite)] + Scores(candidates[1..], opposite)
  }

  /** Entry `i` of the scores is the unlike-neighbour count of candidate `i`. */
  lemma {:induction false} ScoresAt(candidates: seq<Cell>, opposite: set<Cell>, i: nat)
    requires i < |candidates|
    ensures Scores(candidates, opposite)[i] == CountNeighbors(candidates[i], opposite)
    decreases i
  {
    if i > 0 {
      ScoresAt(candidates[1..], opposite, i - 1);
    }
  }

  /** Every entry of the scores is the unlike-neighbour count of its candidate. */
  lemma ScoresCount(candidates: seq<Cell>, opposite: set<Cell>)
    ensures forall i :: 0 <= i < |candidates| ==> Scores(candidates, opposite)[i] == CountNeighbors(candidates[i], opposite)
  {
    forall i | 0 <= i < |candidates|
      ensures Scores(candidates, opposite)[i] == CountNeighbors(candidates[i], opposite)
    {
      ScoresAt(candidates, opposite, i);
    }
  }

  /**
   The greedy scan over the candidates' scores: the index of the candidate kept after
   looking at all of them. The running best starts at infinity, so the first
   candidate is always taken; a later one replaces it only with a strictly lower score.
   */
  function BestCandidate(scores: seq<nat>): (r: Option<nat>)
    ensures r.None? <==> scores == []
    ensures r.Some? ==> r.value < |scores|
    decreases |scores|
  {
    if scores == [] then None
    else
      var k := |scores| - 1;
      match BestCandidate(scores[..k])
      case None => Some(k)
      case Some(b) => if scores[k] < scores[b] then Some(k) else Some(b)
  }

  /** One more candidate: it becomes the best if it is the first or scores strictly lower than the best so far. */
  lemma BestCandidateExtend(scores: seq<nat>, j: nat)
    requires j < |scores|
    ensures BestCandidate(scores[..j + 1])
         == if j == 0 || scores[j] < scores[BestCandidate(scores[..j]).value] then Some(j)
            else BestCandidate(scores[..j])
  {
    assert scores[..j + 1][..j] == scores[..j];
  }

  /** The cell the candidate scan settles on for an occupant of `point`, if any. */
  function Destination(s: State, point: Cell, isRich: bool, rank: seq<Cell>): Option<Cell> {
    var candidates := NearbyEmptySpots(s, point, rank);
    match BestCandidate(Scores(candidates, Opposite(s, isRich)))
    case None => None
    case Some(k) => Some(candidates[k])
  }

  /** One occupant of the snapshot: the new state and whether it moved. */
  function Step(s: State, point: Cell, isRich: bool, tolerance: real, rank: seq<Cell>): (State, bool) {
    if CheckTolerance(point, s.rich, s.poor, tolerance, isRich) then (s, false)
    else
      match Destination(s, point, isRich, rank)
      case None => (Restored(s, point, isRich), false)
      case Some(q) => (Vacated(Placed(s, q, isRich), point, isRich), true)
  }

  /** The occupants of `snapshot`, one after the other. */
  function Phase(s: State, snapshot: seq<Cell>, isRich: bool, tolerance: real, rank: seq<Cell>): (State, bool)
    decreases |snapshot|, 1
  {
    if snapshot == [] then (s, false)
    else PhaseThenLast(s, snapshot, isRich, tolerance, rank)
  }

  /** A non-empty snapshot: the phase over all but its last occupant, then that occupant's turn. */
  function PhaseThenLast(s: State, snapshot: seq<Cell>, isRich: bool, tolerance: real, rank: seq<Cell>): (State, bool)
    requires snapshot != []
    decreases |snapshot|, 0
  {
    var n := |snapshot| - 1;
    var (s1, moved1) := Phase(s, snapshot[..n], isRich, tolerance, rank);
    var (s2, moved2) := Step(s1, snapshot[n], isRich, tolerance, rank);
    (s2, moved1 || moved2)
  }

  /** The first `i` turns of a phase over `snapshot`: the board and the flag once they are taken. */
  function PhaseUpTo(s: State, snapshot: seq<Cell>, i: nat, isRich: bool, tolerance: real, rank: seq<Cell>): (State, bool)
    requires i <= |snapshot|
  {
    Phase(s, snapshot[..i], isRich, tolerance, rank)
  }

  /** A phase over a non-empty snapshot ends with the turn of its last occupant. */
  lemma PhaseLast(s: State, snapshot: seq<Cell>, isRich: bool, tolerance: real, rank: seq<Cell>)
    requires snapshot != []
    ensures var n := |snapshot| - 1;
      var (s1, moved1) := Phase(s, snapshot[..n], isRich, tolerance, rank);
      var (s2, moved2) := Step(s1, snapshot[n], isRich, tolerance, rank);
      Phase(s, snapshot, isRich, tolerance, rank) == (s2, moved1 || moved2)
  {
  }

  /**
   While a phase works through the snapshot `Enumerate(rank, Own(s, isRich))`, the
   board stays a partition, and the occupant at index `i` is still in its group when
   its turn comes: no earlier step of the phase moves it.
   */
  lemma PhaseReady(s: State, isRich: bool, tolerance: real, rank: seq<Cell>, i: nat)
    requires Partition(s)
    requires IsRanking(rank)
    requires i <= |Enumerate(rank, Own(s, isRich))|
    ensures var snapshot := Enumerate(rank, Own(s, isRich));
      var s1 := Phase(s, snapshot[..i], isRich, tolerance, rank).0;
      && Partition(s1)
      && (i < |snapshot| ==> snapshot[i] in Own(s1, isRich))
  {
    var snapshot := Enumerate(rank, Own(s, isRich));
    RankingDistinct(rank);
    EnumerateDistinct(rank, Own(s, isRich));
    EnumerateMembers(rank, Own(s, isRich));
    var prefix := snapshot[..i];
    assert SetOf(prefix) <= Own(s, isRich);
    PhasePreserves(s, prefix, isRich, tolerance, rank);
    if i < |snapshot| {
      assert snapshot[i] in Own(s, isRich);
      assert snapshot[i] !in SetOf(prefix);
    }
  }

  /**
   The turn of the occupant at index `i` of the snapshot: it is still in its group,
   and the phase over the first `i + 1` occupants is the phase over the first `i`
   followed by its step, on a board that stays a partition.
   */
  lemma PhaseTurn(s: State, isRich: bool, tolerance: real, rank: seq<Cell>, i: nat)
    requires Partition(s)
    requires IsRanking(rank)
    requires i < |Enumerate(rank, Own(s, isRich))|
    ensures var snapshot := Enumerate(rank, Own(s, isRich));
      var (s1, moved1) := Phase(s, snapshot[..i], isRich, tolerance, rank);
      var (s2, moved2) := Step(s1, snapshot[i], isRich, tolerance, rank);
      && Partition(s1)
      && snapshot[i] in Own(s1, isRich)
      && Phase(s, snapshot[..i + 1], isRich, tolerance, rank) == (s2, moved1 || moved2)
      && Partition(s2)
  {
    var snapshot := Enumerate(rank, Own(s, isRich));
    PhaseReady(s, isRich, tolerance, rank, i);
    assert snapshot[..i + 1][..i] == snapshot[..i];
    PhaseLast(s, snapshot[..i + 1], isRich, tolerance, rank);
    PhaseReady(s, isRich, tolerance, rank, i + 1);
  }

  /** `move_points`: the rich phase, then the poor phase over a snapshot taken after it. */
  function Pass(s: State, toleranceRich: real, tolerancePoor: real, rank: seq<Cell>): (State, bool) {
    var (s1, moved1) := Phase(s, Enumerate(rank, s.rich), true, toleranceRich, rank);
    var (s2, moved2) := Phase(s1, Enumerate(rank, s1.poor), false, tolerancePoor, rank);
    (s2, moved1 || moved2)
  }

  /**
   The kept index has the lowest score of all, and every index before it has a
   strictly higher one: ties go to the earliest.
   */
  lemma {:induction false} BestCandidateIsEarliestMinimum(scores: seq<nat>)
    requires scores != []
    ensures BestCandidate(scores).Some?
    ensures var k := BestCandidate(scores).value;
      && k < |scores|
      && (forall j :: 0 <= j < |scores| ==> scores[k] <= scores[j])
      && (forall j :: 0 <= j < k ==> scores[k] < scores[j])
  {
    var n := |scores| - 1;
    if n > 0 {
      BestCandidateIsEarliestMinimum(scores[..n]);
    }
  }

  /** Moving an occupant from `p` to the empty cell `q` keeps both set sizes. */
  lemma MoveKeepsSizes(own: set<Cell>, empty: set<Cell>, p: Cell, q: Cell)
    requires p in own && q in empty && own !! empty
    ensures |own + {q} - {p}| == |own|
    ensures |empty - {q} + {p}| == |empty|
  {
    assert own + {q} - {p} == (own - {p}) + {q};
    assert empty - {q} + {p} == (empty + {p}) - {q};
  }

  /** A completed move from `p` to the empty cell `q`: the partition and every size are kept. */
  lemma MovePreserves(s: State, p: Cell, q: Cell, isRich: bool)
    requires Partition(s)
    requires p in Own(s, isRich) && q in s.empty
    ensures var s' := Vacated(Placed(s, q, isRich), p, isRich);
      && Partition(s')
      && Own(s', isRich) == Own(s, isRich) + {q} - {p}
      && s'.empty == s.empty - {q} + {p}
      && Opposite(s', isRich) == Opposite(s, isRich)
      && |s'.rich| == |s.rich| && |s'.poor| == |s.poor| && |s'.empty| == |s.empty|
  {
    if isRich {
      MoveRich(s, p, q);
    } else {
      MovePoor(s, p, q);
    }
  }

  lemma MoveRich(s: State, p: Cell, q: Cell)
    requires Partition(s)
    requires p in s.rich && q in s.empty
    ensures var s' := State(s.rich + {q} - {p}, s.poor, s.empty - {q} + {p});
      && Vacated(Placed(s, q, true), p, true) == s'
      && Partition(s')
      && |s'.rich| == |s.rich| && |s'.empty| == |s.empty|
  {
    MoveKeepsSizes(s.rich, s.empty, p, q);
  }

  lemma MovePoor(s: State, p: Cell, q: Cell)
    requires Partition(s)
    requires p in s.poor && q in s.empty
    ensures var s' := State(s.rich, s.poor + {q} - {p}, s.empty - {q} + {p});
      && Vacated(Placed(s, q, false), p, false) == s'
      && Partition(s')
      && |s'.poor| == |s.poor| && |s'.empty| == |s.empty|
  {
    MoveKeepsSizes(s.poor, s.empty, p, q);
  }

  /** What one occupant's turn preserves and changes. */
  lemma StepPreserves(s: State, point: Cell, isRich: bool, tolerance: real, rank: seq<Cell>)
    requires Partition(s)
    requires point in Own(s, isRich)
    ensures var r := Step(s, point, isRich, tolerance, rank);
      GroupEffect(s, r.0, isRich, {point}, r.1) && (r.1 ==> point in r.0.empty)
  {
    var r := Step(s, point, isRich, tolerance, rank);
    var dest := Destination(s, point, isRich, rank);
    if CheckTolerance(point, s.rich, s.poor, tolerance, isRich) {
      assert r == (s, false);
      StayEffect(s, point, isRich);
    } else if dest.None? {
      assert Restored(s, point, isRich) == s;
      assert r == (s, false);
      StayEffect(s, point, isRich);
    } else {
      DestinationIsNearbyEmpty(s, point, isRich, rank);
      assert r == (Vacated(Placed(s, dest.value, isRich), point, isRich), true);
      MoveEffect(s, point, dest.value, isRich);
    }
  }

  /** Staying put changes nothing. */
  lemma StayEffect(s: State, point: Cell, isRich: bool)
    requires Partition(s)
    ensures GroupEffect(s, s, isRich, {point}, false)
  {
  }

  /** A move from `p` to the empty cell `q`, as a group effect. */
  lemma MoveEffect(s: State, p: Cell, q: Cell, isRich: bool)
    requires Partition(s)
    requires p in Own(s, isRich) && q in s.empty
    ensures var s' := Vacated(Placed(s, q, isRich), p, isRich);
      GroupEffect(s, s', isRich, {p}, true) && p in s'.empty
  {
    MovePreserves(s, p, q, isRich);
    assert q in Own(Vacated(Placed(s, q, isRich), p, isRich), isRich);
  }

  /** The destination, when there is one, is an empty cell near the occupant. */
  lemma DestinationIsNearbyEmpty(s: State, point: Cell, isRich: bool, rank: seq<Cell>)
    ensures var dest := Destination(s, point, isRich, rank);
      dest.Some? ==> dest.value in s.empty && IsNearby(dest.value, point)
  {
    var candidates := NearbyEmptySpots(s, point, rank);
    var best := BestCandidate(Scores(candidates, Opposite(s, isRich)));
    if best.Some? {
      NearbyEmptySpotsMembers(s, point, rank);
      assert candidates[best.value] in candidates;
    }
  }

  /** A destination exists exactly when some empty cell is near the occupant. */
  lemma DestinationExistsIff(s: State, point: Cell, isRich: bool, rank: seq<Cell>)
    requires Partition(s)
    requires IsRanking(rank)
    ensures Destination(s, point, isRich, rank).Some? <==> exists c :: c in s.empty && IsNearby(c, point)
  {
    var candidates := NearbyEmptySpots(s, point, rank);
    DestinationIsNearbyEmpty(s, point, isRich, rank);
    NearbyEmptySpotsMembers(s, point, rank);
    RankingMembers(rank);
    if c :| c in s.empty && IsNearby(c, point) {
      BoardMembership(c);
      assert c in candidates;
    }
  }

  /**
   The destination has the lowest unlike-neighbour count of all nearby empty cells
   (even when that is worse than where the occupant stands), and every candidate the
   scan looked at before it has a strictly higher count: ties go to the earliest.
   */
  lemma DestinationIsBest(s: State, point: Cell, isRich: bool, rank: seq<Cell>)
    requires Partition(s)
    requires IsRanking(rank)
    requires Destination(s, point, isRich, rank).Some?
    ensures var candidates := NearbyEmptySpots(s, point, rank);
      var q := Destination(s, point, isRich, rank).value;
      var opposite := Opposite(s, isRich);
      && (forall c :: c in s.empty && IsNearby(c, point) ==> CountNeighbors(q, opposite) <= CountNeighbors(c, opposite))
      && exists k :: 0 <= k < |candidates| && candidates[k] == q
           && forall j :: 0 <= j < k ==> CountNeighbors(q, opposite) < CountNeighbors(candidates[j], opposite)
  {
    var candidates := NearbyEmptySpots(s, point, rank);
    var opposite := Opposite(s, isRich);
    ScanIsEarliestMinimum(candidates, opposite);
    var q := candidates[BestCandidate(Scores(candidates, opposite)).value];
    NearbyEmptySpotsMembers(s, point, rank);
    RankingMembers(rank);
    forall c | c in s.empty && IsNearby(c, point)
      ensures CountNeighbors(q, opposite) <= CountNeighbors(c, opposite)
    {
      BoardMembership(c);
      assert c in candidates;
    }
  }

  /** The scan over a list of candidates keeps the earliest one with the lowest count. */
  lemma ScanIsEarliestMinimum(candidates: seq<Cell>, opposite: set<Cell>)
    requires candidates != []
    ensures BestCandidate(Scores(candidates, opposite)).Some?
    ensures var k := BestCandidate(Scores(candidates, opposite)).value;
      && k < |candidates|
      && (forall j :: 0 <= j < |candidates| ==>
            CountNeighbors(candidates[k], opposite) <= CountNeighbors(candidates[j], opposite))
      && (forall j :: 0 <= j < k ==>
            CountNeighbors(candidates[k], opposite) < CountNeighbors(candidates[j], opposite))
  {
    BestCandidateIsEarliestMinimum(Scores(candidates, opposite));
    ScoresCount(candidates, opposite);
  }

  /** An occupant is relocated exactly when it is dissatisfied and some empty cell is nearby. */
  lemma StepMovesIff(s: State, point: Cell, isRich: bool, tolerance: real, rank: seq<Cell>)
    requires Partition(s)
    requires IsRanking(rank)
    ensures Step(s, point, isRich, tolerance, rank).1
        <==> !CheckTolerance(point, s.rich, s.poor, tolerance, isRich)
             && exists c :: c in s.empty && IsNearby(c, point)
  {
    DestinationExistsIff(s, point, isRich, rank);
  }

  /** When an occupant moves, it goes to its destination and its origin becomes empty. */
  lemma StepDestination(s: State, point: Cell, isRich: bool, tolerance: real, rank: seq<Cell>)
    requires Step(s, point, isRich, tolerance, rank).1
    ensures Destination(s, point, isRich, rank).Some?
    ensures var q := Destination(s, point, isRich, rank).value;
      Step(s, point, isRich, tolerance, rank).0 == Vacated(Placed(s, q, isRich), point, isRich)
  {
  }

  /** A satisfied occupant, or one with no empty cell nearby, stays put and nothing changes. */
  lemma StepStays(s: State, point: Cell, isRich: bool, tolerance: real, rank: seq<Cell>)
    requires Partition(s)
    requires IsRanking(rank)
    requires point in Own(s, isRich)
    requires CheckTolerance(point, s.rich, s.poor, tolerance, isRich)
          || forall c :: c in s.empty ==> !IsNearby(c, point)
    ensures Step(s, point, isRich, tolerance, rank) == (s, false)
  {
    StepMovesIff(s, point, isRich, tolerance, rank);
    StepPreserves(s, point, isRich, tolerance, rank);
  }

  /**
   What a sequence of turns of one group does, from `s` to `s'`: the partition and all
   sizes are kept, the other group is untouched, only occupants standing on `examined`
   can have left, nothing changed unless `moved`, and a move leaves the group holding a
   cell it did not hold in `s`.
   */
  ghost predicate GroupEffect(s: State, s': State, isRich: bool, examined: set<Cell>, moved: bool) {
    && Partition(s')
    && |s'.rich| == |s.rich| && |s'.poor| == |s.poor| && |s'.empty| == |s.empty|
    && Opposite(s', isRich) == Opposite(s, isRich)
    && Own(s, isRich) - examined <= Own(s', isRich)
    && (!moved ==> s' == s)
    && (moved ==> Own(s', isRich) - Own(s, isRich) != {})
  }

  /** Two group effects in a row compose, as long as the second turn is of an original occupant. */
  lemma GroupEffectCompose(s: State, s1: State, s2: State, isRich: bool, examined: set<Cell>,
                           p: Cell, moved1: bool, moved2: bool)
    requires GroupEffect(s, s1, isRich, examined, moved1)
    requires GroupEffect(s1, s2, isRich, {p}, moved2)
    requires p in Own(s, isRich)
    ensures GroupEffect(s, s2, isRich, examined + {p}, moved1 || moved2)
  {
    if moved1 {
      var c :| c in Own(s1, isRich) - Own(s, isRich);
      assert c != p;
      assert c in Own(s2, isRich) - Own(s, isRich);
    }
  }

  /** What a phase over a snapshot of the group preserves and changes. */
  lemma {:induction false} PhasePreserves(s: State, snapshot: seq<Cell>, isRich: bool, tolerance: real, rank: seq<Cell>)
    requires Partition(s)
    requires Distinct(snapshot)
    requires SetOf(snapshot) <= Own(s, isRich)
    ensures var (s', moved) := Phase(s, snapshot, isRich, tolerance, rank);
      GroupEffect(s, s', isRich, SetOf(snapshot), moved)
    decreases |snapshot|
  {
    if snapshot != [] {
      var n := |snapshot| - 1;
      var prefix := snapshot[..n];
      var p := snapshot[n];
      assert SetOf(snapshot) == SetOf(prefix) + {p} by {
        assert snapshot == prefix + [p];
      }
      PhasePreserves(s, prefix, isRich, tolerance, rank);
      PhaseLast(s, snapshot, isRich, tolerance, rank);
      var (s1, moved1) := Phase(s, prefix, isRich, tolerance, rank);
      assert p !in SetOf(prefix);
      StepPreserves(s1, p, isRich, tolerance, rank);
      var (s2, moved2) := Step(s1, p, isRich, tolerance, rank);
      GroupEffectCompose(s, s1, s2, isRich, SetOf(prefix), p, moved1, moved2);
    }
  }

  /**
   One pass keeps the partition and the size of every set, leaves the state unchanged
   when it reports no move, and changes it when it reports one.
   */
  lemma PassPreserves(s: State, toleranceRich: real, tolerancePoor: real, rank: seq<Cell>)
    requires Partition(s)
    requires IsRanking(rank)
    ensures var (s', moved) := Pass(s, toleranceRich, tolerancePoor, rank);
      && Partition(s')
      && |s'.rich| == |s.rich| && |s'.poor| == |s.poor| && |s'.empty| == |s.empty|
      && (moved <==> s' != s)
  {
    var richSnapshot := Enumerate(rank, s.rich);
    RankingDistinct(rank);
    EnumerateDistinct(rank, s.rich);
    EnumerateMembers(rank, s.rich);
    PhasePreserves(s, richSnapshot, true, toleranceRich, rank);
    var (s1, moved1) := Phase(s, richSnapshot, true, toleranceRich, rank);
    var poorSnapshot := Enumerate(rank, s1.poor);
    EnumerateDistinct(rank, s1.poor);
    EnumerateMembers(rank, s1.poor);
    PhasePreserves(s1, poorSnapshot, false, tolerancePoor, rank);
    var (s2, moved2) := Phase(s1, poorSnapshot, false, tolerancePoor, rank);
    if moved1 {
      assert s2.rich == s1.rich != s.rich;
    } else if moved2 {
      assert s2.poor != s1.poor == s.poor;
    }
  }

  /** A pass that reports no move reached a fixed point: the next pass reports none either. */
  lemma PassFixedPoint(s: State, toleranceRich: real, tolerancePoor: real, rank: seq<Cell>)
    requires Partition(s)
    requires IsRanking(rank)
    requires !Pass(s, toleranceRich, tolerancePoor, rank).1
    ensures Pass(s, toleranceRich, tolerancePoor, rank).0 == s
    ensures Pass(Pass(s, toleranceRich, tolerancePoor, rank).0, toleranceRich, tolerancePoor, rank) == (s, false)
  {
    PassPreserves(s, toleranceRich, tolerancePoor, rank);
  }
}
