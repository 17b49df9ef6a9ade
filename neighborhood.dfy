/**
 Counting the Moore neighbours of a cell (`count_neighbors`): the up to eight
 cells at king-move distance 1 that lie on the board, and how many of them
 belong to a given set.
 */
module Neighborhood {
  import opened Grid

  /**
   One term of the source's comprehension: the cell at offset (i, j) from `p`,
   kept unless the offset is (0, 0) or the cell lies off the board.
   */
  function Candidate(p: Cell, i: int, j: int): seq<Cell> {
    if (i, j) != (0, 0) && InBounds(p.0 + i, p.1 + j) then [(p.0 + i, p.1 + j)] else []
  }

  /** The inner loop of the comprehension: j running over -1, 0, 1 for a fixed i. */
  function Row(p: Cell, i: int): seq<Cell> {
    Candidate(p, i, -1) + Candidate(p, i, 0) + Candidate(p, i, 1)
  }

  /** The in-bounds Moore neighbours of `p`, in the order of the source's comprehension (i outer, j inner). */
  function Neighbors(p: Cell): (r: seq<Cell>)
    ensures |r| <= 8
  {
    Row(p, -1) + Row(p, 0) + Row(p, 1)
  }

  lemma CandidateAdjacent(p: Cell, i: int, j: int)
    requires -1 <= i <= 1 && -1 <= j <= 1
    ensures forall q :: q in Candidate(p, i, j) ==> OnBoard(q) && q != p && Chebyshev(p, q) == 1
  {
  }

  lemma RowAdjacent(p: Cell, i: int)
    requires -1 <= i <= 1
    ensures forall q :: q in Row(p, i) ==> OnBoard(q) && q != p && Chebyshev(p, q) == 1
  {
    CandidateAdjacent(p, i, -1);
    CandidateAdjacent(p, i, 0);
    CandidateAdjacent(p, i, 1);
  }

  /** Every listed neighbour is on the board, differs from `p` and is at distance 1 from it. */
  lemma NeighborsAreAdjacent(p: Cell)
    ensures forall q :: q in Neighbors(p) ==> OnBoard(q) && q != p && Chebyshev(p, q) == 1
  {
    RowAdjacent(p, -1);
    RowAdjacent(p, 0);
    RowAdjacent(p, 1);
  }

  /** How many entries of `cells` are members of `S`. */
  function CountIn(cells: seq<Cell>, S: set<Cell>): (r: nat)
    ensures r <= |cells|
  {
    if cells == [] then 0
    else (if cells[0] in S then 1 else 0) + CountIn(cells[1..], S)
  }

  /**
   1 when the cell at offset (i, j) from `p` is one of the comprehension's neighbours
   and a member of `S`, 0 otherwise: one term of the source's sum.
   */
  function Hit(p: Cell, i: int, j: int, S: set<Cell>): nat {
    if (i, j) != (0, 0) && InBounds(p.0 + i, p.1 + j) && (p.0 + i, p.1 + j) in S then 1 else 0
  }

  /** The terms of the sum for a fixed `i`, with j running over -1, 0, 1. */
  function RowHits(p: Cell, i: int, S: set<Cell>): nat {
    Hit(p, i, -1, S) + Hit(p, i, 0, S) + Hit(p, i, 1, S)
  }

  /**
   `count_neighbors`: the number of in-bounds Moore neighbours of `point` in
   `pointsSet`, summed over the offsets as the comprehension runs over them.
   */
  function CountNeighbors(point: Cell, pointsSet: set<Cell>): (r: nat)
    ensures r <= 8
  {
    RowHits(point, -1, pointsSet) + RowHits(point, 0, pointsSet) + RowHits(point, 1, pointsSet)
  }

  /** Counting a concatenation counts both parts. */
  lemma {:induction false} CountInAppend(a: seq<Cell>, b: seq<Cell>, S: set<Cell>)
    ensures CountIn(a + b, S) == CountIn(a, S) + CountIn(b, S)
  {
    if a != [] {
      assert (a + b)[0] == a[0];
      assert (a + b)[1..] == a[1..] + b;
      CountInAppend(a[1..], b, S);
    } else {
      assert a + b == b;
    }
  }

  /** One row of the sum counts the members of `S` in that row of the neighbour list. */
  lemma RowCount(p: Cell, i: int, S: set<Cell>)
    ensures CountIn(Row(p, i), S) == RowHits(p, i, S)
  {
    CountInAppend(Candidate(p, i, -1), Candidate(p, i, 0), S);
    CountInAppend(Candidate(p, i, -1) + Candidate(p, i, 0), Candidate(p, i, 1), S);
  }

  /** The sum is the number of entries of the neighbour list that lie in the set. */
  lemma CountNeighborsIsListCount(p: Cell, S: set<Cell>)
    ensures CountNeighbors(p, S) == CountIn(Neighbors(p), S) <= |Neighbors(p)|
  {
    RowCount(p, -1, S);
    RowCount(p, 0, S);
    RowCount(p, 1, S);
    CountInAppend(Row(p, -1), Row(p, 0), S);
    CountInAppend(Row(p, -1) + Row(p, 0), Row(p, 1), S);
  }

  predicate IsCorner(p: Cell) {
    (p.0 == 0 || p.0 == Size - 1) && (p.1 == 0 || p.1 == Size - 1)
  }

  /** On the board's border but not in a corner. */
  predicate IsEdge(p: Cell) {
    OnBoard(p) && !IsCorner(p) && (p.0 == 0 || p.0 == Size - 1 || p.1 == 0 || p.1 == Size - 1)
  }

  predicate IsInterior(p: Cell) {
    0 < p.0 < Size - 1 && 0 < p.1 < Size - 1
  }

  /** A corner cell has 3 neighbours on the board, an edge cell 5, an interior cell 8. */
  lemma NeighborsBySituation(p: Cell)
    ensures IsCorner(p) ==> |Neighbors(p)| == 3
    ensures IsEdge(p) ==> |Neighbors(p)| == 5
    ensures IsInterior(p) ==> |Neighbors(p)| == 8
  {
  }

  /** Hence a count is at most 3 at a corner and at most 5 on an edge. */
  lemma CountNeighborsBySituation(p: Cell, S: set<Cell>)
    ensures IsCorner(p) ==> CountNeighbors(p, S) <= 3
    ensures IsEdge(p) ==> CountNeighbors(p, S) <= 5
  {
    NeighborsBySituation(p);
    CountNeighborsIsListCount(p, S);
  }

  /** No member of the set among the cells gives 0; all of them members gives the full length. */
  lemma {:induction false} CountInExtremes(cells: seq<Cell>, S: set<Cell>)
    ensures (forall c :: c in cells ==> c !in S) ==> CountIn(cells, S) == 0
    ensures (forall c :: c in cells ==> c in S) ==> CountIn(cells, S) == |cells|
  {
    if cells != [] {
      CountInExtremes(cells[1..], S);
    }
  }

  /** The count depends only on which entries of `cells` lie in the set. */
  lemma {:induction false} CountInAgree(cells: seq<Cell>, S: set<Cell>, T: set<Cell>)
    requires forall c :: c in cells ==> (c in S <==> c in T)
    ensures CountIn(cells, S) == CountIn(cells, T)
  {
    if cells != [] {
      CountInAgree(cells[1..], S, T);
    }
  }

  /**
   Only on-board cells at distance exactly 1 are looked at: two sets that agree on
   those give the same count. In particular the point itself and off-board cells
   are never counted.
   */
  lemma CountNeighborsLocal(p: Cell, S: set<Cell>, T: set<Cell>)
    requires forall q :: OnBoard(q) && q != p && Chebyshev(p, q) == 1 ==> (q in S <==> q in T)
    ensures CountNeighbors(p, S) == CountNeighbors(p, T)
  {
    NeighborsAreAdjacent(p);
    CountInAgree(Neighbors(p), S, T);
    CountNeighborsIsListCount(p, S);
    CountNeighborsIsListCount(p, T);
  }

  lemma CountNeighborsIgnoresSelfAndOffBoard(p: Cell, S: set<Cell>)
    ensures CountNeighbors(p, S) == CountNeighbors(p, S * Board() - {p})
  {
    forall q | OnBoard(q) && q != p && Chebyshev(p, q) == 1
      ensures q in S <==> q in S * Board() - {p}
    {
      BoardMembership(q);
    }
    CountNeighborsLocal(p, S, S * Board() - {p});
  }

  /** Counts over disjoint sets add up, and never exceed the number of cells looked at. */
  lemma {:induction false} CountInDisjoint(cells: seq<Cell>, S: set<Cell>, T: set<Cell>)
    requires S !! T
    ensures CountIn(cells, S) + CountIn(cells, T) == CountIn(cells, S + T) <= |cells|
  {
    if cells != [] {
      CountInDisjoint(cells[1..], S, T);
    }
  }

  lemma CountNeighborsDisjoint(p: Cell, S: set<Cell>, T: set<Cell>)
    requires S !! T
    ensures CountNeighbors(p, S) + CountNeighbors(p, T) == CountNeighbors(p, S + T) <= 8
  {
    CountInDisjoint(Neighbors(p), S, T);
    CountNeighborsIsListCount(p, S);
    CountNeighborsIsListCount(p, T);
    CountNeighborsIsListCount(p, S + T);
  }

  /** Every neighbour on the board is counted against the whole board. */
  lemma CountNeighborsOfBoard(p: Cell)
    ensures CountNeighbors(p, Board()) == |Neighbors(p)|
  {
    NeighborsAreAdjacent(p);
    forall q | q in Neighbors(p)
      ensures q in Board()
    {
      BoardMembership(q);
    }
    CountInExtremes(Neighbors(p), Board());
    CountNeighborsIsListCount(p, Board());
  }
}
