/**
 The board of the Schelling model: a fixed 40 x 40 grid of cells, the three-way
 partition of its cells into rich, poor and empty, the Chebyshev "nearby" test,
 and the listing of a set of cells in an explicit order (the model's stand-in
 for the iteration order of a Python set).
 */
module Grid {

  datatype Option<T> = None | Some(value: T)

  /** A board coordinate (x, y). */
  type Cell = (int, int)

  /** Side length of the square board. */
  const Size: int := 40

  /** Number of cells on the board. */
  const CellCount: int := 1600

  /** Radius of the relocation search (the default `distance` of `is_nearby`). */
  const SearchRadius: int := 5

  predicate InBounds(x: int, y: int) {
    0 <= x < Size && 0 <= y < Size
  }

  predicate OnBoard(c: Cell) {
    InBounds(c.0, c.1)
  }

  /** Every cell of the board. */
  function Board(): set<Cell> {
    set x, y | 0 <= x < Size && 0 <= y < Size :: (x, y)
  }

  /** The board in the order `product(range(40), range(40))` lists it: row by row. */
  function AllPoints(): (r: seq<Cell>)
    ensures |r| == CellCount
  {
    seq(CellCount, i requires 0 <= i < CellCount => (i / Size, i % Size))
  }

  predicate Distinct(s: seq<Cell>) {
    forall i, j :: 0 <= i < j < |s| ==> s[i] != s[j]
  }

  function SetOf(s: seq<Cell>): set<Cell> {
    set c | c in s
  }

  /** The cells that make up a board state: the three population sets. */
  datatype State = State(rich: set<Cell>, poor: set<Cell>, empty: set<Cell>)

  /**
   The invariant of the model: the three sets are pairwise disjoint, and a cell lies
   in one of them exactly when it is on the board.
   */
  ghost predicate Partition(s: State) {
    && s.rich !! s.poor
    && s.rich !! s.empty
    && s.poor !! s.empty
    && (forall c :: c in s.rich + s.poor + s.empty <==> OnBoard(c))
  }

  function Abs(n: int): nat {
    if n < 0 then -n else n
  }

  function Max(a: int, b: int): int {
    if a < b then b else a
  }

  /** Chebyshev (king-move) distance between two cells. */
  function Chebyshev(p: Cell, q: Cell): nat {
    Max(Abs(p.0 - q.0), Abs(p.1 - q.1))
  }

  /** `is_nearby`: both coordinate differences are at most `distance`. */
  predicate IsNearby(point1: Cell, point2: Cell, distance: int := SearchRadius) {
    Abs(point1.0 - point2.0) <= distance && Abs(point1.1 - point2.1) <= distance
  }

  /** "Nearby" is a ball of the Chebyshev distance, and a symmetric relation. */
  lemma IsNearbyIsChebyshev(point1: Cell, point2: Cell, distance: int)
    ensures IsNearby(point1, point2, distance) <==> Chebyshev(point1, point2) <= distance
    ensures IsNearby(point1, point2, distance) <==> IsNearby(point2, point1, distance)
  {
  }

  /**
   `order` lists every cell of `B` exactly once and nothing else: its first entry is
   a member of `B`, and the rest lists the remaining members.
   */
  ghost predicate Lists(order: seq<Cell>, B: set<Cell>) {
    if order == [] then B == {} else order[0] in B && Lists(order[1..], B - {order[0]})
  }

  /**
   A fixed enumeration of the whole board, each cell exactly once. Every Python set
   the engine iterates over is listed in the order this ranking gives its members.
   */
  ghost predicate IsRanking(rank: seq<Cell>) {
    Lists(rank, Board())
  }

  /** The members of `S`, in the order they appear in `order`. */
  function Enumerate(order: seq<Cell>, S: set<Cell>): (r: seq<Cell>)
    ensures |r| <= |order|
  {
    if order == [] then []
    else
      var rest := Enumerate(order[1..], S);
      (if order[0] in S then [order[0]] else []) + rest
  }

  /** The listing holds exactly the members of `S` that occur in `order`. */
  lemma {:induction false} EnumerateMembers(order: seq<Cell>, S: set<Cell>)
    ensures forall c :: c in Enumerate(order, S) <==> c in order && c in S
  {
    if order != [] {
      EnumerateMembers(order[1..], S);
      assert order == [order[0]] + order[1..];
    }
  }

  /** Listing a set along a duplicate-free order lists each member once. */
  lemma {:induction false} EnumerateDistinct(order: seq<Cell>, S: set<Cell>)
    requires Distinct(order)
    ensures Distinct(Enumerate(order, S))
  {
    if order != [] {
      EnumerateDistinct(order[1..], S);
      EnumerateMembers(order[1..], S);
      var rest := Enumerate(order[1..], S);
      assert order[0] !in order[1..];
      assert order[0] !in rest;
      var r := Enumerate(order, S);
      if order[0] in S {
        assert r == [order[0]] + rest;
        forall i, j | 0 <= i < j < |r|
          ensures r[i] != r[j]
        {
          if i == 0 {
            assert r[j] == rest[j - 1];
          } else {
            assert r[i] == rest[i - 1] && r[j] == rest[j - 1];
          }
        }
      } else {
        assert r == rest;
      }
    }
  }

  lemma BoardMembership(c: Cell)
    ensures c in Board() <==> OnBoard(c)
  {
    if OnBoard(c) {
      assert c == (c.0, c.1);
    }
  }

  /** The three sets of a partitioned state make up the whole board. */
  lemma PartitionCoversBoard(s: State)
    requires Partition(s)
    ensures s.rich + s.poor + s.empty == Board()
  {
    forall c
      ensures c in s.rich + s.poor + s.empty <==> c in Board()
    {
      BoardMembership(c);
    }
  }

  /** `AllPoints()` lists every board cell exactly once. */
  lemma AllPointsEnumeratesBoard()
    ensures Distinct(AllPoints())
    ensures forall c :: c in AllPoints() <==> c in Board()
  {
    var a := AllPoints();
    forall i, j | 0 <= i < j < |a|
      ensures a[i] != a[j]
    {
      assert i == 40 * (i / 40) + i % 40;
      assert j == 40 * (j / 40) + j % 40;
    }
    forall c | c in Board()
      ensures c in a
    {
      var k := 40 * c.0 + c.1;
      assert k / 40 == c.0 && k % 40 == c.1;
      assert a[k] == c;
    }
  }

  /** A duplicate-free sequence has as many members as elements. */
  lemma {:induction false} DistinctCardinality(s: seq<Cell>)
    requires Distinct(s)
    ensures |SetOf(s)| == |s|
  {
    if s != [] {
      var t := s[..|s| - 1];
      var last := s[|s| - 1];
      DistinctCardinality(t);
      assert SetOf(s) == SetOf(t) + {last} by {
        assert s == t + [last];
      }
      assert last !in SetOf(t);
    }
  }

  /** The board has exactly `CellCount` cells. */
  lemma BoardCardinality()
    ensures |Board()| == CellCount
  {
    AllPointsEnumeratesBoard();
    DistinctCardinality(AllPoints());
    assert SetOf(AllPoints()) == Board();
  }

  /** A listing holds exactly the members of the listed set, and as many entries. */
  lemma {:induction false} ListsMembers(order: seq<Cell>, B: set<Cell>)
    requires Lists(order, B)
    ensures forall c :: c in order <==> c in B
    ensures |order| == |B|
  {
    if order != [] {
      var x := order[0];
      ListsMembers(order[1..], B - {x});
      assert order == [x] + order[1..];
      assert B == (B - {x}) + {x};
    }
  }

  /** A listing repeats no entry. */
  lemma {:induction false} ListsDistinct(order: seq<Cell>, B: set<Cell>)
    requires Lists(order, B)
    ensures Distinct(order)
  {
    if order != [] {
      var rest := order[1..];
      ListsDistinct(rest, B - {order[0]});
      ListsMembers(rest, B - {order[0]});
      forall i, j | 0 <= i < j < |order|
        ensures order[i] != order[j]
      {
        if i == 0 {
          assert order[j] == rest[j - 1];
        } else {
          assert order[i] == rest[i - 1] && order[j] == rest[j - 1];
        }
      }
    }
  }

  /** A duplicate-free sequence lists the set of its entries. */
  lemma {:induction false} DistinctLists(order: seq<Cell>)
    requires Distinct(order)
    ensures Lists(order, SetOf(order))
  {
    if order != [] {
      var rest := order[1..];
      assert Distinct(rest) by {
        forall i, j | 0 <= i < j < |rest|
          ensures rest[i] != rest[j]
        {
          assert rest[i] == order[i + 1] && rest[j] == order[j + 1];
        }
      }
      DistinctLists(rest);
      assert order[0] !in rest by {
        forall k | 0 <= k < |rest|
          ensures rest[k] != order[0]
        {
          assert rest[k] == order[k + 1];
        }
      }
      assert order == [order[0]] + rest;
      assert SetOf(order) - {order[0]} == SetOf(rest);
    }
  }

  /** A ranking has one entry per board cell, and lists each cell exactly once. */
  lemma RankingMembers(rank: seq<Cell>)
    requires IsRanking(rank)
    ensures |rank| == CellCount
    ensures forall c :: c in rank <==> c in Board()
  {
    ListsMembers(rank, Board());
    BoardCardinality();
  }

  lemma RankingDistinct(rank: seq<Cell>)
    requires IsRanking(rank)
    ensures Distinct(rank)
  {
    ListsDistinct(rank, Board());
  }

  /** Rankings exist: the row-by-row order of `product(range(40), range(40))` is one. */
  lemma AllPointsIsRanking()
    ensures IsRanking(AllPoints())
  {
    AllPointsEnumeratesBoard();
    DistinctLists(AllPoints());
    assert SetOf(AllPoints()) == Board();
  }
}
