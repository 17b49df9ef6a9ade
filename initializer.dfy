/**
 The board initialiser (`generate_rich_poor_points`): shuffle the 1600 cells,
 give the first half of the population to the rich, the rest of it to the poor,
 and leave every other cell empty. The shuffle is a parameter: any
 duplicate-free rearrangement of the board.
 */
module Initializer {
  import opened Grid

  datatype InitError = TooManyPoints

  datatype Result = Success(value: State) | Failure(error: InitError)

  /** A rearrangement of `points` (which has no duplicates): what `random.shuffle` may produce. */
  ghost predicate IsShuffleOf(shuffled: seq<Cell>, points: seq<Cell>) {
    && |shuffled| == |points|
    && Distinct(shuffled)
    && forall c :: c in shuffled <==> c in points
  }

  /** Python's normalisation of a slice bound `i` for a sequence of length `len`. */
  function SliceIndex(i: int, len: nat): (r: nat)
    ensures r <= len
    ensures 0 <= i <= len ==> r == i
  {
    if i < 0 then (if i + len < 0 then 0 else i + len)
    else if i > len then len
    else i
  }

  /** Python's `s[i:j]`. */
  function PySlice(s: seq<Cell>, i: int, j: int): seq<Cell> {
    var a := SliceIndex(i, |s|);
    var b := SliceIndex(j, |s|);
    if a <= b then s[a..b] else []
  }

  /**
   `generate_rich_poor_points(num_points)`, with the result of `random.shuffle`
   supplied as `shuffled`. Python's `//` by 2 is floor division, as Dafny's `/` by a
   positive divisor is.
   */
  function GenerateRichPoorPoints(numPoints: int, shuffled: seq<Cell>): Result
    requires IsShuffleOf(shuffled, AllPoints())
  {
    var allPoints := AllPoints();
    if numPoints > |allPoints| then Failure(TooManyPoints)
    else
      var richPoints := SetOf(PySlice(shuffled, 0, numPoints / 2));
      var poorPoints := SetOf(PySlice(shuffled, numPoints / 2, numPoints));
      var emptySpots := SetOf(shuffled) - richPoints - poorPoints;
      Success(State(richPoints, poorPoints, emptySpots))
  }

  /** Slices of a duplicate-free sequence that do not overlap share no element. */
  lemma SlicesDisjoint(s: seq<Cell>, a: nat, b: nat, c: nat, d: nat)
    requires Distinct(s)
    requires a <= b <= c <= d <= |s|
    ensures SetOf(s[a..b]) !! SetOf(s[c..d])
  {
  }

  lemma SliceDistinct(s: seq<Cell>, a: nat, b: nat)
    requires Distinct(s)
    requires a <= b <= |s|
    ensures Distinct(s[a..b])
  {
  }

  /** The initialiser fails exactly when the population exceeds the board. */
  lemma GenerateFailsIffTooMany(numPoints: int, shuffled: seq<Cell>)
    requires IsShuffleOf(shuffled, AllPoints())
    ensures GenerateRichPoorPoints(numPoints, shuffled).Failure? <==> numPoints > CellCount
  {
  }

  /** Whatever it is given, a successful initialisation partitions the board. */
  lemma GeneratePartitions(numPoints: int, shuffled: seq<Cell>)
    requires IsShuffleOf(shuffled, AllPoints())
    requires numPoints <= CellCount
    ensures Partition(GenerateRichPoorPoints(numPoints, shuffled).value)
  {
    var n := |shuffled|;
    var h := numPoints / 2;
    var m := SliceIndex(h, n);
    var e := SliceIndex(numPoints, n);
    var r := PySlice(shuffled, 0, h);
    var p := PySlice(shuffled, h, numPoints);
    assert r == shuffled[0..m];
    if m <= e {
      assert p == shuffled[m..e];
      SlicesDisjoint(shuffled, 0, m, m, e);
    } else {
      assert p == [];
    }
    assert SetOf(r) <= SetOf(shuffled) && SetOf(p) <= SetOf(shuffled);
    AllPointsEnumeratesBoard();
    assert SetOf(shuffled) == Board();
  }

  /**
   For 0 <= n <= 1600 the three sets have sizes n // 2, n - n // 2 and 1600 - n,
   e.g. a population of 4 gives 2 rich, 2 poor and 1596 empty cells.
   */
  lemma GenerateSizes(numPoints: int, shuffled: seq<Cell>)
    requires IsShuffleOf(shuffled, AllPoints())
    requires 0 <= numPoints <= CellCount
    ensures var s := GenerateRichPoorPoints(numPoints, shuffled).value;
      && |s.rich| == numPoints / 2
      && |s.poor| == numPoints - numPoints / 2
      && |s.empty| == CellCount - numPoints
  {
    var h := numPoints / 2;
    var r := shuffled[0..h];
    var p := shuffled[h..numPoints];
    assert PySlice(shuffled, 0, h) == r;
    assert PySlice(shuffled, h, numPoints) == p;
    SliceDistinct(shuffled, 0, h);
    SliceDistinct(shuffled, h, numPoints);
    DistinctCardinality(r);
    DistinctCardinality(p);
    DistinctCardinality(shuffled);
    SlicesDisjoint(shuffled, 0, h, h, numPoints);
    RemainderSize(SetOf(shuffled), SetOf(r), SetOf(p));
  }

  /** Taking two disjoint parts out of a set leaves the rest of its size. */
  lemma RemainderSize(S: set<Cell>, R: set<Cell>, P: set<Cell>)
    requires R <= S && P <= S && R !! P
    ensures |S - R - P| == |S| - |R| - |P|
  {
    var E := S - R - P;
    assert S == E + R + P;
    assert |E + R| == |E| + |R|;
  }
}
