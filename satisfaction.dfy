/**
 The satisfaction metric (`calculate_satisfaction`): the percentage of a group
 whose members pass the tolerance test, rounded to the nearest integer with
 ties to even (Python's `round`), and 0 for an empty group.
 */
module Satisfaction {
  import opened Grid
  import opened Tolerance

  /** `round(num / den)` on the exact quotient: the nearest integer, ties going to the even one. */
  function RoundHalfEven(num: nat, den: nat): nat
    requires den > 0
  {
    var q := num / den;
    var rem := num % den;
    if 2 * rem < den then q
    else if 2 * rem > den then q + 1
    else if q % 2 == 0 then q
    else q + 1
  }

  /** The rounded value is within half a unit of the quotient, and even at a tie. */
  lemma RoundHalfEvenNearest(num: nat, den: nat)
    requires den > 0
    ensures var r := RoundHalfEven(num, den);
      && 2 * Abs(r * den - num) <= den
      && (2 * Abs(r * den - num) == den ==> r % 2 == 0)
  {
    var q := num / den;
    var rem := num % den;
    var r := RoundHalfEven(num, den);
    var below := (q as int) * den - num;
    var above := (q as int + 1) * den - num;
    assert below == -(rem as int);
    assert above == below + den;
    assert r == q || r == q + 1;
    assert r * den - num == if r == q then below else above;
  }

  /** A dividend no larger than `hi` times the divisor gives a quotient of at most `hi`, exact when equal to it. */
  lemma DivBound(num: nat, den: nat, hi: nat)
    requires den > 0
    requires num <= hi * den
    ensures num / den <= hi
    ensures num / den == hi ==> num % den == 0
  {
    var q := num / den;
    assert q >= hi + 1 ==> q * den >= (hi + 1) * den;
    assert (hi + 1) * den == hi * den + den;
  }

  /** A whole multiple of `den` divides exactly. */
  lemma DivExact(k: nat, den: nat)
    requires den > 0
    ensures (k * den) / den == k
    ensures (k * den) % den == 0
  {
    var q: int := (k * den) / den;
    var d: int := k - q;
    assert d * den == (k * den) % den;
    assert d >= 1 ==> d * den >= den;
    assert d <= -1 ==> d * den <= -(den as int);
  }

  /** Rounding a quotient that lies in [0, hi] gives an integer in [0, hi]. */
  lemma RoundHalfEvenBounds(num: nat, den: nat, hi: nat)
    requires den > 0
    requires num <= hi * den
    ensures RoundHalfEven(num, den) <= hi
  {
    DivBound(num, den, hi);
  }

  /** A whole multiple of `den` rounds to itself. */
  lemma RoundHalfEvenExact(k: nat, den: nat)
    requires den > 0
    ensures RoundHalfEven(k * den, den) == k
  {
    DivExact(k, den);
  }

  /** How many members of `pointsSet` pass the tolerance test. */
  function SatisfiedCount(pointsSet: set<Cell>, richPoints: set<Cell>, poorPoints: set<Cell>,
                          tolerance: real, isRich: bool): (r: nat)
    ensures r <= |pointsSet|
  {
    var satisfied := set p | p in pointsSet && CheckTolerance(p, richPoints, poorPoints, tolerance, isRich);
    assert pointsSet == satisfied + (pointsSet - satisfied);
    |satisfied|
  }

  /** Everybody satisfied gives the whole group; nobody satisfied gives 0. */
  lemma SatisfiedCountExtremes(pointsSet: set<Cell>, richPoints: set<Cell>, poorPoints: set<Cell>,
                               tolerance: real, isRich: bool)
    ensures (forall p :: p in pointsSet ==> CheckTolerance(p, richPoints, poorPoints, tolerance, isRich))
        ==> SatisfiedCount(pointsSet, richPoints, poorPoints, tolerance, isRich) == |pointsSet|
    ensures (forall p :: p in pointsSet ==> !CheckTolerance(p, richPoints, poorPoints, tolerance, isRich))
        ==> SatisfiedCount(pointsSet, richPoints, poorPoints, tolerance, isRich) == 0
  {
    var satisfied := set p | p in pointsSet && CheckTolerance(p, richPoints, poorPoints, tolerance, isRich);
    if forall p :: p in pointsSet ==> CheckTolerance(p, richPoints, poorPoints, tolerance, isRich) {
      assert satisfied == pointsSet;
    }
    if forall p :: p in pointsSet ==> !CheckTolerance(p, richPoints, poorPoints, tolerance, isRich) {
      assert satisfied == {};
    }
  }

  /**
   `calculate_satisfaction(points_set, rich_points, poor_points, tolerance, is_rich)`:
   0 for an empty set, otherwise a percentage between 0 and 100.
   */
  function CalculateSatisfaction(pointsSet: set<Cell>, richPoints: set<Cell>, poorPoints: set<Cell>,
                                 tolerance: real, isRich: bool): (r: int)
    ensures pointsSet == {} ==> r == 0
    ensures 0 <= r <= 100
  {
    if pointsSet == {} then 0
    else
      var satisfied := SatisfiedCount(pointsSet, richPoints, poorPoints, tolerance, isRich);
      RoundHalfEvenBounds(100 * satisfied, |pointsSet|, 100);
      RoundHalfEven(100 * satisfied, |pointsSet|)
  }

  /** A non-empty group that is all satisfied scores 100; one with nobody satisfied scores 0. */
  lemma SatisfactionExtremes(pointsSet: set<Cell>, richPoints: set<Cell>, poorPoints: set<Cell>,
                             tolerance: real, isRich: bool)
    ensures pointsSet != {} && (forall p :: p in pointsSet ==> CheckTolerance(p, richPoints, poorPoints, tolerance, isRich))
        ==> CalculateSatisfaction(pointsSet, richPoints, poorPoints, tolerance, isRich) == 100
    ensures (forall p :: p in pointsSet ==> !CheckTolerance(p, richPoints, poorPoints, tolerance, isRich))
        ==> CalculateSatisfaction(pointsSet, richPoints, poorPoints, tolerance, isRich) == 0
  {
    SatisfiedCountExtremes(pointsSet, richPoints, poorPoints, tolerance, isRich);
    if pointsSet != {} {
      RoundHalfEvenExact(100, |pointsSet|);
      RoundHalfEvenExact(0, |pointsSet|);
    }
  }

  /** The percentage is, to within rounding, 100 times the satisfied share of the group. */
  lemma SatisfactionIsNearestPercentage(pointsSet: set<Cell>, richPoints: set<Cell>, poorPoints: set<Cell>,
                                        tolerance: real, isRich: bool)
    requires pointsSet != {}
    ensures var r := CalculateSatisfaction(pointsSet, richPoints, poorPoints, tolerance, isRich);
      2 * Abs(r * |pointsSet| - 100 * SatisfiedCount(pointsSet, richPoints, poorPoints, tolerance, isRich))
        <= |pointsSet|
  {
    RoundHalfEvenNearest(100 * SatisfiedCount(pointsSet, richPoints, poorPoints, tolerance, isRich), |pointsSet|);
  }
}
