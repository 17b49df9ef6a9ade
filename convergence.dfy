/**
 Repeated passes, as both drivers run them: the state after a number of passes,
 whether a given pass moved anybody, and why the first pass that moves nobody
 ends the run for good.
 */
module Convergence {
  import opened Grid
  import opened Relocation

  /** The board after `passes` consecutive passes starting from `s`. */
  function After(s: State, passes: nat, toleranceRich: real, tolerancePoor: real, rank: seq<Cell>): State
    decreases passes, 1
  {
    if passes == 0 then s else AfterLast(s, passes, toleranceRich, tolerancePoor, rank)
  }

  /** A positive number of passes: one more pass over the board after one pass fewer. */
  function AfterLast(s: State, passes: nat, toleranceRich: real, tolerancePoor: real, rank: seq<Cell>): State
    requires passes > 0
    decreases passes, 0
  {
    Pass(After(s, passes - 1, toleranceRich, tolerancePoor, rank), toleranceRich, tolerancePoor, rank).0
  }

  /** Pass number `k + 1` is applied to the board after `k` passes. */
  lemma AfterNext(s: State, k: nat, toleranceRich: real, tolerancePoor: real, rank: seq<Cell>)
    ensures After(s, k + 1, toleranceRich, tolerancePoor, rank)
         == Pass(After(s, k, toleranceRich, tolerancePoor, rank), toleranceRich, tolerancePoor, rank).0
  {
  }

  /** Whether pass number `k + 1` (the one applied to `After(s, k, ...)`) moved anybody. */
  predicate MovedAt(s: State, k: nat, toleranceRich: real, tolerancePoor: real, rank: seq<Cell>) {
    Pass(After(s, k, toleranceRich, tolerancePoor, rank), toleranceRich, tolerancePoor, rank).1
  }

  /** Whether each of the first `n` passes from `s` moved somebody. */
  predicate KeptMoving(s: State, n: nat, toleranceRich: real, tolerancePoor: real, rank: seq<Cell>)
    decreases n, 1
  {
    n == 0 || KeptMovingLast(s, n, toleranceRich, tolerancePoor, rank)
  }

  /** A positive number of passes: the ones before the last kept moving, and so did the last. */
  predicate KeptMovingLast(s: State, n: nat, toleranceRich: real, tolerancePoor: real, rank: seq<Cell>)
    requires n > 0
    decreases n, 0
  {
    KeptMoving(s, n - 1, toleranceRich, tolerancePoor, rank) && MovedAt(s, n - 1, toleranceRich, tolerancePoor, rank)
  }

  /** The first `n + 1` passes kept moving exactly when the first `n` did and pass `n + 1` moved somebody. */
  lemma KeptMovingNext(s: State, n: nat, toleranceRich: real, tolerancePoor: real, rank: seq<Cell>)
    ensures KeptMoving(s, n + 1, toleranceRich, tolerancePoor, rank)
        <==> KeptMoving(s, n, toleranceRich, tolerancePoor, rank) && MovedAt(s, n, toleranceRich, tolerancePoor, rank)
  {
  }

  /** `KeptMoving` means that every pass before the `n`-th moved somebody. */
  lemma {:induction false} KeptMovingAt(s: State, n: nat, k: nat, toleranceRich: real, tolerancePoor: real,
                                        rank: seq<Cell>)
    requires KeptMoving(s, n, toleranceRich, tolerancePoor, rank)
    requires k < n
    ensures MovedAt(s, k, toleranceRich, tolerancePoor, rank)
  {
    KeptMovingNext(s, n - 1, toleranceRich, tolerancePoor, rank);
    if k < n - 1 {
      KeptMovingAt(s, n - 1, k, toleranceRich, tolerancePoor, rank);
    }
  }

  /** Every pass keeps the board partitioned (each pass also keeps the sizes: `PassPreserves`). */
  lemma {:induction false} AfterPreserves(s: State, passes: nat, toleranceRich: real, tolerancePoor: real,
                                          rank: seq<Cell>)
    requires Partition(s)
    requires IsRanking(rank)
    ensures Partition(After(s, passes, toleranceRich, tolerancePoor, rank))
  {
    if passes > 0 {
      AfterNext(s, passes - 1, toleranceRich, tolerancePoor, rank);
      AfterPreserves(s, passes - 1, toleranceRich, tolerancePoor, rank);
      PassPreserves(After(s, passes - 1, toleranceRich, tolerancePoor, rank), toleranceRich, tolerancePoor, rank);
    }
  }

  /** A pass reports a move exactly when it changes the board. */
  lemma MovedAtIffChanged(s: State, k: nat, toleranceRich: real, tolerancePoor: real, rank: seq<Cell>)
    requires Partition(s)
    requires IsRanking(rank)
    ensures MovedAt(s, k, toleranceRich, tolerancePoor, rank)
        <==> After(s, k + 1, toleranceRich, tolerancePoor, rank) != After(s, k, toleranceRich, tolerancePoor, rank)
  {
    AfterNext(s, k, toleranceRich, tolerancePoor, rank);
    AfterPreserves(s, k, toleranceRich, tolerancePoor, rank);
    PassPreserves(After(s, k, toleranceRich, tolerancePoor, rank), toleranceRich, tolerancePoor, rank);
  }

  /**
   Once a pass moves nobody, every later pass would find the same board and move
   nobody either: stopping there, as both drivers do, loses nothing.
   */
  lemma {:induction false} StableAfterQuietPass(s: State, k: nat, m: nat, toleranceRich: real, tolerancePoor: real,
                                                rank: seq<Cell>)
    requires Partition(s)
    requires IsRanking(rank)
    requires !MovedAt(s, k, toleranceRich, tolerancePoor, rank)
    requires k <= m
    ensures After(s, m, toleranceRich, tolerancePoor, rank) == After(s, k, toleranceRich, tolerancePoor, rank)
    ensures !MovedAt(s, m, toleranceRich, tolerancePoor, rank)
  {
    if k < m {
      StableAfterQuietPass(s, k, m - 1, toleranceRich, tolerancePoor, rank);
      AfterNext(s, m - 1, toleranceRich, tolerancePoor, rank);
      AfterPreserves(s, k, toleranceRich, tolerancePoor, rank);
      PassFixedPoint(After(s, k, toleranceRich, tolerancePoor, rank), toleranceRich, tolerancePoor, rank);
    }
  }
}
