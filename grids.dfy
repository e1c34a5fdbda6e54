/**
 * Grids of integer cells as the game keeps them: Python lists of lists of
 * ints, here sequences of sequences. The 8x8 board and the visual overlay
 * live in two-dimensional arrays while the solver works on them in place;
 * `Snapshot` reads such an array as a value.
 */
module Grids {

  /** A grid of cells; rows may in general have different lengths. */
  type Grid = seq<seq<int>>

  /** Side of the game board. */
  const Size := 8

  /** A grid of exactly 8 rows of 8 cells. */
  predicate Is8x8<T>(g: seq<seq<T>>)
  {
    |g| == Size && forall r :: 0 <= r < Size ==> |g[r]| == Size
  }

  /** The contents of a two-dimensional array as a value, row by row. */
  function Snapshot<T>(a: array2<T>): (s: seq<seq<T>>)
    reads a
    ensures |s| == a.Length0
    ensures forall i :: 0 <= i < a.Length0 ==> |s[i]| == a.Length1
    ensures forall i, j :: 0 <= i < a.Length0 && 0 <= j < a.Length1 ==> s[i][j] == a[i, j]
  {
    seq(a.Length0, i requires 0 <= i < a.Length0 reads a =>
      seq(a.Length1, j requires 0 <= j < a.Length1 reads a => a[i, j]))
  }

  /** Two 8x8 grids that agree cell by cell are equal. */
  lemma SameCells<T>(x: seq<seq<T>>, y: seq<seq<T>>)
    requires Is8x8(x) && Is8x8(y)
    requires forall i, j :: 0 <= i < Size && 0 <= j < Size ==> x[i][j] == y[i][j]
    ensures x == y
  {
    forall i | 0 <= i < Size
      ensures x[i] == y[i]
    {
      assert forall j :: 0 <= j < Size ==> x[i][j] == y[i][j];
    }
  }

  /** `copy.deepcopy` of a board or overlay: a fresh array with the same cells. */
  method Copy<T(0)>(a: array2<T>) returns (c: array2<T>)
    ensures fresh(c)
    ensures c.Length0 == a.Length0 && c.Length1 == a.Length1
    ensures Snapshot(c) == Snapshot(a)
  {
    c := new T[a.Length0, a.Length1];
    forall i, j | 0 <= i < a.Length0 && 0 <= j < a.Length1 {
      c[i, j] := a[i, j];
    }
    assert forall i :: 0 <= i < a.Length0 ==> Snapshot(c)[i] == Snapshot(a)[i];
  }
}
