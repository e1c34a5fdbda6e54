/**
 * The fallback of `make_moves` at work: on an empty board, three 1x1
 * pieces can never complete a line, so all six clear-seeking orderings
 * fail and the solver answers with the fallback search, with no clears.
 */
module Scenarios {
  import opened Wrappers
  import opened Grids
  import opened Engine
  import opened Solver

  /** The 1x1 piece. */
  function Single(): Grid
  {
    [[1]]
  }

  /** The empty 8x8 board. */
  function EmptyBoard(): (b: Grid)
    ensures Is8x8(b)
  {
    seq(Size, _ => seq(Size, _ => 0))
  }

  /** Every filled cell of `b` is one of `cells`. */
  predicate Within(b: Grid, cells: seq<(int, int)>)
    requires Is8x8(b)
  {
    forall i, j :: 0 <= i < Size && 0 <= j < Size && b[i][j] == 1 ==> (i, j) in cells
  }

  /** Four distinct cells do not fit in a list of three. */
  lemma Pigeonhole(cells: seq<(int, int)>, a: (int, int), b: (int, int), c: (int, int), d: (int, int))
    requires |cells| <= 3
    requires a != b && a != c && a != d && b != c && b != d && c != d
    ensures !(a in cells && b in cells && c in cells && d in cells)
  {
    if a in cells && b in cells && c in cells && d in cells {
      var ia :| 0 <= ia < |cells| && cells[ia] == a;
      var ib :| 0 <= ib < |cells| && cells[ib] == b;
      var ic :| 0 <= ic < |cells| && cells[ic] == c;
      var id :| 0 <= id < |cells| && cells[id] == d;
      assert false;
    }
  }

  /** At most three filled cells complete no row and no column: a line needs
      eight. */
  lemma NoFullLine(b: Grid, cells: seq<(int, int)>)
    requires Is8x8(b) && Within(b, cells) && |cells| <= 3
    ensures forall r :: 0 <= r < Size ==> !RowFull(b, r)
    ensures forall c :: 0 <= c < Size ==> !ColFull(b, c)
  {
    forall r | 0 <= r < Size
      ensures !RowFull(b, r)
    {
      Pigeonhole(cells, (r, 0), (r, 1), (r, 2), (r, 3));
    }
    forall c | 0 <= c < Size
      ensures !ColFull(b, c)
    {
      Pigeonhole(cells, (0, c), (1, c), (2, c), (3, c));
    }
  }

  /** With no full line, `check_clear` counts 0 and changes nothing. */
  lemma NothingCleared(b: Grid, cells: seq<(int, int)>)
    requires Is8x8(b) && Within(b, cells) && |cells| <= 3
    ensures ClearCount(b) == 0 && Cleared(b) == b
  {
    NoFullLine(b, cells);
    assert CountFullRows(b, Size) == 0;
    assert CountFullCols(b, Size) == 0;
    ClearCountBounds(b);
  }

  /** The board cell the 1x1 piece fills when anchored at `a`. */
  function Target(a: Anchor): (int, int)
  {
    (a.row - 1, a.col - 1)
  }

  /** Placing the 1x1 piece at an anchor fills the one cell up and to the
      left of it, and nothing else. */
  lemma PlaceSingle(b: Grid, cells: seq<(int, int)>, a: Anchor)
    requires Is8x8(b) && Within(b, cells)
    ensures Within(Place(b, Single(), a.row, a.col), cells + [Target(a)])
  {
    var placed := Place(b, Single(), a.row, a.col);
    forall i, j | 0 <= i < Size && 0 <= j < Size && placed[i][j] == 1
      ensures (i, j) in cells + [Target(a)]
    {
      if Covers(Single(), a.row, a.col, i, j) {
        assert (i, j) == Target(a);
      } else {
        assert b[i][j] == 1;
      }
    }
  }

  /** One trial of the 1x1 piece by `backtrack`: it succeeds exactly when the
      target cell is on the board and not yet filled, adds no clears and
      leaves one more filled cell. */
  lemma StepSingle(s: State, cells: seq<(int, int)>, tag: int, a: Anchor)
    requires ValidState(s) && Within(s.board, cells) && |cells| < 3
    ensures Tried(a) && OnBoard(Target(a).0, Target(a).1) && Target(a) !in cells ==>
      Step(s, Single(), tag, a).Some?
    ensures Step(s, Single(), tag, a).Some? ==>
      Step(s, Single(), tag, a).value.clears == s.clears &&
      Within(Step(s, Single(), tag, a).value.board, cells + [Target(a)])
  {
    if Tried(a) && OnBoard(Target(a).0, Target(a).1) && Target(a) !in cells {
      assert CellFits(s.board, Single(), a.row, a.col, 0, 0);
      assert CanPlace(s.board, Single(), a.row, a.col);
    }
    if Step(s, Single(), tag, a).Some? {
      var placed := Place(s.board, Single(), a.row, a.col);
      PlaceSingle(s.board, cells, a);
      NothingCleared(placed, cells + [Target(a)]);
    }
  }

  /** Three 1x1 pieces in a row. */
  predicate AllSingles(tiles: seq<Grid>)
  {
    forall k :: 0 <= k < |tiles| ==> tiles[k] == Single()
  }

  /** Placing 1x1 pieces never clears anything while at most three cells
      are filled. */
  lemma {:induction false} RunSingles(s: State, tiles: seq<Grid>, depth: nat, anchors: seq<Anchor>,
                                      cells: seq<(int, int)>)
    requires ValidState(s) && depth + |anchors| <= Blocks <= |tiles| && AllSingles(tiles)
    requires Within(s.board, cells) && |cells| + |anchors| <= 3
    ensures Run(s, tiles, depth, anchors).Some? ==> Run(s, tiles, depth, anchors).value.clears == s.clears
    decreases |anchors|
  {
    if |anchors| > 0 {
      var a := anchors[0];
      assert tiles[depth] == Single();
      StepSingle(s, cells, depth, a);
      var step := Step(s, tiles[depth], depth, a);
      if step.Some? {
        RunSingles(step.value, tiles, depth + 1, anchors[1..], cells + [Target(a)]);
      }
    }
  }

  /** No ordering of three 1x1 pieces on the empty board reaches one clear. */
  lemma NoClearingOrder(tiles: seq<Grid>, i: nat, anchors: seq<Anchor>)
    requires |tiles| == Blocks && AllSingles(tiles) && i < 6
    ensures !Accepts(Start(EmptyBoard()), Ordering(tiles, i), 0, anchors, true, 1)
  {
    var ordered := Ordering(tiles, i);
    assert AllSingles(ordered);
    if |anchors| <= Blocks {
      RunSingles(Start(EmptyBoard()), ordered, 0, anchors, []);
    }
  }

  /** The 1x1 piece placed on a free cell: the state the step leads to. */
  lemma SingleFits(s: State, tiles: seq<Grid>, depth: nat, cells: seq<(int, int)>, a: Anchor)
    returns (next: State)
    requires ValidState(s) && depth < Blocks <= |tiles| && AllSingles(tiles)
    requires Within(s.board, cells) && |cells| < 3
    requires Tried(a) && OnBoard(Target(a).0, Target(a).1) && Target(a) !in cells
    ensures Step(s, tiles[depth], depth, a) == Some(next)
    ensures ValidState(next) && Within(next.board, cells + [Target(a)])
  {
    assert tiles[depth] == Single();
    StepSingle(s, cells, depth, a);
    next := Step(s, tiles[depth], depth, a).value;
  }

  /** The first anchor's step leads to a state from which the rest are
      accepted. */
  lemma AcceptedAfter(s: State, tiles: seq<Grid>, depth: nat, anchors: seq<Anchor>, next: State)
    requires ValidState(s) && depth < Blocks <= |tiles| && |anchors| > 0
    requires Step(s, tiles[depth], depth, anchors[0]) == Some(next)
    requires Accepts(next, tiles, depth + 1, anchors[1..], false, 1)
    ensures Accepts(s, tiles, depth, anchors, false, 1)
  {
    AcceptsStep(s, tiles, depth, anchors, false, 1);
  }

  /** With (0, 0) and (0, 1) filled, the third 1x1 piece fits at anchor
      (1, 3), which fills cell (0, 2). */
  lemma LastSingleFits(s2: State, tiles: seq<Grid>)
    requires ValidState(s2) && Within(s2.board, [(0, 0), (0, 1)])
    requires |tiles| == Blocks && AllSingles(tiles)
    ensures Accepts(s2, tiles, 2, [Anchor(1, 3)], false, 1)
  {
    var s3 := SingleFits(s2, tiles, 2, [(0, 0), (0, 1)], Anchor(1, 3));
    var last := [Anchor(1, 3)];
    assert Accepts(s3, tiles, 3, last[1..], false, 1);
    AcceptedAfter(s2, tiles, 2, last, s3);
  }

  /** With (0, 0) filled, the last two 1x1 pieces go at (1, 2) and (1, 3). */
  lemma TwoSinglesFit(s1: State, tiles: seq<Grid>)
    requires ValidState(s1) && Within(s1.board, [(0, 0)])
    requires |tiles| == Blocks && AllSingles(tiles)
    ensures Accepts(s1, tiles, 1, [Anchor(1, 2), Anchor(1, 3)], false, 1)
  {
    var s2 := SingleFits(s1, tiles, 1, [(0, 0)], Anchor(1, 2));
    LastSingleFits(s2, tiles);
    var two := [Anchor(1, 2), Anchor(1, 3)];
    assert two[1..] == [Anchor(1, 3)];
    AcceptedAfter(s1, tiles, 1, two, s2);
  }

  /** On a board with nothing filled, the 1x1 pieces anchored at (1, 1),
      (1, 2) and (1, 3) are all placed. */
  lemma ThreeSinglesFit(s0: State, tiles: seq<Grid>)
    requires ValidState(s0) && Within(s0.board, [])
    requires |tiles| == Blocks && AllSingles(tiles)
    ensures Accepts(s0, tiles, 0, [Anchor(1, 1), Anchor(1, 2), Anchor(1, 3)], false, 1)
  {
    var s1 := SingleFits(s0, tiles, 0, [], Anchor(1, 1));
    TwoSinglesFit(s1, tiles);
    var three := [Anchor(1, 1), Anchor(1, 2), Anchor(1, 3)];
    assert three[1..] == [Anchor(1, 2), Anchor(1, 3)];
    AcceptedAfter(s0, tiles, 0, three, s1);
  }

  lemma EmptyWithin()
    ensures Within(EmptyBoard(), [])
  {
  }

  /** The fallback search places the three 1x1 pieces at (0, 0), (0, 1)
      and (0, 2). */
  lemma FallbackAccepts(tiles: seq<Grid>)
    requires |tiles| == Blocks && AllSingles(tiles)
    ensures Accepts(Start(EmptyBoard()), tiles, 0, [Anchor(1, 1), Anchor(1, 2), Anchor(1, 3)], false, 1)
  {
    EmptyWithin();
    ThreeSinglesFit(Start(EmptyBoard()), tiles);
  }

  /** No clear-seeking ordering succeeds, so `make_moves` returns what the
      fallback search finds. */
  lemma FallbackUsed(tiles: seq<Grid>)
    requires |tiles| == Blocks && AllSingles(tiles)
    ensures forall i, a :: 0 <= i < 6 ==> !Accepts(Start(EmptyBoard()), Ordering(tiles, i), 0, a, true, 1)
    ensures Solve(EmptyBoard(), tiles, 1) == Search(Start(EmptyBoard()), tiles, 0, false, 1)
  {
    forall i, a | 0 <= i < 6
      ensures !Accepts(Start(EmptyBoard()), Ordering(tiles, i), 0, a, true, 1)
    {
      NoClearingOrder(tiles, i, a);
    }
    var used := SolvePicks(EmptyBoard(), tiles, 1);
    if used < 6 {
      var a := SearchSound(Start(EmptyBoard()), Ordering(tiles, used), 0, true, 1);
      assert false;
    }
  }

  /** The fallback search succeeds, with no clears. */
  lemma FallbackFinds(tiles: seq<Grid>)
    requires |tiles| == Blocks && AllSingles(tiles)
    ensures Search(Start(EmptyBoard()), tiles, 0, false, 1).Some?
    ensures Search(Start(EmptyBoard()), tiles, 0, false, 1).value.clears == 0
  {
    FallbackAccepts(tiles);
    SearchComplete(Start(EmptyBoard()), tiles, 0, false, 1, [Anchor(1, 1), Anchor(1, 2), Anchor(1, 3)]);
    var a := SearchSound(Start(EmptyBoard()), tiles, 0, false, 1);
    EmptyWithin();
    RunSingles(Start(EmptyBoard()), tiles, 0, a, []);
  }

  /** Empty board, three 1x1 pieces and a requirement of one clear: the six
      clear-seeking orderings all fail, and `make_moves` answers with the
      fallback search, which succeeds with no clears. */
  lemma FallbackScenario(tiles: seq<Grid>)
    requires |tiles| == Blocks && AllSingles(tiles)
    ensures forall i, a :: 0 <= i < 6 ==> !Accepts(Start(EmptyBoard()), Ordering(tiles, i), 0, a, true, 1)
    ensures Solve(EmptyBoard(), tiles, 1) == Search(Start(EmptyBoard()), tiles, 0, false, 1)
    ensures Solve(EmptyBoard(), tiles, 1).Some? && Solve(EmptyBoard(), tiles, 1).value.clears == 0
  {
    FallbackUsed(tiles);
    FallbackFinds(tiles);
  }
}
