/**
 * The board primitives of the solver: the line-clear engine (`check_clear`)
 * and the placement validator (`add_tile`).
 *
 * Each operation is specified by a pure function of the old board
 * (`Cleared`, `ClearCount`, `CanPlace`, `Place`, `Paint`); the methods work on
 * the board array in place, as the game does, and promise to match them.
 */
module Engine {
  import opened Grids

  /** The visual overlay, one set of piece indices per cell: piece k has
      painted the cell iff its colour channel k holds 255. */
  type Tags = seq<seq<set<int>>>

  // ---------------------------------------------------------------------
  // Line clearing
  // ---------------------------------------------------------------------

  /** The fullness test applied to a row or a column: its cells form the
      one-element set {1} (`len(set(line)) == 1 and line[0] == 1`). */
  predicate IsFullLine(line: seq<int>)
    requires |line| > 0
  {
    |set x | x in line| == 1 && line[0] == 1
  }

  /** The set-based test is the same as "every cell is 1". */
  lemma FullLineIff(line: seq<int>)
    requires |line| > 0
    ensures IsFullLine(line) <==> forall k :: 0 <= k < |line| ==> line[k] == 1
  {
    var cells := set x | x in line;
    assert line[0] in cells;
    if forall k :: 0 <= k < |line| ==> line[k] == 1 {
      assert cells == {1};
    }
    if IsFullLine(line) {
      var rest := cells - {line[0]};
      assert |rest| == 0;
      assert rest == {};
      forall k | 0 <= k < |line|
        ensures line[k] == 1
      {
        assert line[k] in cells && line[k] !in rest;
      }
    }
  }

  /** Column n of `zip(*board[::-1])`: the board's column n read bottom-up. */
  function TransposedColumn(b: Grid, n: nat): (column: seq<int>)
    requires Is8x8(b) && n < Size
  {
    seq(Size, m requires 0 <= m < Size => b[Size - 1 - m][n])
  }

  predicate RowFull(b: Grid, r: int)
    requires Is8x8(b) && 0 <= r < Size
  {
    forall c :: 0 <= c < Size ==> b[r][c] == 1
  }

  predicate ColFull(b: Grid, c: int)
    requires Is8x8(b) && 0 <= c < Size
  {
    forall r :: 0 <= r < Size ==> b[r][c] == 1
  }

  /** The set-based test on a row is RowFull. */
  lemma RowLineFull(b: Grid, n: nat)
    requires Is8x8(b) && n < Size
    ensures IsFullLine(b[n]) <==> RowFull(b, n)
  {
    FullLineIff(b[n]);
  }

  /** Reading the column bottom-up does not change whether it is full. */
  lemma TransposedColumnFull(b: Grid, n: nat)
    requires Is8x8(b) && n < Size
    ensures IsFullLine(TransposedColumn(b, n)) <==> ColFull(b, n)
  {
    var column := TransposedColumn(b, n);
    FullLineIff(column);
    if forall k :: 0 <= k < Size ==> column[k] == 1 {
      forall r | 0 <= r < Size
        ensures b[r][n] == 1
      {
        assert column[Size - 1 - r] == b[r][n];
      }
    }
  }

  /** The board after clearing every row and every column that is full in
      `b`; both kinds of line are judged on `b` itself. */
  function Cleared(b: Grid): (r: Grid)
    requires Is8x8(b)
    ensures Is8x8(r)
  {
    seq(Size, i requires 0 <= i < Size =>
      seq(Size, j requires 0 <= j < Size =>
        if RowFull(b, i) || ColFull(b, j) then 0 else b[i][j]))
  }

  /** Number of full rows among rows 0 .. n-1. */
  function CountFullRows(b: Grid, n: nat): (count: nat)
    requires Is8x8(b) && n <= Size
    ensures count <= n
    ensures count == 0 <==> forall r :: 0 <= r < n ==> !RowFull(b, r)
  {
    if n == 0 then 0
    else CountFullRows(b, n - 1) + (if RowFull(b, n - 1) then 1 else 0)
  }

  /** Number of full columns among columns 0 .. n-1. */
  function CountFullCols(b: Grid, n: nat): (count: nat)
    requires Is8x8(b) && n <= Size
    ensures count <= n
    ensures count == 0 <==> forall c :: 0 <= c < n ==> !ColFull(b, c)
  {
    if n == 0 then 0
    else CountFullCols(b, n - 1) + (if ColFull(b, n - 1) then 1 else 0)
  }

  function FullRows(b: Grid): nat
    requires Is8x8(b)
  {
    CountFullRows(b, Size)
  }

  function FullCols(b: Grid): nat
    requires Is8x8(b)
  {
    CountFullCols(b, Size)
  }

  /** The count `check_clear` returns: one per full row, but one per CELL of
      each full column, because its increment sits in the per-cell loop. */
  function ClearCount(b: Grid): nat
    requires Is8x8(b)
  {
    FullRows(b) + Size * FullCols(b)
  }

  /** One unit per cleared line, rows and columns alike. */
  function LinesCleared(b: Grid): nat
    requires Is8x8(b)
  {
    FullRows(b) + FullCols(b)
  }

  /** The board holds the snapshot with its full rows below `rows` and its
      full columns left of `cols` zeroed. */
  ghost predicate ClearedSoFar(board: array2<int>, snapshot: Grid, rows: int, cols: int)
    requires board.Length0 == Size && board.Length1 == Size && Is8x8(snapshot)
    reads board
  {
    forall i, j :: 0 <= i < Size && 0 <= j < Size ==>
      board[i, j] == if (i < rows && RowFull(snapshot, i)) || (j < cols && ColFull(snapshot, j))
                     then 0 else snapshot[i][j]
  }

  /** The inner loop of the column pass: zeroes column n cell by cell and
      counts one per cell. */
  method ClearColumn(board: array2<int>, n: int, ghost snapshot: Grid) returns (cells: int)
    requires board.Length0 == Size && board.Length1 == Size && 0 <= n < Size && Is8x8(snapshot)
    requires ClearedSoFar(board, snapshot, Size, n) && ColFull(snapshot, n)
    modifies board
    ensures cells == Size
    ensures forall i, j :: 0 <= i < Size && 0 <= j < Size ==>
      board[i, j] == if j == n then 0 else old(board[i, j])
    ensures ClearedSoFar(board, snapshot, Size, n + 1)
  {
    cells := 0;
    for m := 0 to Size
      invariant cells == m
      invariant forall i, j :: 0 <= i < Size && 0 <= j < Size ==>
        board[i, j] == if j == n && i < m then 0 else old(board[i, j])
    {
      board[m, n] := 0;
      cells := cells + 1;
    }
  }

  /** The assignment `board[n] = [0 for _ in range(8)]` of the row pass. */
  method ZeroRow(board: array2<int>, n: int, ghost snapshot: Grid)
    requires board.Length0 == Size && board.Length1 == Size && 0 <= n < Size && Is8x8(snapshot)
    requires ClearedSoFar(board, snapshot, n, 0) && RowFull(snapshot, n)
    modifies board
    ensures forall i, j :: 0 <= i < Size && 0 <= j < Size ==>
      board[i, j] == if i == n then 0 else old(board[i, j])
    ensures ClearedSoFar(board, snapshot, n + 1, 0)
  {
    forall k | 0 <= k < Size {
      board[n, k] := 0;
    }
  }

  /** A row that is not full leaves the board as the row pass wants it. */
  lemma SkipRow(board: array2<int>, snapshot: Grid, n: int)
    requires board.Length0 == Size && board.Length1 == Size && 0 <= n < Size && Is8x8(snapshot)
    requires ClearedSoFar(board, snapshot, n, 0) && !RowFull(snapshot, n)
    ensures ClearedSoFar(board, snapshot, n + 1, 0)
  {
  }

  /** A column that is not full leaves the board as the column pass wants it. */
  lemma SkipColumn(board: array2<int>, snapshot: Grid, n: int)
    requires board.Length0 == Size && board.Length1 == Size && 0 <= n < Size && Is8x8(snapshot)
    requires ClearedSoFar(board, snapshot, Size, n) && !ColFull(snapshot, n)
    ensures ClearedSoFar(board, snapshot, Size, n + 1)
  {
  }

  /** Once both passes are done the board holds the cleared snapshot. */
  lemma ClearedSoFarDone(board: array2<int>, snapshot: Grid)
    requires board.Length0 == Size && board.Length1 == Size && Is8x8(snapshot)
    requires ClearedSoFar(board, snapshot, Size, Size)
    ensures Snapshot(board) == Cleared(snapshot)
  {
    SameCells(Snapshot(board), Cleared(snapshot));
  }

  /** `check_clear`: clears, in place, every row and column that is full in a
      snapshot taken on entry, and returns the same board with the count. */
  method CheckClear(board: array2<int>) returns (result: array2<int>, count: int)
    requires board.Length0 == Size && board.Length1 == Size
    modifies board
    ensures result == board
    ensures Snapshot(board) == Cleared(old(Snapshot(board)))
    ensures count == ClearCount(old(Snapshot(board)))
  {
    var snapshot := Snapshot(board);
    count := 0;
    for n := 0 to Size
      invariant count == CountFullRows(snapshot, n)
      invariant ClearedSoFar(board, snapshot, n, 0)
    {
      RowLineFull(snapshot, n);
      if IsFullLine(snapshot[n]) {
        ZeroRow(board, n, snapshot);
        count := count + 1;
      } else {
        SkipRow(board, snapshot, n);
      }
    }
    for n := 0 to Size
      invariant count == FullRows(snapshot) + Size * CountFullCols(snapshot, n)
      invariant ClearedSoFar(board, snapshot, Size, n)
    {
      TransposedColumnFull(snapshot, n);
      if IsFullLine(TransposedColumn(snapshot, n)) {
        var cleared := ClearColumn(board, n, snapshot);
        count := count + cleared;
      } else {
        SkipColumn(board, snapshot, n);
      }
    }
    result := board;
    ClearedSoFarDone(board, snapshot);
  }

  /** The count is bounded by 8 rows plus 8 columns of 8 cells, and it is zero
      exactly when the clear changes nothing. */
  lemma ClearCountBounds(b: Grid)
    requires Is8x8(b)
    ensures ClearCount(b) <= 72
    ensures ClearCount(b) == 0 <==> Cleared(b) == b
  {
    if ClearCount(b) == 0 {
      SameCells(Cleared(b), b);
    } else if FullRows(b) != 0 {
      var r :| 0 <= r < Size && RowFull(b, r);
      assert Cleared(b)[r][0] != b[r][0];
    } else {
      var c :| 0 <= c < Size && ColFull(b, c);
      assert Cleared(b)[0][c] != b[0][c];
    }
  }

  /** No full row or column survives a clear. */
  lemma ClearedHasNoFullLine(b: Grid)
    requires Is8x8(b)
    ensures forall r :: 0 <= r < Size ==> !RowFull(Cleared(b), r)
    ensures forall c :: 0 <= c < Size ==> !ColFull(Cleared(b), c)
  {
    var after := Cleared(b);
    forall r | 0 <= r < Size
      ensures !RowFull(after, r)
    {
      if RowFull(b, r) {
        assert after[r][0] == 0;
      } else {
        var c :| 0 <= c < Size && b[r][c] != 1;
        assert after[r][c] != 1;
      }
    }
    forall c | 0 <= c < Size
      ensures !ColFull(after, c)
    {
      if ColFull(b, c) {
        assert after[0][c] == 0;
      } else {
        var r :| 0 <= r < Size && b[r][c] != 1;
        assert after[r][c] != 1;
      }
    }
  }

  /** A second `check_clear` right after the first clears nothing and
      returns 0. */
  lemma ClearIdempotent(b: Grid)
    requires Is8x8(b)
    ensures Cleared(Cleared(b)) == Cleared(b)
    ensures ClearCount(Cleared(b)) == 0
  {
    ClearedHasNoFullLine(b);
    ClearCountBounds(Cleared(b));
  }

  /** A full row and a full column that cross are both detected on the same
      snapshot: both are emptied, and both are counted. */
  lemma CrossingLinesBothCleared(b: Grid, r: int, c: int)
    requires Is8x8(b) && 0 <= r < Size && 0 <= c < Size
    requires RowFull(b, r) && ColFull(b, c)
    ensures forall k :: 0 <= k < Size ==> Cleared(b)[r][k] == 0 && Cleared(b)[k][c] == 0
    ensures FullRows(b) >= 1 && FullCols(b) >= 1
    ensures ClearCount(b) >= 1 + Size && LinesCleared(b) >= 2
  {
    assert !(forall i :: 0 <= i < Size ==> !RowFull(b, i));
    assert !(forall j :: 0 <= j < Size ==> !ColFull(b, j));
  }

  /** The count as written against the per-line count: they agree when no
      column is full, and always agree on whether anything was cleared. */
  lemma ClearCountVersusLines(b: Grid)
    requires Is8x8(b)
    ensures LinesCleared(b) <= ClearCount(b) <= Size * LinesCleared(b)
    ensures ClearCount(b) == LinesCleared(b) <==> FullCols(b) == 0
    ensures ClearCount(b) >= 1 <==> LinesCleared(b) >= 1
  {
  }

  // ---------------------------------------------------------------------
  // Placement
  // ---------------------------------------------------------------------

  /** Inside the board, as `add_tile` checks it: neither below 0 nor above 7. */
  predicate OnBoard(i: int, j: int)
  {
    !(i < 0 || i > Size - 1 || j < 0 || j > Size - 1)
  }

  /** Block cell (p, q) of a block anchored at (row, col) passes the dry run:
      it maps onto the board, and if occupied it does not land on a 1. */
  predicate CellFits(b: Grid, block: Grid, row: int, col: int, p: int, q: int)
    requires Is8x8(b) && 0 <= p < |block| && 0 <= q < |block[p]|
  {
    OnBoard(row + p - 1, col + q - 1) &&
    !(b[row + p - 1][col + q - 1] == 1 && block[p][q] == 1)
  }

  /** The dry run of `add_tile`: every cell of the block rectangle, occupied
      or not, passes. */
  predicate CanPlace(b: Grid, block: Grid, row: int, col: int)
    requires Is8x8(b)
  {
    forall p, q :: 0 <= p < |block| && 0 <= q < |block[p]| ==> CellFits(b, block, row, col, p, q)
  }

  /** Board cell (i, j) is the image of an occupied block cell: block cell
      (p, q) lands on (row + p - 1, col + q - 1). */
  predicate Covers(block: Grid, row: int, col: int, i: int, j: int)
  {
    var p, q := i - row + 1, j - col + 1;
    0 <= p < |block| && 0 <= q < |block[p]| && block[p][q] == 1
  }

  /** The board after writing 1 on every cell covered by the block. */
  function Place(b: Grid, block: Grid, row: int, col: int): (r: Grid)
    requires Is8x8(b)
    ensures Is8x8(r)
  {
    seq(Size, i requires 0 <= i < Size =>
      seq(Size, j requires 0 <= j < Size =>
        if Covers(block, row, col, i, j) then 1 else b[i][j]))
  }

  /** The overlay of one painted cell: reset first for a human placement,
      then channel `tag` set unless the tag is -1. */
  function Retag(cell: set<int>, tag: int, isHuman: bool): set<int>
  {
    (if isHuman then {} else cell) + (if tag != -1 then {tag} else {})
  }

  /** The overlay after `add_tile` paints the cells it fills. */
  function Paint(o: Tags, block: Grid, row: int, col: int, tag: int, isHuman: bool): (r: Tags)
    requires Is8x8(o)
    ensures Is8x8(r)
  {
    seq(Size, i requires 0 <= i < Size =>
      seq(Size, j requires 0 <= j < Size =>
        if Covers(block, row, col, i, j) then Retag(o[i][j], tag, isHuman) else o[i][j]))
  }

  /** Covered by block cells strictly before (p, q) in row-major order. */
  predicate CoveredBefore(block: Grid, row: int, col: int, i: int, j: int, p: int, q: int)
  {
    Covers(block, row, col, i, j) &&
    (i - row + 1 < p || (i - row + 1 == p && j - col + 1 < q))
  }

  /** The dry run has passed every block cell before (p, q) in row-major order. */
  ghost predicate CheckedSoFar(b: Grid, block: Grid, row: int, col: int, p: int, q: int)
    requires Is8x8(b)
  {
    (forall p', q' :: 0 <= p' < p && p' < |block| && 0 <= q' < |block[p']| ==>
       CellFits(b, block, row, col, p', q')) &&
    (0 <= p < |block| ==> forall q' :: 0 <= q' < q && q' < |block[p]| ==> CellFits(b, block, row, col, p, q'))
  }

  /** The board and overlay hold the images of the block cells before (p, q)
      written over the old contents b0 and o0. */
  ghost predicate PlacedSoFar(board: array2<int>, overlay: array2<set<int>>, b0: Grid, o0: Tags,
                              block: Grid, row: int, col: int, tag: int, isHuman: bool, p: int, q: int)
    requires board.Length0 == Size && board.Length1 == Size
    requires overlay.Length0 == Size && overlay.Length1 == Size
    requires Is8x8(b0) && Is8x8(o0)
    reads board, overlay
  {
    (forall i, j {:trigger board[i, j]} :: 0 <= i < Size && 0 <= j < Size ==>
      board[i, j] == if CoveredBefore(block, row, col, i, j, p, q) then 1 else b0[i][j]) &&
    (forall i, j {:trigger overlay[i, j]} :: 0 <= i < Size && 0 <= j < Size ==>
      overlay[i, j] == if CoveredBefore(block, row, col, i, j, p, q) then Retag(o0[i][j], tag, isHuman) else o0[i][j])
  }

  /** Once every block row is done, the board and overlay are Place and Paint
      of the old contents. */
  lemma PlacedAll(board: array2<int>, overlay: array2<set<int>>, b0: Grid, o0: Tags,
                  block: Grid, row: int, col: int, tag: int, isHuman: bool)
    requires board.Length0 == Size && board.Length1 == Size
    requires overlay.Length0 == Size && overlay.Length1 == Size
    requires Is8x8(b0) && Is8x8(o0)
    requires PlacedSoFar(board, overlay, b0, o0, block, row, col, tag, isHuman, |block|, 0)
    ensures Snapshot(board) == Place(b0, block, row, col)
    ensures Snapshot(overlay) == Paint(o0, block, row, col, tag, isHuman)
  {
    SameCells(Snapshot(board), Place(b0, block, row, col));
    SameCells(Snapshot(overlay), Paint(o0, block, row, col, tag, isHuman));
  }

  /** Finishing block row p is starting block row p + 1. */
  lemma CoveredBeforeNextRow(block: Grid, row: int, col: int, p: int)
    requires 0 <= p < |block|
    ensures forall i, j :: CoveredBefore(block, row, col, i, j, p, |block[p]|) <==>
                           CoveredBefore(block, row, col, i, j, p + 1, 0)
  {
  }

  /** Passing block cell (p, q) adds its image, if it is occupied. */
  lemma CoveredBeforeNextCell(block: Grid, row: int, col: int, p: int, q: int)
    requires 0 <= p < |block| && 0 <= q < |block[p]|
    ensures forall i, j :: CoveredBefore(block, row, col, i, j, p, q + 1) <==>
      CoveredBefore(block, row, col, i, j, p, q) || (block[p][q] == 1 && i == row + p - 1 && j == col + q - 1)
  {
  }

  /** The body of `add_tile`'s writing loop for one occupied block cell:
      the board cell becomes 1 and the overlay cell is retagged. */
  method PlaceCell(board: array2<int>, overlay: array2<set<int>>, placeRow: int, placeCol: int,
                   currentBlock: int, isHuman: bool)
    requires board.Length0 == Size && board.Length1 == Size
    requires overlay.Length0 == Size && overlay.Length1 == Size
    requires 0 <= placeRow < Size && 0 <= placeCol < Size
    modifies board, overlay
    ensures board[placeRow, placeCol] == 1
    ensures overlay[placeRow, placeCol] == Retag(old(overlay[placeRow, placeCol]), currentBlock, isHuman)
    ensures forall i, j :: 0 <= i < Size && 0 <= j < Size && (i != placeRow || j != placeCol) ==>
      board[i, j] == old(board[i, j]) && overlay[i, j] == old(overlay[i, j])
  {
    board[placeRow, placeCol] := 1;
    if isHuman {
      overlay[placeRow, placeCol] := {};
    }
    if currentBlock != -1 {
      overlay[placeRow, placeCol] := overlay[placeRow, placeCol] + {currentBlock};
    }
  }

  /** The writing phase of `add_tile`, run once the dry run has passed:
      every occupied block cell's image becomes 1 and its overlay cell is
      retagged. */
  method WriteBlock(board: array2<int>, block: Grid, row: int, col: int,
                    overlay: array2<set<int>>, currentBlock: int, isHuman: bool)
    requires board.Length0 == Size && board.Length1 == Size
    requires overlay.Length0 == Size && overlay.Length1 == Size
    requires CanPlace(Snapshot(board), block, row, col)
    modifies board, overlay
    ensures Snapshot(board) == Place(old(Snapshot(board)), block, row, col)
    ensures Snapshot(overlay) == Paint(old(Snapshot(overlay)), block, row, col, currentBlock, isHuman)
  {
    ghost var b0 := Snapshot(board);
    ghost var o0 := Snapshot(overlay);
    for p := 0 to |block|
      invariant PlacedSoFar(board, overlay, b0, o0, block, row, col, currentBlock, isHuman, p, 0)
    {
      for q := 0 to |block[p]|
        invariant PlacedSoFar(board, overlay, b0, o0, block, row, col, currentBlock, isHuman, p, q)
      {
        CoveredBeforeNextCell(block, row, col, p, q);
        if block[p][q] == 1 {
          assert CellFits(b0, block, row, col, p, q);
          PlaceCell(board, overlay, row + p - 1, col + q - 1, currentBlock, isHuman);
        }
      }
      CoveredBeforeNextRow(block, row, col, p);
    }
    PlacedAll(board, overlay, b0, o0, block, row, col, currentBlock, isHuman);
  }

  /** `add_tile`: checks the whole block rectangle first and changes nothing
      if any cell fails; otherwise writes 1 on every occupied cell's image and
      paints the overlay there. Returns the same board object. */
  method AddTile(board: array2<int>, block: Grid, row: int, col: int,
                 overlay: array2<set<int>>, currentBlock: int, isHuman: bool)
    returns (ok: bool, result: array2<int>)
    requires board.Length0 == Size && board.Length1 == Size
    requires overlay.Length0 == Size && overlay.Length1 == Size
    requires -1 <= currentBlock <= 2
    modifies board, overlay
    ensures result == board
    ensures ok == CanPlace(old(Snapshot(board)), block, row, col)
    ensures Snapshot(board) ==
      if ok then Place(old(Snapshot(board)), block, row, col) else old(Snapshot(board))
    ensures Snapshot(overlay) ==
      if ok then Paint(old(Snapshot(overlay)), block, row, col, currentBlock, isHuman)
      else old(Snapshot(overlay))
  {
    ghost var b0 := Snapshot(board);
    ghost var o0 := Snapshot(overlay);
    result := board;
    for p := 0 to |block|
      invariant CheckedSoFar(b0, block, row, col, p, 0)
    {
      for q := 0 to |block[p]|
        invariant CheckedSoFar(b0, block, row, col, p, q)
      {
        if row + p - 1 < 0 || row + p - 1 > 7 || col + q - 1 < 0 || col + q - 1 > 7 {
          assert !CellFits(b0, block, row, col, p, q);
          return false, board;
        }
        if board[row + p - 1, col + q - 1] == 1 && block[p][q] == 1 {
          assert !CellFits(b0, block, row, col, p, q);
          return false, board;
        }
      }
    }
    assert CanPlace(b0, block, row, col);
    WriteBlock(board, block, row, col, overlay, currentBlock, isHuman);
    ok := true;
  }

  /** The filled cells of a board, as coordinates. */
  function Filled(b: Grid): set<(int, int)>
    requires Is8x8(b)
  {
    set i, j | 0 <= i < Size && 0 <= j < Size && b[i][j] == 1 :: (i, j)
  }

  /** The images of a block's occupied cells for anchor (row, col). */
  function Image(block: Grid, row: int, col: int): set<(int, int)>
  {
    set p, q | 0 <= p < |block| && 0 <= q < |block[p]| && block[p][q] == 1 :: (row + p - 1, col + q - 1)
  }

  /** A successful placement adds exactly the block's image to the filled
      cells, and that image lay on the board and was not filled before. */
  lemma PlaceAddsImage(b: Grid, block: Grid, row: int, col: int)
    requires Is8x8(b) && CanPlace(b, block, row, col)
    ensures Filled(Place(b, block, row, col)) == Filled(b) + Image(block, row, col)
    ensures Filled(b) !! Image(block, row, col)
    ensures forall cell :: cell in Image(block, row, col) ==> OnBoard(cell.0, cell.1)
  {
    var after := Place(b, block, row, col);
    forall cell | cell in Image(block, row, col)
      ensures OnBoard(cell.0, cell.1) && cell !in Filled(b) && cell in Filled(after)
    {
      var p, q :| 0 <= p < |block| && 0 <= q < |block[p]| && block[p][q] == 1 &&
                  cell == (row + p - 1, col + q - 1);
      assert CellFits(b, block, row, col, p, q);
      assert Covers(block, row, col, cell.0, cell.1);
    }
    forall cell | cell in Filled(after)
      ensures cell in Filled(b) + Image(block, row, col)
    {
      var (i, j) := cell;
      if Covers(block, row, col, i, j) {
        var p, q := i - row + 1, j - col + 1;
        assert (row + p - 1, col + q - 1) in Image(block, row, col);
      } else {
        assert b[i][j] == 1;
      }
    }
    forall cell | cell in Filled(b)
      ensures cell in Filled(after)
    {
      var (i, j) := cell;
      assert after[i][j] == 1;
    }
  }

  /** When row 0 is the only full line, `check_clear` counts 1. */
  lemma OnlyRowZeroCleared(b: Grid)
    requires Is8x8(b)
    requires RowFull(b, 0) && forall i :: 1 <= i < Size ==> !RowFull(b, i)
    requires forall c :: 0 <= c < Size ==> !ColFull(b, c)
    ensures ClearCount(b) == 1
  {
    OnlyRowZeroCounted(b, Size);
  }

  /** The board row 0 filled in columns 1-7 and empty elsewhere. */
  function RowZeroGap(): (b: Grid)
    ensures Is8x8(b)
  {
    seq(Size, i requires 0 <= i < Size =>
      seq(Size, j requires 0 <= j < Size => if i == 0 && j > 0 then 1 else 0))
  }

  /** Exactly row 0 of the board is full. */
  lemma OnlyRowZeroCounted(b: Grid, n: nat)
    requires Is8x8(b) && 1 <= n <= Size
    requires RowFull(b, 0) && forall i :: 1 <= i < Size ==> !RowFull(b, i)
    ensures CountFullRows(b, n) == 1
  {
    if n > 1 {
      OnlyRowZeroCounted(b, n - 1);
    }
  }

  /** The board with row 0 full and everything else empty. */
  function TopRowFull(): (b: Grid)
    ensures Is8x8(b)
  {
    seq(Size, i requires 0 <= i < Size => seq(Size, j requires 0 <= j < Size => if i == 0 then 1 else 0))
  }

  /** Filling cell (0, 0) of RowZeroGap gives TopRowFull. */
  lemma FillGap()
    ensures CanPlace(RowZeroGap(), [[1]], 1, 1)
    ensures Place(RowZeroGap(), [[1]], 1, 1) == TopRowFull()
  {
    var b := RowZeroGap();
    assert CellFits(b, [[1]], 1, 1, 0, 0);
    var placed := Place(b, [[1]], 1, 1);
    forall i, j | 0 <= i < Size && 0 <= j < Size
      ensures placed[i][j] == TopRowFull()[i][j]
    {
      assert Covers([[1]], 1, 1, i, j) <==> i == 0 && j == 0;
    }
    SameCells(placed, TopRowFull());
  }

  /** In TopRowFull, row 0 is the only full line. */
  lemma TopRowLines()
    ensures RowFull(TopRowFull(), 0)
    ensures forall i :: 1 <= i < Size ==> !RowFull(TopRowFull(), i)
    ensures forall c :: 0 <= c < Size ==> !ColFull(TopRowFull(), c)
  {
    var b := TopRowFull();
    forall i | 1 <= i < Size
      ensures !RowFull(b, i)
    {
      assert b[i][0] == 0;
    }
    forall c | 0 <= c < Size
      ensures !ColFull(b, c)
    {
      assert b[1][c] == 0;
    }
  }

  /** Clearing TopRowFull counts one row. */
  lemma CountTopRow()
    ensures ClearCount(TopRowFull()) == 1
  {
    TopRowLines();
    OnlyRowZeroCleared(TopRowFull());
  }

  /** Clearing TopRowFull empties the board. */
  lemma ClearTopRow()
    ensures forall i, j :: 0 <= i < Size && 0 <= j < Size ==> Cleared(TopRowFull())[i][j] == 0
  {
    var b := TopRowFull();
    assert RowFull(b, 0);
    forall i, j | 0 <= i < Size && 0 <= j < Size
      ensures Cleared(b)[i][j] == 0
    {
      if i != 0 {
        assert b[i][j] == 0;
      }
    }
  }

  /** A single cell dropped into the gap at board cell (0, 0), i.e. anchor
      (1, 1), completes row 0: one line is cleared, counted once, and the
      board comes back empty. */
  lemma RowCompletionScenario()
    ensures CanPlace(RowZeroGap(), [[1]], 1, 1)
    ensures ClearCount(Place(RowZeroGap(), [[1]], 1, 1)) == 1
    ensures forall i, j :: 0 <= i < Size && 0 <= j < Size ==>
      Cleared(Place(RowZeroGap(), [[1]], 1, 1))[i][j] == 0
  {
    FillGap();
    CountTopRow();
    ClearTopRow();
  }
}
