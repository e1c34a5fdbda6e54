/** The piece editor's footprint handling (tile.py). A piece is a grid of
    cells: 0 is empty, 1 occupied and 2 the transient preview of the cell
    under the mouse. While a piece is edited it is padded to 5x5; once
    finished it is cut down to the rows and columns that hold something. */
module Tile {
  import opened Wrappers
  import opened Text

  type Cells = seq<seq<int>>

  /** The editor's grid is Side x Side. */
  const Side := 5
  /** `buffer_index[0]` when no preview cell is pending. */
  const NoPreview := 20
  /** The starting values of `min_x`/`min_y` and `max_x`/`max_y`. */
  const LowStart := 6
  const HighStart := -1

  /** `[0] * n`. */
  function Zeros(n: nat): (r: seq<int>)
    ensures |r| == n && forall j :: 0 <= j < n ==> r[j] == 0
  {
    seq(n, _ => 0)
  }

  /** `[[0 for i in range(5)] for j in range(5)]`, a blank piece. */
  function BlankCells(): (g: Cells)
    ensures |g| == Side && forall i :: 0 <= i < Side ==> g[i] == Zeros(Side)
  {
    seq(Side, _ => Zeros(Side))
  }

  /** All rows as long as the first. */
  predicate Rect(d: Cells)
  {
    |d| > 0 && forall i :: 0 <= i < |d| ==> |d[i]| == |d[0]|
  }

  /** A rectangular piece of at most 5x5 cells, none negative: what the
      editor and the case-line loader produce. */
  predicate Fits(d: Cells)
  {
    Rect(d) && |d| <= Side && |d[0]| <= Side &&
    forall i, j :: 0 <= i < |d| && 0 <= j < |d[i]| ==> d[i][j] >= 0
  }

  predicate Square(d: Cells)
  {
    |d| == Side && forall i :: 0 <= i < Side ==> |d[i]| == Side
  }

  // ---------------------------------------------------------------------
  // restore_data
  // ---------------------------------------------------------------------

  /** `restore_data`: every row is extended by as many zeros as the first
      row lacks of 5, then rows of five zeros are appended up to 5 rows. */
  function Restored(d: Cells): (r: Cells)
    requires |d| > 0
    ensures |r| == |d| + Clamp(Side - |d|)
    ensures forall i :: 0 <= i < |d| ==> r[i] == d[i] + Zeros(Clamp(Side - |d[0]|))
    ensures forall i :: |d| <= i < |r| ==> r[i] == Zeros(Side)
  {
    seq(|d|, i requires 0 <= i < |d| => d[i] + Zeros(Clamp(Side - |d[0]|))) +
    seq(Clamp(Side - |d|), _ => Zeros(Side))
  }

  /** A piece that fits becomes exactly 5x5, every existing cell where it
      was and every added cell 0; a 5x5 piece is left as it is. */
  lemma RestoredFits(d: Cells)
    requires Fits(d)
    ensures Square(Restored(d))
    ensures forall i, j :: 0 <= i < Side && 0 <= j < Side ==>
      Restored(d)[i][j] == if i < |d| && j < |d[0]| then d[i][j] else 0
    ensures |d| == Side && |d[0]| == Side ==> Restored(d) == d
  {
    var r := Restored(d);
    forall i, j | 0 <= i < Side && 0 <= j < Side
      ensures r[i][j] == if i < |d| && j < |d[0]| then d[i][j] else 0
    {
      if i < |d| {
        assert r[i][j] == (d[i] + Zeros(Side - |d[0]|))[j];
      }
    }
    if |d| == Side && |d[0]| == Side {
      assert forall i :: 0 <= i < Side ==> r[i] == d[i];
    }
  }

  /** Restoring twice is restoring once: after the first pass the first
      row has at least 5 cells and there are at least 5 rows. */
  lemma RestoredIdempotent(d: Cells)
    requires |d| > 0
    ensures Restored(Restored(d)) == Restored(d)
  {
    var r := Restored(d);
    assert |r[0]| >= Side;
    forall i | 0 <= i < |r|
      ensures Restored(r)[i] == r[i]
    {
      assert Restored(r)[i] == r[i] + [];
    }
  }

  // ---------------------------------------------------------------------
  // trim_data
  // ---------------------------------------------------------------------

  /** What `trim_data` needs to run without an IndexError: a first row to
      measure, and every row at least 5 cells long once restored, since
      the column sums read columns 0 to 4 of every row. */
  predicate Trimmable(d: Cells)
  {
    |d| > 0 && forall i :: 0 <= i < |d| ==> |d[i]| + Clamp(Side - |d[0]|) >= Side
  }

  predicate Wide(p: Cells)
  {
    forall i :: 0 <= i < |p| ==> |p[i]| >= Side
  }

  /** A pending preview cell names a cell of the restored piece. */
  predicate PreviewOk(d: Cells, bufferRow: int, bufferCol: int)
    requires |d| > 0
  {
    bufferRow == NoPreview ||
    (0 <= bufferRow < |Restored(d)| && 0 <= bufferCol < |Restored(d)[bufferRow]|)
  }

  lemma TrimmableWide(d: Cells)
    requires Trimmable(d)
    ensures Wide(Restored(d))
  {
    var r := Restored(d);
    forall i | 0 <= i < |r|
      ensures |r[i]| >= Side
    {
      if i < |d| {
        assert r[i] == d[i] + Zeros(Clamp(Side - |d[0]|));
      }
    }
  }

  /** The restored piece with the pending preview cell erased: the grid
      whose bounding box `trim_data` measures. */
  function Prepared(d: Cells, bufferRow: int, bufferCol: int): (p: Cells)
    requires Trimmable(d) && PreviewOk(d, bufferRow, bufferCol)
    ensures |p| == |Restored(d)| && Wide(p)
    ensures forall i :: 0 <= i < |p| ==> |p[i]| == |Restored(d)[i]|
  {
    TrimmableWide(d);
    var r := Restored(d);
    if bufferRow == NoPreview then r else r[bufferRow := r[bufferRow][bufferCol := 0]]
  }

  /** Python's `sum`. */
  function Sum(xs: seq<int>): int
  {
    if |xs| == 0 then 0 else Sum(xs[..|xs| - 1]) + xs[|xs| - 1]
  }

  /** `[j[c] for j in p]`. */
  function Column(p: Cells, c: nat): (col: seq<int>)
    requires forall i :: 0 <= i < |p| ==> c < |p[i]|
    ensures |col| == |p| && forall i :: 0 <= i < |p| ==> col[i] == p[i][c]
  {
    seq(|p|, i requires 0 <= i < |p| => p[i][c])
  }

  function RowSums(p: Cells): (s: seq<int>)
    ensures |s| == |p| && forall i :: 0 <= i < |p| ==> s[i] == Sum(p[i])
  {
    seq(|p|, i requires 0 <= i < |p| => Sum(p[i]))
  }

  function ColSums(p: Cells): (s: seq<int>)
    requires Wide(p)
    ensures |s| == Side && forall c :: 0 <= c < Side ==> s[c] == Sum(Column(p, c))
  {
    seq(Side, c requires 0 <= c < Side => Sum(Column(p, c)))
  }

  /** `min_x` (or `min_y`) after the loop has seen the first n sums: the
      smaller of 6 and the first index with a nonzero sum, so 6 when there
      is none, and also when the first nonzero sum comes at 7 or later. */
  function LowMark(sums: seq<int>, n: nat): (m: int)
    requires n <= |sums|
    ensures m == LowStart || (0 <= m < n && sums[m] != 0)
  {
    if n == 0 then LowStart
    else
      var m := LowMark(sums, n - 1);
      if sums[n - 1] != 0 then (if m < n - 1 then m else n - 1) else m
  }

  /** `max_x` (or `max_y`) after the loop has seen the first n sums: the
      last index with a nonzero sum, or -1 when there is none. */
  function HighMark(sums: seq<int>, n: nat): (m: int)
    requires n <= |sums|
    ensures m == HighStart || (0 <= m < n && sums[m] != 0)
  {
    if n == 0 then HighStart
    else
      var m := HighMark(sums, n - 1);
      if sums[n - 1] != 0 then (if m > n - 1 then m else n - 1) else m
  }

  /** The low mark never exceeds its start 6: in a piece of more than six
      rows whose first nonzero row is 7 or later, `trim_data` keeps the
      zero rows from 6 on. */
  lemma {:induction false} LowMarkCapped(sums: seq<int>, n: nat)
    requires n <= |sums|
    ensures LowMark(sums, n) <= LowStart
  {
    if n > 0 {
      LowMarkCapped(sums, n - 1);
    }
  }

  /** No index with a nonzero sum comes before the low mark... */
  lemma {:induction false} LowMarkFirst(sums: seq<int>, n: nat, k: int)
    requires 0 <= k < n <= |sums| && sums[k] != 0
    ensures LowMark(sums, n) <= k
  {
    if k < n - 1 {
      LowMarkFirst(sums, n - 1, k);
    }
  }

  /** ...and none comes after the high mark. */
  lemma {:induction false} HighMarkLast(sums: seq<int>, n: nat, k: int)
    requires 0 <= k < n <= |sums| && sums[k] != 0
    ensures k <= HighMark(sums, n)
  {
    if k < n - 1 {
      HighMarkLast(sums, n - 1, k);
    }
  }

  /** The rows top..bottom and columns left..right `trim_data` keeps. */
  datatype Box = Box(top: int, bottom: int, left: int, right: int)

  function BoxOf(p: Cells): (b: Box)
    requires Wide(p)
    ensures b.top <= b.bottom ==> 0 <= b.top && b.bottom < |p|
    ensures 0 <= b.left && -1 <= b.right < Side
  {
    Box(LowMark(RowSums(p), |p|), HighMark(RowSums(p), |p|),
        LowMark(ColSums(p), Side), HighMark(ColSums(p), Side))
  }

  /** Rows top..bottom of p, each cut to columns left..right. */
  function Crop(p: Cells, b: Box): (t: Cells)
    requires Wide(p)
    requires b.top <= b.bottom ==> 0 <= b.top && b.bottom < |p|
    requires 0 <= b.left && -1 <= b.right < Side
    ensures |t| == Clamp(b.bottom + 1 - b.top)
    ensures forall k :: 0 <= k < |t| ==> |t[k]| == Clamp(b.right + 1 - b.left)
  {
    seq(Clamp(b.bottom + 1 - b.top), k requires 0 <= k < Clamp(b.bottom + 1 - b.top) =>
      seq(Clamp(b.right + 1 - b.left), m requires 0 <= m < Clamp(b.right + 1 - b.left) =>
        p[b.top + k][b.left + m]))
  }

  /** `row[min_y:max_y+1]` on a row of at least 5 cells is the cells from
      `min_y` to `max_y`, as Crop takes them. */
  lemma SliceRow(row: seq<int>, left: int, right: int)
    requires |row| >= Side && 0 <= left && -1 <= right < Side
    ensures Slice(row, left, right + 1) ==
      seq(Clamp(right + 1 - left), m requires 0 <= m < Clamp(right + 1 - left) => row[left + m])
  {
  }

  /** `trim_data` as a function. */
  function Trimmed(d: Cells, bufferRow: int, bufferCol: int): Cells
    requires Trimmable(d) && PreviewOk(d, bufferRow, bufferCol)
  {
    var p := Prepared(d, bufferRow, bufferCol);
    Crop(p, BoxOf(p))
  }

  predicate NonNeg(p: Cells)
  {
    forall i, j :: 0 <= i < |p| && 0 <= j < |p[i]| ==> p[i][j] >= 0
  }

  /** A sum of non-negative numbers is at least each of them, so it is
      zero exactly when they all are. */
  lemma {:induction false} SumNonNeg(xs: seq<int>)
    requires forall j :: 0 <= j < |xs| ==> xs[j] >= 0
    ensures Sum(xs) >= 0
    ensures forall j :: 0 <= j < |xs| ==> Sum(xs) >= xs[j]
    ensures Sum(xs) == 0 <==> forall j :: 0 <= j < |xs| ==> xs[j] == 0
  {
    if |xs| > 0 {
      SumNonNeg(xs[..|xs| - 1]);
    }
  }

  predicate RowHasNonzero(p: Cells, i: int)
  {
    0 <= i < |p| && exists j :: 0 <= j < |p[i]| && p[i][j] != 0
  }

  predicate ColHasNonzero(p: Cells, j: int)
  {
    exists i :: 0 <= i < |p| && 0 <= j < |p[i]| && p[i][j] != 0
  }

  predicate AllZero(p: Cells)
  {
    forall i, j :: 0 <= i < |p| && 0 <= j < |p[i]| ==> p[i][j] == 0
  }

  /** On a non-negative grid a row's sum is nonzero exactly when the row
      holds a nonzero cell. */
  lemma RowSum(p: Cells, i: int)
    requires NonNeg(p) && 0 <= i < |p|
    ensures RowSums(p)[i] != 0 <==> RowHasNonzero(p, i)
  {
    SumNonNeg(p[i]);
  }

  /** The same for the columns `trim_data` scans. */
  lemma ColSum(p: Cells, j: int)
    requires NonNeg(p) && Wide(p) && 0 <= j < Side
    ensures ColSums(p)[j] != 0 <==> ColHasNonzero(p, j)
  {
    var col := Column(p, j);
    SumNonNeg(col);
    if ColHasNonzero(p, j) {
      var i :| 0 <= i < |p| && 0 <= j < |p[i]| && p[i][j] != 0;
      assert col[i] != 0;
    }
  }

  /** The box of a non-negative 5x5 grid holding a nonzero cell lies in
      the grid, and each of its sides holds a nonzero cell. */
  lemma BoxBounds(p: Cells)
    requires Square(p) && NonNeg(p) && !AllZero(p)
    ensures var b := BoxOf(p);
      0 <= b.top <= b.bottom < Side && 0 <= b.left <= b.right < Side &&
      RowHasNonzero(p, b.top) && RowHasNonzero(p, b.bottom) &&
      ColHasNonzero(p, b.left) && ColHasNonzero(p, b.right)
  {
    var b := BoxOf(p);
    var i0, j0 :| 0 <= i0 < Side && 0 <= j0 < Side && p[i0][j0] != 0;
    InBox(p, i0, j0);
    RowSum(p, b.top);
    RowSum(p, b.bottom);
    ColSum(p, b.left);
    ColSum(p, b.right);
  }

  /** Every nonzero cell lies inside the box. */
  lemma InBox(p: Cells, i: int, j: int)
    requires Square(p) && NonNeg(p) && 0 <= i < Side && 0 <= j < Side && p[i][j] != 0
    ensures var b := BoxOf(p);
      b.top <= i <= b.bottom && b.left <= j <= b.right
  {
    RowSum(p, i);
    ColSum(p, j);
    LowMarkFirst(RowSums(p), Side, i);
    HighMarkLast(RowSums(p), Side, i);
    LowMarkFirst(ColSums(p), Side, j);
    HighMarkLast(ColSums(p), Side, j);
  }

  /** Cell (i, j) of the grid inside the box is cell (i - top, j - left)
      of the crop. */
  lemma CropCell(p: Cells, b: Box, i: int, j: int)
    requires 0 <= b.top <= i <= b.bottom < |p|
    requires Wide(p) && 0 <= b.left <= j <= b.right < Side
    ensures |Crop(p, b)| == b.bottom - b.top + 1
    ensures |Crop(p, b)[i - b.top]| == b.right - b.left + 1
    ensures Crop(p, b)[i - b.top][j - b.left] == p[i][j]
    ensures p[i][j] != 0 ==>
      RowHasNonzero(Crop(p, b), i - b.top) && ColHasNonzero(Crop(p, b), j - b.left)
  {
  }

  /** An all-zero grid trims to nothing; any other to a non-empty grid. */
  lemma TrimEmpty(p: Cells)
    requires Square(p) && NonNeg(p)
    ensures Crop(p, BoxOf(p)) == [] <==> AllZero(p)
  {
    if !AllZero(p) {
      BoxBounds(p);
    } else {
      forall i | 0 <= i < Side
        ensures RowSums(p)[i] == 0
      {
        RowSum(p, i);
      }
    }
  }

  /** Trimming loses no nonzero cell: the result is the box's rows and
      columns, cell (i, j) of the grid appearing at (i - top, j - left),
      and every cell outside the box is zero. */
  lemma TrimKeeps(p: Cells)
    requires Square(p) && NonNeg(p) && !AllZero(p)
    ensures var b := BoxOf(p); var t := Crop(p, b);
      |t| == b.bottom - b.top + 1 &&
      (forall k :: 0 <= k < |t| ==> |t[k]| == b.right - b.left + 1) &&
      (forall k, m :: 0 <= k < |t| && 0 <= m < |t[k]| ==> t[k][m] == p[b.top + k][b.left + m]) &&
      forall i, j :: 0 <= i < Side && 0 <= j < Side && p[i][j] != 0 ==>
        b.top <= i <= b.bottom && b.left <= j <= b.right
  {
    BoxFramed(p);
    CropShape(p, BoxOf(p));
  }

  /** A crop inside the grid has the box's height and width, and its cell
      (k, m) is the grid's cell (top + k, left + m). */
  lemma CropShape(p: Cells, b: Box)
    requires Wide(p) && 0 <= b.top <= b.bottom < |p| && 0 <= b.left <= b.right < Side
    ensures var t := Crop(p, b);
      |t| == b.bottom - b.top + 1 &&
      (forall k :: 0 <= k < |t| ==> |t[k]| == b.right - b.left + 1) &&
      (forall k, m :: 0 <= k < |t| && 0 <= m < |t[k]| ==> t[k][m] == p[b.top + k][b.left + m])
  {
  }

  /** Every nonzero cell lies inside the box. */
  lemma AllInBox(p: Cells)
    requires Square(p) && NonNeg(p)
    ensures var b := BoxOf(p);
      forall i, j :: 0 <= i < Side && 0 <= j < Side && p[i][j] != 0 ==>
        b.top <= i <= b.bottom && b.left <= j <= b.right
  {
    forall i, j | 0 <= i < Side && 0 <= j < Side && p[i][j] != 0
      ensures BoxOf(p).top <= i <= BoxOf(p).bottom && BoxOf(p).left <= j <= BoxOf(p).right
    {
      InBox(p, i, j);
    }
  }

  /** A non-empty rectangular grid whose border rows and columns each hold
      a nonzero cell. */
  predicate Tight(t: Cells)
  {
    Rect(t) && |t[0]| > 0 &&
    RowHasNonzero(t, 0) && RowHasNonzero(t, |t| - 1) &&
    ColHasNonzero(t, 0) && ColHasNonzero(t, |t[0]| - 1)
  }

  /** A box inside a grid whose sides each hold a nonzero cell and
      outside which every cell is zero. */
  predicate Framed(p: Cells, b: Box)
  {
    Wide(p) && 0 <= b.top <= b.bottom < |p| && 0 <= b.left <= b.right < Side &&
    RowHasNonzero(p, b.top) && RowHasNonzero(p, b.bottom) &&
    ColHasNonzero(p, b.left) && ColHasNonzero(p, b.right) &&
    forall i, j :: 0 <= i < |p| && 0 <= j < |p[i]| && p[i][j] != 0 ==>
      b.top <= i <= b.bottom && b.left <= j <= b.right
  }

  /** The box `trim_data` finds in a grid holding a nonzero cell frames it. */
  lemma BoxFramed(p: Cells)
    requires Square(p) && NonNeg(p) && !AllZero(p)
    ensures Framed(p, BoxOf(p))
  {
    BoxBounds(p);
    AllInBox(p);
  }

  /** A trimmed piece is tight: its first and last rows and its first and
      last columns each hold a nonzero cell. */
  lemma TrimTight(p: Cells)
    requires Square(p) && NonNeg(p) && !AllZero(p)
    ensures Tight(Crop(p, BoxOf(p)))
  {
    BoxFramed(p);
    CropEndRows(p, BoxOf(p));
    CropEndCols(p, BoxOf(p));
  }

  lemma CropEndRows(p: Cells, b: Box)
    requires Framed(p, b)
    ensures var t := Crop(p, b);
      |t| > 0 && |t[0]| > 0 && RowHasNonzero(t, 0) && RowHasNonzero(t, |t| - 1)
  {
    var j1 :| 0 <= j1 < |p[b.top]| && p[b.top][j1] != 0;
    CropCell(p, b, b.top, j1);
    var j2 :| 0 <= j2 < |p[b.bottom]| && p[b.bottom][j2] != 0;
    CropCell(p, b, b.bottom, j2);
  }

  lemma CropEndCols(p: Cells, b: Box)
    requires Framed(p, b)
    ensures var t := Crop(p, b);
      |t| > 0 && |t[0]| > 0 && ColHasNonzero(t, 0) && ColHasNonzero(t, |t[0]| - 1)
  {
    var i1 :| 0 <= i1 < |p| && 0 <= b.left < |p[i1]| && p[i1][b.left] != 0;
    CropCell(p, b, i1, b.left);
    var i2 :| 0 <= i2 < |p| && 0 <= b.right < |p[i2]| && p[i2][b.right] != 0;
    CropCell(p, b, i2, b.right);
  }

  /** A row of the padded piece has a nonzero sum exactly when it is a row
      of the piece holding a nonzero cell. */
  lemma PaddedRowSum(t: Cells, i: int)
    requires Fits(t) && 0 <= i < Side
    ensures Square(Restored(t)) && NonNeg(Restored(t))
    ensures RowSums(Restored(t))[i] != 0 <==> i < |t| && RowHasNonzero(t, i)
  {
    RestoredFits(t);
    var q := Restored(t);
    RowSum(q, i);
    if i < |t| && RowHasNonzero(t, i) {
      var j :| 0 <= j < |t[i]| && t[i][j] != 0;
      assert q[i][j] != 0;
    }
    if RowHasNonzero(q, i) {
      var j :| 0 <= j < |q[i]| && q[i][j] != 0;
      assert t[i][j] != 0;
    }
  }

  /** The same for a column. */
  lemma PaddedColSum(t: Cells, j: int)
    requires Fits(t) && 0 <= j < Side
    ensures Square(Restored(t)) && NonNeg(Restored(t))
    ensures ColSums(Restored(t))[j] != 0 <==> j < |t[0]| && ColHasNonzero(t, j)
  {
    RestoredFits(t);
    var q := Restored(t);
    ColSum(q, j);
    if j < |t[0]| && ColHasNonzero(t, j) {
      var i :| 0 <= i < |t| && 0 <= j < |t[i]| && t[i][j] != 0;
      assert q[i][j] != 0;
    }
    if ColHasNonzero(q, j) {
      var i :| 0 <= i < |q| && 0 <= j < |q[i]| && q[i][j] != 0;
      assert t[i][j] != 0;
    }
  }

  /** The rows of a padded tight piece: the first and last of the piece
      hold a nonzero cell, the added ones none, so the row scan finds
      exactly the piece's rows. */
  lemma TightRows(t: Cells)
    requires Fits(t) && Tight(t)
    ensures Trimmable(t) && Wide(Restored(t))
    ensures LowMark(RowSums(Restored(t)), Side) == 0
    ensures HighMark(RowSums(Restored(t)), Side) == |t| - 1
  {
    PaddedRowSum(t, 0);
    LowMarkFirst(RowSums(Restored(t)), Side, 0);
    PaddedRowSum(t, |t| - 1);
    HighMarkLast(RowSums(Restored(t)), Side, |t| - 1);
    PaddedRowSum(t, HighMark(RowSums(Restored(t)), Side));
  }

  /** The same for the columns. */
  lemma TightCols(t: Cells)
    requires Fits(t) && Tight(t)
    ensures Trimmable(t) && Wide(Restored(t))
    ensures LowMark(ColSums(Restored(t)), Side) == 0
    ensures HighMark(ColSums(Restored(t)), Side) == |t[0]| - 1
  {
    PaddedColSum(t, 0);
    LowMarkFirst(ColSums(Restored(t)), Side, 0);
    PaddedColSum(t, |t[0]| - 1);
    HighMarkLast(ColSums(Restored(t)), Side, |t[0]| - 1);
    PaddedColSum(t, HighMark(ColSums(Restored(t)), Side));
  }

  /** Cropping a padded piece to its own rows and columns gives it back. */
  lemma CropPadded(t: Cells)
    requires Fits(t) && |t[0]| > 0
    ensures Crop(Restored(t), Box(0, |t| - 1, 0, |t[0]| - 1)) == t
  {
    var q := Restored(t);
    var c := Crop(q, Box(0, |t| - 1, 0, |t[0]| - 1));
    forall k | 0 <= k < |t|
      ensures c[k] == t[k]
    {
      assert q[k] == t[k] + Zeros(Side - |t[0]|);
    }
  }

  /** Re-padding and re-trimming a tight piece that fits gives it back. */
  lemma TrimTightAgain(t: Cells)
    requires Fits(t) && Tight(t)
    ensures Trimmable(t) && PreviewOk(t, NoPreview, 0)
    ensures Trimmed(t, NoPreview, 0) == t
  {
    TightRows(t);
    TightCols(t);
    RestoredFits(t);
    assert Prepared(t, NoPreview, 0) == Restored(t);
    assert BoxOf(Restored(t)) == Box(0, |t| - 1, 0, |t[0]| - 1);
    CropPadded(t);
  }

  /** The piece a pending preview and the padding turn d into, when it
      fits: a non-negative 5x5 grid holding d's cells. */
  lemma PreparedFits(d: Cells, bufferRow: int, bufferCol: int)
    requires Fits(d)
    requires bufferRow == NoPreview || (0 <= bufferRow < Side && 0 <= bufferCol < Side)
    ensures Trimmable(d) && PreviewOk(d, bufferRow, bufferCol)
    ensures Square(Prepared(d, bufferRow, bufferCol)) && NonNeg(Prepared(d, bufferRow, bufferCol))
  {
    RestoredFits(d);
  }

  /** Trimming a piece that fits: it is empty exactly when every cell but
      the erased preview is zero; otherwise it keeps every nonzero cell,
      it is tight, and trimming it again without a preview changes
      nothing. */
  lemma TrimmedPiece(d: Cells, bufferRow: int, bufferCol: int)
    requires Fits(d)
    requires bufferRow == NoPreview || (0 <= bufferRow < Side && 0 <= bufferCol < Side)
    ensures Trimmable(d) && PreviewOk(d, bufferRow, bufferCol)
    ensures Trimmed(d, bufferRow, bufferCol) == [] <==> AllZero(Prepared(d, bufferRow, bufferCol))
    ensures Trimmed(d, bufferRow, bufferCol) != [] ==>
      var t := Trimmed(d, bufferRow, bufferCol);
      Fits(t) && Tight(t) && Trimmed(t, NoPreview, 0) == t
  {
    PreparedFits(d, bufferRow, bufferCol);
    var p := Prepared(d, bufferRow, bufferCol);
    TrimEmpty(p);
    if !AllZero(p) {
      TrimKeeps(p);
      TrimTight(p);
      TrimTightAgain(Crop(p, BoxOf(p)));
    }
  }

  // ---------------------------------------------------------------------
  // __repr__
  // ---------------------------------------------------------------------

  /** The character `__repr__` shows for a cell. */
  function Glyph(n: int): (c: char)
    ensures c == '1' <==> n == 1
    ensures c == '1' || c == ' '
  {
    if n == 1 then '1' else ' '
  }

  /** One row as `__repr__` shows it, without its newline. */
  function Line(row: seq<int>): (s: string)
    ensures |s| == |row| && '\n' !in s
    ensures forall j :: 0 <= j < |row| ==> (s[j] == '1' <==> row[j] == 1)
  {
    seq(|row|, j requires 0 <= j < |row| => Glyph(row[j]))
  }

  /** The text `__repr__` returns: each row's line followed by a newline. */
  function Render(d: Cells): string
  {
    if |d| == 0 then "" else Render(d[..|d| - 1]) + Line(d[|d| - 1]) + "\n"
  }

  function Lines(d: Cells): (ls: seq<string>)
    ensures |ls| == |d| && forall i :: 0 <= i < |d| ==> ls[i] == Line(d[i])
  {
    seq(|d|, i requires 0 <= i < |d| => Line(d[i]))
  }

  /** The rendering splits at its newlines into one line per row, the
      last one followed by an empty remainder. */
  lemma {:induction false} RenderLines(d: Cells)
    ensures Split(Render(d), '\n') == Lines(d) + [""]
  {
    RenderJoin(d);
    SplitJoin(Lines(d) + [""], '\n');
  }

  lemma {:induction false} RenderJoin(d: Cells)
    ensures Render(d) == Join(Lines(d) + [""], '\n')
    decreases |d|
  {
    if |d| > 0 {
      var init := d[..|d| - 1];
      RenderJoin(init);
      assert Lines(d) == Lines(init) + [Line(d[|d| - 1])];
      JoinSnoc(Lines(d), "", '\n');
      JoinSnoc(Lines(init), Line(d[|d| - 1]), '\n');
      JoinSnoc(Lines(init), "", '\n');
    }
  }

  // ---------------------------------------------------------------------
  // The Selection object
  // ---------------------------------------------------------------------

  /** What a piece becomes once a Selection is built from it: trimmed, or
      blank 5x5 when nothing is left. */
  function Normalized(d: Cells): (n: Cells)
    requires Trimmable(d)
  {
    RestoredIdempotent(d);
    TrimmableWide(d);
    var t := Trimmed(Restored(d), NoPreview, 0);
    if t == [] then BlankCells() else t
  }

  /** Whether a Selection built from `d` is blank: the trim leaves nothing
      and `create_tile_surface` catches the IndexError. */
  predicate BlankPiece(d: Cells)
    requires Trimmable(d)
  {
    RestoredIdempotent(d);
    TrimmableWide(d);
    |Trimmed(Restored(d), NoPreview, 0)| == 0
  }

  class Selection {
    var tileData: Cells
    var bufferRow: int
    var bufferCol: int
    var blank: bool

    /** `Selection(..., tile_data)`: with no data a blank 5x5 piece;
        otherwise the data restored and then trimmed by
        `create_tile_surface`. */
    constructor (data: Option<Cells>)
      requires data.Some? ==> Trimmable(data.value)
      ensures bufferRow == NoPreview && bufferCol == 0
      ensures data.None? ==> tileData == BlankCells() && blank
      ensures data.Some? ==>
        tileData == Normalized(data.value) &&
        (blank <==> |Trimmed(Restored(data.value), NoPreview, 0)| == 0)
    {
      bufferRow, bufferCol := NoPreview, 0;
      match data {
        case None =>
          tileData := BlankCells();
          blank := true;
        case Some(d) =>
          tileData := d;
          blank := false;
      }
      new;
      if data.Some? {
        RestoreData();
        TrimmableWide(data.value);
        RestoredIdempotent(data.value);
        CreateTileSurface();
      }
    }

    /** `__repr__`: one line per row, '1' for a cell equal to 1 and a
        space for anything else, each line ending in a newline. */
    method Repr() returns (s: string)
      ensures s == Render(tileData)
    {
      s := "";
      for i := 0 to |tileData|
        invariant s == Render(tileData[..i])
      {
        var row := tileData[i];
        ghost var before := s;
        for j := 0 to |row|
          invariant s == before + Line(row[..j])
        {
          if row[j] == 1 {
            s := s + "1";
          } else {
            s := s + " ";
          }
          assert Line(row[..j + 1]) == Line(row[..j]) + [Glyph(row[j])];
        }
        assert row[..|row|] == row;
        s := s + "\n";
        assert tileData[..i + 1][..i] == tileData[..i];
      }
      assert tileData[..|tileData|] == tileData;
    }

    /** `restore_data`: pads the piece in place to at least 5x5. */
    method RestoreData()
      requires |tileData| > 0
      modifies this
      ensures tileData == Restored(old(tileData))
      ensures bufferRow == old(bufferRow) && bufferCol == old(bufferCol) && blank == old(blank)
    {
      var dimX := |tileData|;
      var dimY := |tileData[0]|;
      ghost var d := tileData;
      for i := 0 to dimX
        invariant bufferRow == old(bufferRow) && bufferCol == old(bufferCol) && blank == old(blank)
        invariant |tileData| == dimX
        invariant forall k :: 0 <= k < i ==> tileData[k] == d[k] + Zeros(Clamp(Side - dimY))
        invariant forall k :: i <= k < dimX ==> tileData[k] == d[k]
      {
        tileData := tileData[i := tileData[i] + Zeros(Clamp(Side - dimY))];
      }
      ghost var widened := tileData;
      for i := 0 to Clamp(Side - dimX)
        invariant bufferRow == old(bufferRow) && bufferCol == old(bufferCol) && blank == old(blank)
        invariant tileData == widened + seq(i, _ => Zeros(Side))
      {
        tileData := tileData + [Zeros(Side)];
      }
      assert widened == seq(|d|, i requires 0 <= i < |d| => d[i] + Zeros(Clamp(Side - |d[0]|)));
    }

    /** `trim_data`: pads the piece, erases the pending preview cell and
        cuts the piece down to the rows and columns with a nonzero sum. */
    method TrimData()
      requires Trimmable(tileData) && PreviewOk(tileData, bufferRow, bufferCol)
      modifies this
      ensures bufferRow == old(bufferRow) && bufferCol == old(bufferCol) && blank == old(blank)
      ensures tileData == Trimmed(old(tileData), bufferRow, bufferCol)
    {
      ghost var d := tileData;
      RestoreData();
      if bufferRow != NoPreview {
        tileData := tileData[bufferRow := tileData[bufferRow][bufferCol := 0]];
      }
      ghost var p := Prepared(d, bufferRow, bufferCol);
      var data := tileData;
      assert data == p;
      var minX, maxX := RowMarks(data);
      var minY, maxY := ColMarks(data);
      tileData := CropRows(data, Box(minX, maxX, minY, maxY));
    }

    /** The part of `create_tile_surface` that is not drawing: trim the
        piece, and when nothing is left (the surface sizing then raises an
        IndexError, which is caught) mark it blank and reset it to 5x5
        zeros. */
    method CreateTileSurface()
      requires Trimmable(tileData) && PreviewOk(tileData, bufferRow, bufferCol)
      modifies this
      ensures bufferRow == old(bufferRow) && bufferCol == old(bufferCol)
      ensures var t := Trimmed(old(tileData), bufferRow, bufferCol);
        tileData == (if |t| == 0 then BlankCells() else t) &&
        blank == (|t| == 0 || old(blank))
    {
      ghost var t := Trimmed(tileData, bufferRow, bufferCol);
      TrimData();
      assert tileData == t;
      if |tileData| == 0 {
        blank := true;
        tileData := BlankCells();
      }
    }
  }

  /** The row scan of `trim_data`: `min_x` and `max_x`. */
  method RowMarks(p: Cells) returns (minX: int, maxX: int)
    ensures minX == LowMark(RowSums(p), |p|) && maxX == HighMark(RowSums(p), |p|)
  {
    minX, maxX := LowStart, HighStart;
    for n := 0 to |p|
      invariant minX == LowMark(RowSums(p), n) && maxX == HighMark(RowSums(p), n)
    {
      if Sum(p[n]) != 0 {
        minX := if minX < n then minX else n;
        maxX := if maxX > n then maxX else n;
      }
    }
  }

  /** The column scan of `trim_data` over columns 0 to 4: `min_y` and
      `max_y`. */
  method ColMarks(p: Cells) returns (minY: int, maxY: int)
    requires Wide(p)
    ensures minY == LowMark(ColSums(p), Side) && maxY == HighMark(ColSums(p), Side)
  {
    minY, maxY := LowStart, HighStart;
    for c := 0 to Side
      invariant minY == LowMark(ColSums(p), c) && maxY == HighMark(ColSums(p), c)
    {
      if Sum(Column(p, c)) != 0 {
        minY := if minY < c then minY else c;
        maxY := if maxY > c then maxY else c;
      }
    }
  }

  /** The copying half of `trim_data`: rows `min_x..max_x` into
      `trimmed_x`, then each sliced to `min_y..max_y`. */
  method CropRows(p: Cells, b: Box) returns (trimmed: Cells)
    requires Wide(p)
    requires b.top <= b.bottom ==> 0 <= b.top && b.bottom < |p|
    requires 0 <= b.left && -1 <= b.right < Side
    ensures trimmed == Crop(p, b)
  {
    var trimmedX: Cells := [];
    var i := b.top;
    while i < b.bottom + 1
      invariant b.top <= i && (i > b.top ==> i <= b.bottom + 1)
      invariant |trimmedX| == i - b.top
      invariant forall k :: 0 <= k < |trimmedX| ==> trimmedX[k] == p[b.top + k]
    {
      trimmedX := trimmedX + [p[i]];
      i := i + 1;
    }
    trimmed := [];
    for k := 0 to |trimmedX|
      invariant |trimmed| == k
      invariant forall m :: 0 <= m < k ==> trimmed[m] == Slice(trimmedX[m], b.left, b.right + 1)
    {
      trimmed := trimmed + [Slice(trimmedX[k], b.left, b.right + 1)];
    }
    forall k | 0 <= k < |trimmed|
      ensures trimmed[k] == Crop(p, b)[k]
    {
      SliceRow(p[b.top + k], b.left, b.right);
    }
  }

  /** Building a Selection from a piece that fits: blank exactly when the
      piece has no nonzero cell, and otherwise its tight bounding box;
      building one again from the result changes nothing. */
  lemma NormalizedPiece(d: Cells)
    requires Fits(d)
    ensures Trimmable(d)
    ensures Normalized(d) == BlankCells() || Tight(Normalized(d))
    ensures Trimmed(Restored(d), NoPreview, 0) == [] <==> AllZero(d)
    ensures Fits(Normalized(d)) && Normalized(Normalized(d)) == Normalized(d)
  {
    TrimmedPiece(d, NoPreview, 0);
    RestoredIdempotent(d);
    TrimmableWide(d);
    PreparedZero(d);
    var n := Normalized(d);
    if n == BlankCells() {
      BlankNormal();
    } else {
      NormalTight(n);
    }
  }

  /** A piece that fits builds a blank Selection exactly when all its cells
      are 0, and the blank piece is then what it holds. */
  lemma BlankIffZero(d: Cells)
    requires Fits(d)
    ensures Trimmable(d)
    ensures BlankPiece(d) <==> AllZero(d)
    ensures BlankPiece(d) <==> Normalized(d) == BlankCells()
  {
    NormalizedPiece(d);
    if BlankPiece(d) {
      BlankNormalized(d);
    } else {
      NonBlankTight(d);
      TightNotBlank(Normalized(d));
    }
  }

  lemma BlankNormalized(d: Cells)
    requires Trimmable(d) && BlankPiece(d)
    ensures Normalized(d) == BlankCells()
  {
  }

  /** A piece that fits and is not blank holds a tight grid. */
  lemma NonBlankTight(d: Cells)
    requires Fits(d) && Trimmable(d) && !BlankPiece(d)
    ensures Tight(Normalized(d))
  {
    TrimmedPiece(d, NoPreview, 0);
    TrimmedRestored(d);
    assert Normalized(d) == Trimmed(d, NoPreview, 0);
  }

  /** Trimming restores first, so trimming the restored piece is the same. */
  lemma TrimmedRestored(d: Cells)
    requires Trimmable(d)
    ensures Trimmable(Restored(d)) && PreviewOk(Restored(d), NoPreview, 0)
    ensures Trimmed(Restored(d), NoPreview, 0) == Trimmed(d, NoPreview, 0)
  {
    RestoredIdempotent(d);
    TrimmableWide(d);
  }

  lemma TightNotBlank(t: Cells)
    requires Tight(t)
    ensures t != BlankCells()
  {
  }

  /** Padding adds only zeros, so the padded piece is all zero exactly
      when the piece is. */
  lemma PreparedZero(d: Cells)
    requires Fits(d)
    ensures Trimmable(d) && PreviewOk(d, NoPreview, 0)
    ensures AllZero(Prepared(d, NoPreview, 0)) <==> AllZero(d)
  {
    RestoredFits(d);
    var p := Prepared(d, NoPreview, 0);
    if AllZero(d) {
      assert forall i, j :: 0 <= i < Side && 0 <= j < Side ==> p[i][j] == 0;
    }
    if AllZero(p) {
      forall i, j | 0 <= i < |d| && 0 <= j < |d[i]|
        ensures d[i][j] == 0
      {
        assert p[i][j] == d[i][j];
      }
    }
  }

  /** A tight piece that fits is its own normal form. */
  lemma NormalTight(t: Cells)
    requires Fits(t) && Tight(t)
    ensures Trimmable(t) && Normalized(t) == t
  {
    TrimTightAgain(t);
    RestoredIdempotent(t);
    TrimmableWide(t);
  }

  /** A blank piece stays blank. */
  lemma BlankNormal()
    ensures Fits(BlankCells()) && Normalized(BlankCells()) == BlankCells()
  {
    var z := BlankCells();
    TrimmedPiece(z, NoPreview, 0);
    RestoredFits(z);
    RestoredIdempotent(z);
    assert AllZero(Prepared(z, NoPreview, 0));
  }
}
