# Block Blast solver: a verified model of its core

Block Blast is played on an 8x8 board of cells, each 0 (empty) or 1
(filled). Each turn the player gets three pieces, small grids of 0/1 cells
of at most 5x5, and places each of them. Once a piece is down, every full
row and every full column is cleared. The Python program this project models
does three things: it places pieces and clears lines (`ai.py`), it searches
for a placement of all three pieces that clears something (`ai.py`), and it
lets the user draw pieces in an editor and save or replay board positions
as lines of a text file (`tile.py`, `main.py`).

The model, module by module:

- `Grids` (`grids.dfy`): 8x8 grids as values, `Snapshot` of a
  two-dimensional array, and the deep copy used before every trial.
- `Engine` (`engine.dfy`): `check_clear` and `add_tile` as methods that
  work in place on `array2` boards. They are proved against pure functions
  (`Cleared`, `ClearCount`, `CanPlace`, `Place`, `Paint`), and the
  properties of the engine are proved about those functions.
- `Solver` (`solver.dfy`): `backtrack` as a pure recursive search
  (`Search`, `TryAnchors`), and `make_moves` as `Solve`. A solution is
  defined independently by `Run`/`Accepts`: anchors that place the blocks
  one valid place-then-clear step at a time and meet the clear goal. The
  lemmas prove the search sound, complete and first-found in row-major
  anchor order. The methods `Backtrack` and `MakeMoves` run the search on
  arrays, copying the board before every trial, and are proved to agree
  with the functions.
- `Scenarios` (`scenarios.dfy`): the empty board with three 1x1 pieces.
  The clear goal cannot be met, so the fallback search answers.
- `Tile` (`tile.dfy`): the piece editor's `Selection` as a class with its
  piece grid, its pending preview cell and its `blank` flag.
  `restore_data`, `trim_data`, `__repr__` and the blank handling of the
  constructor and `create_tile_surface` are methods proved against
  `Restored`, `Trimmed`, `Render` and `Normalized`.
- `Text` (`text.dfy`): the Python string operations the case-line codec
  uses: `str.split`, `str.join`, `str.strip`, slicing and `"".join`.
- `EdgeCases` (`edge_cases.dfy`): the case-line codec of `save_edge_case`
  and `load_edge_case`, and the blank-line filter of `remove_blank_lines`.
  The lines of the case file are a sequence of strings. `Game` holds the
  board and the selections that saving reads and loading replaces.

`check_clear` counts one per full row but eight per full column
(ai.py:21-23), because its increment sits inside the per-cell loop of the
column clear. `ClearCount` is that count as written, and `CheckClear`
returns it. `LinesCleared` counts one per cleared line, and
`ClearCountVersusLines` relates the two.

A few more behaviours follow the code:

- The load slot indexes the line list Python-style. Slot 0 reads the last
  line, and negative slots count from the end.
- A character that is not a decimal digit makes `int` raise a
  `ValueError`. `load_edge_case` does not catch it, so the board or the
  selections are left half rebuilt. The model reports this as the outcome
  `BadDigit`, with the partial state.
- A piece field whose rows are too short for `trim_data` raises an
  `IndexError` outside the `try` of `create_tile_surface`. `load_edge_case`
  catches it as "No case saved", after the board has been replaced and the
  earlier pieces appended. The model reports this as `NoCaseSaved` with
  that state.
- `min_x` starts at 6 and only decreases (tile.py:114-118). A loaded piece
  field may have more than six rows. If its first nonzero row is row 7 or
  later, `trim_data` keeps the all-zero rows from row 6 on, so the piece is
  not fully trimmed. `LowMark` computes this value, and `LowMarkCapped`
  states the cap.

## Model

| member | source | states |
|---|---|---|
| Grids.Copy | ai.py:76-77 | `copy.deepcopy` of a board: a fresh array with the same dimensions and the same cells |
| Engine.FullLineIff | ai.py:11 | `len(set(line)) == 1 and line[0] == 1` holds exactly when every cell of the line is 1 |
| Engine.RowLineFull | ai.py:10-11 | the set test on snapshot row n holds exactly when row n is full |
| Engine.TransposedColumnFull | ai.py:16-20 | row n of `zip(*board_copy[::-1])` is column n read bottom-up, and its test holds exactly when column n is full |
| Engine.CountFullRows | ai.py:10-13 | the number of full rows among the first n is at most n, and is 0 exactly when none of them is full |
| Engine.CountFullCols | ai.py:19-23 | the number of full columns among the first n is at most n, and is 0 exactly when none of them is full |
| Engine.ZeroRow | ai.py:12 | row n becomes all 0 and every other cell keeps its value |
| Engine.ClearColumn | ai.py:21-23 | column n becomes all 0 and every other cell keeps its value; the counter grows by 8, one per cell |
| Engine.CheckClear | ai.py:3-25 | returns the same board; every cell in a row or column that was full in the input becomes 0, every other cell keeps its value, and the count is full rows + 8 x full columns, both judged on the input |
| Engine.ClearCountBounds | ai.py:10-23 | the count is at most 72, and it is 0 exactly when the clear leaves the board unchanged |
| Engine.ClearedHasNoFullLine | ai.py:10-23 | after the clear no row and no column is full |
| Engine.ClearIdempotent | ai.py:3-25 | a second clear changes nothing and counts 0 |
| Engine.CrossingLinesBothCleared | ai.py:7-20 | a full row and a full column that share a cell are both found on the snapshot and both cleared; the count is then at least 9 |
| Engine.ClearCountVersusLines | ai.py:19-23 | the count as written lies between the number of cleared lines and 8 times it; it equals the line count exactly when no column is full, and it is positive exactly when some line is cleared |
| Engine.OnlyRowZeroCleared | ai.py:10-23 | when row 0 is the only full line, the count is 1 |
| Engine.PlaceCell | ai.py:43-49 | one occupied block cell: the board cell becomes 1, its overlay is reset for a human move and tagged with the piece index unless it is -1; no other cell changes |
| Engine.WriteBlock | ai.py:41-49 | after a passed dry run, the board becomes `Place` (1 exactly on the images of the occupied block cells, every other cell unchanged) and the overlay becomes `Paint` |
| Engine.AddTile | ai.py:28-51 | returns True exactly when every cell of the block rectangle, occupied or not, maps onto the board and no occupied cell lands on a 1; on False the board and the overlay are untouched; on True they become `Place` and `Paint`; the same board object is returned |
| Engine.PlaceAddsImage | ai.py:33-45 | after a successful placement the filled cells are the old ones plus the block's image; that image lies on the board and does not meet the old filled cells |
| Engine.RowCompletionScenario | ai.py:3-51 | row 0 filled in columns 1-7: a 1x1 piece anchored at (1, 1) fills cell (0, 0), is accepted, makes the count 1 and leaves the whole board empty |
| Solver.SearchComplete | ai.py:61-98 | if some anchor sequence places the remaining blocks and meets the goal, the search finds a result |
| Solver.SearchSound | ai.py:61-98 | a found result is what an accepted anchor sequence produces, and no accepted sequence comes before it in row-major order |
| Solver.SkippedAnchorFails | ai.py:83-95 | an anchor the loops pass over, because its placement is invalid or the recursion fails, begins no accepted sequence |
| Solver.SearchFindsFirst | ai.py:61-98 | `backtrack` returns None exactly when no anchor sequence in 0..8 x 0..8 places all blocks and meets the goal (enough clears when `must_clear`); otherwise it returns the result of the first such sequence in row-major order |
| Solver.OrderingsArePermutations | ai.py:103-109 | the six orderings are permutations of the three pieces, pairwise different, and every permutation is one of them |
| Solver.SolvePicks | ai.py:103-121 | `make_moves` returns the first of the six clear-seeking attempts that succeeds, and the fallback's result when all six fail |
| Solver.SolveSound | ai.py:103-121 | a result of `make_moves` comes from an accepted anchor sequence, either for the first ordering that has one, with enough clears, or for the fallback in the original order |
| Solver.SolveComplete | ai.py:103-124 | if some ordering can meet the clear goal, the result meets it; the result is None exactly when no ordering meets the goal and no placement of the original order exists at all |
| Solver.Trial | ai.py:76-88 | one trial on fresh copies succeeds exactly when the pure step does, and the copies then hold the stepped board, overlay and count |
| Solver.Backtrack | ai.py:61-98 | returns a result exactly when the pure search does, with the same board and overlay; it leaves the caller's arrays alone, because it has no `modifies` clause |
| Solver.TryAt | ai.py:76-95 | one anchor of the loops: a result is the pure loops' result from that anchor, and no result means the loops go on at the next anchor |
| Solver.ArrangeTiles | ai.py:104-109 | the `pop`/`extend`/`reverse` steps build ordering i |
| Solver.MakeMoves | ai.py:60-124 | returns a result exactly when `Solve` does, with the same board and overlay; `(None, None)` is modelled as no result |
| Scenarios.NoFullLine | ai.py:10-20 | a board with at most three filled cells has no full row or column |
| Scenarios.RunSingles | ai.py:61-92 | placing 1x1 pieces while at most three cells are filled never adds clears |
| Scenarios.FallbackScenario | ai.py:103-121 | empty board, three 1x1 pieces, one clear required: all six clear-seeking orderings fail, so `make_moves` returns the fallback's result, which exists and has no clears |
| Tile.Restored | tile.py:137-145 | every row is extended by the zeros the first row lacks of 5, and rows of five zeros are appended up to 5 rows |
| Tile.RestoredFits | tile.py:137-145 | a rectangular piece of at most 5x5 becomes exactly 5x5, every existing cell where it was and every added cell 0; a 5x5 piece is unchanged |
| Tile.RestoredIdempotent | tile.py:137-145 | restoring a restored piece changes nothing |
| Tile.LowMarkFirst | tile.py:116-119 | `min_x`/`min_y` is at most the index of any line with a nonzero sum |
| Tile.HighMarkLast | tile.py:116-119 | `max_x`/`max_y` is at least the index of any line with a nonzero sum |
| Tile.RowMarks | tile.py:113-119 | the row loop computes `min_x`, the smaller of 6 and the first row with a nonzero sum, and `max_x`, the last row with a nonzero sum or -1 when there is none |
| Tile.LowMarkCapped | tile.py:114-118 | `min_x`/`min_y` never exceeds its start value 6 |
| Tile.ColMarks | tile.py:124-129 | the column loop computes the first and last of columns 0-4 with a nonzero sum, 6 and -1 when there is none |
| Tile.CropRows | tile.py:121-133 | the two slicing loops produce the grid of rows min_x..max_x cut to columns min_y..max_y |
| Tile.TrimEmpty | tile.py:114-122 | the trimmed grid is empty exactly when every cell is 0 |
| Tile.BoxBounds | tile.py:113-129 | for a non-zero piece the bounds lie in 0..4 and the first and last rows and columns of the box each hold a nonzero cell |
| Tile.TrimKeeps | tile.py:113-135 | trimming loses no nonzero cell: each one lies in the box and appears shifted by (min_x, min_y) |
| Tile.TrimTight | tile.py:113-135 | the first and last rows and columns of a trimmed piece each hold a nonzero cell |
| Tile.TrimTightAgain | tile.py:108-145 | with no preview cell, trimming an already trimmed piece, which restores it first, gives the same piece |
| Tile.PreparedZero | tile.py:109-111 | with no preview cell pending, the padded grid is all 0 exactly when the piece is |
| Tile.TrimmedPiece | tile.py:108-145 | for any pending preview cell, the result is empty exactly when the padded grid with the preview erased is all 0; otherwise it is a piece of at most 5x5 whose border rows and columns hold nonzero cells, and which re-trims to itself |
| Tile.Glyph | tile.py:39-42 | a cell is rendered `'1'` exactly when it is 1, and `' '` otherwise |
| Tile.Line | tile.py:38-42 | a row renders to one character per cell, with no newline, `'1'` exactly at the cells that are 1 |
| Tile.RenderLines | tile.py:35-44 | splitting `__repr__` at newlines gives the rendered rows followed by an empty string: one line per row, each ending in a newline |
| Tile.RenderJoin | tile.py:35-44 | `__repr__` is the rendered rows each followed by a newline |
| Tile.Selection.constructor | tile.py:26-33 | with no data, a 5x5 blank piece; with data, the piece restored and then trimmed, or a 5x5 blank piece exactly when the trimmed data is empty; no preview cell pending |
| Tile.Selection.Repr | tile.py:35-44 | the piece rendered one row per line |
| Tile.Selection.RestoreData | tile.py:137-145 | the piece becomes `Restored` of itself; nothing else changes |
| Tile.Selection.TrimData | tile.py:108-135 | the piece becomes its bounding-box cut after restoring and erasing the preview cell; nothing else changes |
| Tile.Selection.CreateTileSurface | tile.py:166-183 | the piece is trimmed; an empty result is replaced by a 5x5 blank piece and sets `blank` |
| Tile.BlankIffZero | tile.py:26-33 | a piece that fits builds a blank Selection exactly when all its cells are 0, which is exactly when it holds the 5x5 blank piece |
| Tile.NormalizedPiece | tile.py:26-33 | a constructed piece is blank or tight, is blank exactly when the data is all 0, fits in 5x5 and does not change if it is constructed again |
| Tile.NormalTight | tile.py:26-33 | a tight piece is kept as it is |
| Tile.BlankNormal | tile.py:26-28 | the blank piece is kept as it is |
| Text.Split | main.py:153 | `str.split` gives at least one part, and no part contains the separator |
| Text.SplitJoin | main.py:153 | splitting a join of parts that do not contain the separator gives back the parts |
| Text.JoinSplit | main.py:153 | joining the parts of a split gives back the string |
| Text.Slice | main.py:158 | Python slicing: an in-range slice is the subsequence, and an out-of-range or reversed slice is empty |
| Text.DropLast | main.py:140 | `[:-1]` removes the last character, and an empty string stays empty |
| Text.StripBounds | main.py:153 | `str.strip` removes exactly the leading and trailing whitespace |
| Text.StripEmpty | main.py:258 | a stripped line is empty exactly when every character is whitespace |
| Text.StripNewline | main.py:153 | stripping a line of non-blank text plus its newline gives the text |
| Text.ConcatAppend | main.py:129 | `"".join` of two lists concatenated is the concatenation of their joins |
| Text.SplitLine | main.py:153 | a line saved as fields joined by a separator and ended by a newline is read back as the same fields |
| EdgeCases.DigitChar | main.py:129 | `str` of a digit is the one character with that digit value |
| EdgeCases.Str | main.py:129 | `str` of an integer is non-empty, made of digits and `-`, one character for a single digit |
| EdgeCases.StrValue | main.py:129 | reading back `str` of any integer gives the integer |
| EdgeCases.Digit | main.py:158 | `int` of one character succeeds exactly on `'0'`..`'9'` |
| EdgeCases.ParseDigits | main.py:158 | `list(map(int, list(s)))` succeeds exactly when every character is a digit, and then gives each character's value |
| EdgeCases.BoardSlices | main.py:157-158 | the board field is read as eight 8-character slices |
| EdgeCases.ParseLines | main.py:157-158 | the rows are read one by one and stop at the first one with a non-digit; every row read is that slice's digits |
| EdgeCases.LoadTiles | main.py:160-166 | the pieces are read one by one: all of them, or those before the first field with a non-digit (`BadDigit`), or those before the first field `trim_data` cannot handle (`NoCaseSaved`) |
| EdgeCases.CommaRows | main.py:136-140 | the rows each followed by `,`, then `[:-1]`, are the rows joined by `,` |
| EdgeCases.AppendTilesFields | main.py:132-141 | appending the pieces to the board string gives the board and piece fields joined by bars and ended by a bar |
| EdgeCases.EncodeFields | main.py:127-143 | the saved line is the board digits and the pieces' fields joined by bars, with no trailing separator |
| EdgeCases.BoardDigits | main.py:127-131 | for an 8x8 board of digits the board field is 64 digits, and slice n is row n |
| EdgeCases.ParseDigitRow | main.py:158 | a row of digits written out is read back as the same row |
| EdgeCases.ParseBoard | main.py:127-158 | the board field of a digit board is read back as the same board |
| EdgeCases.ParseTile | main.py:165 | a piece field is read back as the same piece |
| EdgeCases.LineFields | main.py:143-153 | stripping and splitting a saved line gives back the board field and the piece fields |
| EdgeCases.LoadFields | main.py:160-166 | the piece fields of saved pieces of at most 5x5 load completely, as the same pieces |
| EdgeCases.SaveLoad | main.py:127-165 | round trip: saving a digit board and pieces of at most 5x5 as the last line and loading slot 0 gives the same board and the same pieces |
| EdgeCases.SlotLine | main.py:153 | slot k reads line k for k in 1 to the number of lines, slot 0 reads the last line, and a slot past the end reads nothing |
| EdgeCases.PiecesStable | main.py:161-166 | the loaded selections hold constructed pieces, and constructing them again changes nothing |
| EdgeCases.ParseLinesStops | main.py:157-158 | once a row fails, the rows after it change nothing |
| EdgeCases.LoadTilesStops | main.py:160-166 | once a piece fails, the fields after it change nothing |
| EdgeCases.BlankSpaces | main.py:258 | `line.strip()` is falsy exactly when the line is all whitespace |
| EdgeCases.FilterExactly | main.py:257-259 | the filter keeps exactly the lines that pass; if every line passes, it keeps them all |
| EdgeCases.FilterAppend | main.py:257-259 | filtering respects concatenation, so the kept lines stay in their original order |
| EdgeCases.RemoveBlankLines | main.py:252-259 | the loop keeps exactly the lines with non-whitespace content, in their original order |
| EdgeCases.AppendRows | main.py:136-138 | the row loop appends each row's digits followed by `,` |
| EdgeCases.Game.WriteBoard | main.py:127-130 | the board loop builds the board's cells as digits, in row-major order |
| EdgeCases.Game.SaveEdgeCase | main.py:125-144 | the written line is the encoding of the board and the selections' pieces, plus a newline |
| EdgeCases.Game.ReadBoard | main.py:156-158 | the board becomes the rows read before the first bad row; the selections are untouched |
| EdgeCases.NewPiece | main.py:161-165 | the new Selection holds the constructed piece, is blank exactly when the trim of the restored data is empty, and has no preview cell pending |
| EdgeCases.Game.AddSelection | main.py:161-166 | one constructed piece is appended to the selections, with its blank flag; whether any preview is pending is unchanged; the board is untouched |
| EdgeCases.Game.ReadSelections | main.py:159-166 | the selections become the constructed pieces read before the first failing field, their blank flags those of the pieces, none with a preview pending; the outcome says why reading stopped |
| EdgeCases.Game.LoadEdgeCase | main.py:149-174 | the board and selections become what the chosen line decodes to, up to the first failure, the selections' blank flags being those of the decoded pieces (the flags `update_tiles` copies into `self.blanks`, main.py:223); a missing slot leaves both untouched and reports no case saved |

## Left out

- Drawing and the event loop: pygame surfaces, geometry, mouse handling,
  `create_selection`, `hover_surface`, `draw_*` and the frame loop. They
  are graphics and user input. `create_tile_surface` keeps only its
  effect on the piece and on `blank`.
- File I/O: the case file is a sequence of lines. `save_edge_case`
  returns the line it appends, `load_edge_case` receives the lines, and
  `remove_blank_lines` maps lines to lines. Opening, writing, seeking and
  counting lines are not modelled.
- Console output: `print_board`, the messages of `make_moves`, "Saved to
  line" and "No case saved to that slot".
- The overlay's RGB triples: each cell holds the set of piece indices
  whose channel was set to 255.
- `load_edge_case`'s `try_to_solve` flag, which it sets from `blanks`, and
  its clearing of the visual overlay: neither is part of the board or the
  selections.
- The geometry arguments of `Selection`: position, size and tile size.
- `copy.deepcopy` is modelled as a fresh array with the same cells. Its
  cost is not modelled.
- `RestoreData` and `TrimData` work on the piece as a value. The source
  extends the row lists of `tile_data` in place, so a caller holding
  those lists sees them grow; this aliasing is not modelled.
- `EdgeCases.Digit` and `EdgeCases.IntValue` accept only the ASCII digits.
  Python's `int` also accepts other Unicode decimal digits, which the
  codec never writes.
- `Tile.Selection.constructor`, `Tile.Selection.TrimData` and
  `Tile.Selection.CreateTileSurface` require a piece that `trim_data` can
  handle (`Trimmable`) and a preview cell inside it. Elsewhere the source
  raises an `IndexError`. The loader models that error as the outcome
  `NoCaseSaved`, before it calls the constructor.
- `Tile.TrimmedPiece`, `Tile.NormalizedPiece` and `Tile.BlankIffZero` are
  stated for pieces of at most 5x5 cells. A taller loaded piece is trimmed
  as `trim_data` does it, but the model promises no tightness for it,
  since `min_x` stops at 6.
- `Engine.AddTile` always takes an overlay. When the source's
  `visual_overlay` is left as `None`, as in the human move at
  main.py:94-95, `add_tile` paints a fresh 8x8 overlay that nobody reads
  afterwards. A caller of the model supplies such a fresh overlay and
  discards it.
