/** The replay "case lines" of main.py. A saved case is one line of text:
    the 64 board digits row by row, then for each of the three pieces a
    `|` and its rows' digit strings separated by `,`. Loading a slot reads
    such a line back into the board and three fresh selections, and the
    start-up clean-up drops blank lines from the file. */
module EdgeCases {
  import opened Wrappers
  import opened Text
  import opened Grids
  import opened Tile

  // ---------------------------------------------------------------------
  // str(int) and int(str)
  // ---------------------------------------------------------------------

  function DigitChar(d: int): (c: char)
    requires 0 <= d <= 9
    ensures '0' <= c <= '9' && c as int - '0' as int == d
  {
    (d + '0' as int) as char
  }

  /** The characters `str` writes for an int. */
  predicate CodeChar(c: char)
  {
    '0' <= c <= '9' || c == '-'
  }

  /** `str(n)` for n >= 0: its decimal digits. */
  function NatStr(n: nat): (s: string)
    ensures |s| > 0 && forall k :: 0 <= k < |s| ==> '0' <= s[k] <= '9'
    ensures n < 10 ==> s == [DigitChar(n)]
  {
    if n < 10 then [DigitChar(n)] else NatStr(n / 10) + [DigitChar(n % 10)]
  }

  /** `str(n)`. */
  function Str(n: int): (s: string)
    ensures |s| > 0 && forall k :: 0 <= k < |s| ==> CodeChar(s[k])
    ensures 0 <= n <= 9 ==> s == [DigitChar(n)]
  {
    if n < 0 then "-" + NatStr(-n) else NatStr(n)
  }

  /** `int(s)` on a string of decimal digits. */
  function DecimalValue(s: string): int
  {
    if |s| == 0 then 0 else 10 * DecimalValue(s[..|s| - 1]) + (s[|s| - 1] as int - '0' as int)
  }

  /** `int(s)` on an optionally signed string of decimal digits. */
  function IntValue(s: string): int
  {
    if |s| > 0 && s[0] == '-' then -DecimalValue(s[1..]) else DecimalValue(s)
  }

  lemma {:induction false} NatStrValue(n: nat)
    ensures DecimalValue(NatStr(n)) == n
    decreases n
  {
    if n >= 10 {
      NatStrValue(n / 10);
      var s := NatStr(n);
      assert s[..|s| - 1] == NatStr(n / 10);
    }
  }

  /** `int(str(n)) == n`. */
  lemma StrValue(n: int)
    ensures IntValue(Str(n)) == n
  {
    if n < 0 {
      NatStrValue(-n);
      assert Str(n)[1..] == NatStr(-n);
    } else {
      NatStrValue(n);
    }
  }

  // ---------------------------------------------------------------------
  // save_edge_case: building the line
  // ---------------------------------------------------------------------

  /** `"".join(map(str, row))`. */
  function RowString(row: seq<int>): string
  {
    Concat(seq(|row|, j requires 0 <= j < |row| => Str(row[j])))
  }

  /** A row is written with digits and minus signs only. */
  lemma RowStringChars(row: seq<int>)
    ensures forall k :: 0 <= k < |RowString(row)| ==> CodeChar(RowString(row)[k])
  {
    ConcatKeeps(seq(|row|, j requires 0 <= j < |row| => Str(row[j])), CodeChar);
  }

  /** The row strings of a grid, one per row. */
  function RowStrings(g: Cells): (ss: seq<string>)
  {
    seq(|g|, i requires 0 <= i < |g| => RowString(g[i]))
  }

  /** The board part of the line: every row's digits, back to back. */
  function BoardString(board: Cells): string
  {
    Concat(RowStrings(board))
  }

  /** What the inner loop adds for one piece: each row's digits followed
      by a comma. */
  function RowsWithCommas(t: Cells): string
  {
    Concat(CommaRowStrings(t))
  }

  function CommaRowStrings(t: Cells): seq<string>
  {
    seq(|t|, i requires 0 <= i < |t| => RowString(t[i]) + ",")
  }

  /** One pass of the outer loop: the piece's rows, the last comma cut off
      by `[:-1]`, then a `|`. */
  function AppendTile(s: string, t: Cells): string
  {
    DropLast(s + RowsWithCommas(t)) + "|"
  }

  function AppendTiles(s: string, tiles: seq<Cells>): string
  {
    if |tiles| == 0 then s
    else AppendTile(AppendTiles(s, tiles[..|tiles| - 1]), tiles[|tiles| - 1])
  }

  /** The line `save_edge_case` writes, without its newline: the board
      digits and a `|`, every piece in turn, then the last character cut
      off. */
  function Encode(board: Cells, tiles: seq<Cells>): string
  {
    DropLast(AppendTiles(BoardString(board) + "|", tiles))
  }

  /** The field a piece becomes: its row strings joined by commas. */
  function TileField(t: Cells): string
  {
    Join(RowStrings(t), ',')
  }

  function TileFields(tiles: seq<Cells>): seq<string>
  {
    seq(|tiles|, k requires 0 <= k < |tiles| => TileField(tiles[k]))
  }

  /** A piece's rows each followed by a comma are its field and a comma. */
  lemma CommaRows(t: Cells)
    requires |t| > 0
    ensures RowsWithCommas(t) == TileField(t) + ","
  {
    var rs := RowStrings(t);
    assert CommaRowStrings(t) == seq(|rs|, k requires 0 <= k < |rs| => rs[k] + [',']);
    ConcatTerminated(rs, ',');
  }

  /** After the pieces the line so far is the board string and their
      fields, joined by `|`, and a trailing `|`. */
  lemma {:induction false} AppendTilesFields(b: string, tiles: seq<Cells>)
    requires forall k :: 0 <= k < |tiles| ==> |tiles[k]| > 0
    ensures AppendTiles(b + "|", tiles) == Join([b] + TileFields(tiles), '|') + "|"
    decreases |tiles|
  {
    if |tiles| == 0 {
      assert [b] + TileFields(tiles) == [b];
    } else {
      AppendTilesFields(b, tiles[..|tiles| - 1]);
      AppendLastTile(b + "|", [b] + TileFields(tiles[..|tiles| - 1]), tiles);
      FieldsSnoc(b, tiles);
    }
  }

  /** The last piece appended after fields joined by `|` and a trailing `|`. */
  lemma AppendLastTile(s: string, pre: seq<string>, tiles: seq<Cells>)
    requires |pre| > 0 && |tiles| > 0 && |tiles[|tiles| - 1]| > 0
    requires AppendTiles(s, tiles[..|tiles| - 1]) == Join(pre, '|') + "|"
    ensures AppendTiles(s, tiles) == Join(pre + [TileField(tiles[|tiles| - 1])], '|') + "|"
  {
    AppendTileStep(AppendTiles(s, tiles[..|tiles| - 1]), pre, tiles[|tiles| - 1]);
  }

  lemma FieldsSnoc(b: string, tiles: seq<Cells>)
    requires |tiles| > 0
    ensures [b] + TileFields(tiles[..|tiles| - 1]) + [TileField(tiles[|tiles| - 1])] == [b] + TileFields(tiles)
  {
    TileFieldsSnoc(tiles, |tiles| - 1);
  }

  /** One piece appended after fields joined by `|` and a trailing `|`. */
  lemma AppendTileStep(s: string, pre: seq<string>, t: Cells)
    requires |pre| > 0 && |t| > 0 && s == Join(pre, '|') + "|"
    ensures AppendTile(s, t) == Join(pre + [TileField(t)], '|') + "|"
  {
    CommaRows(t);
    Reassociate(s, s + TileField(t), TileField(t), ",", RowsWithCommas(t));
    JoinSnoc(pre, TileField(t), '|');
  }

  lemma TileFieldsSnoc(tiles: seq<Cells>, n: nat)
    requires n < |tiles|
    ensures TileFields(tiles[..n + 1]) == TileFields(tiles[..n]) + [TileField(tiles[n])]
  {
  }

  /** The saved line is the board string followed by one `|`-separated
      field per piece, each piece's rows separated by commas. */
  lemma EncodeFields(board: Cells, tiles: seq<Cells>)
    requires forall k :: 0 <= k < |tiles| ==> |tiles[k]| > 0
    ensures Encode(board, tiles) == Join([BoardString(board)] + TileFields(tiles), '|')
  {
    AppendTilesFields(BoardString(board), tiles);
  }

  predicate DigitCells(g: Cells)
  {
    forall i, j :: 0 <= i < |g| && 0 <= j < |g[i]| ==> 0 <= g[i][j] <= 9
  }

  /** A row of single digits is written one character per cell. */
  lemma DigitRow(row: seq<int>)
    requires forall j :: 0 <= j < |row| ==> 0 <= row[j] <= 9
    ensures RowString(row) == seq(|row|, j requires 0 <= j < |row| => DigitChar(row[j]))
  {
    var cs := seq(|row|, j requires 0 <= j < |row| => DigitChar(row[j]));
    assert seq(|row|, j requires 0 <= j < |row| => Str(row[j])) ==
      seq(|cs|, j requires 0 <= j < |cs| => [cs[j]]);
    ConcatChars(cs);
  }

  /** For an 8x8 board of single digits the line starts with 64 digits:
      row n is the characters 8n to 8n + 7. */
  lemma BoardDigits(board: Cells, n: nat)
    requires Is8x8(board) && DigitCells(board) && n < Size
    ensures |BoardString(board)| == 64
    ensures Slice(BoardString(board), n * 8, (n + 1) * 8) == RowString(board[n])
    ensures forall k :: 0 <= k < |BoardString(board)| ==> '0' <= BoardString(board)[k] <= '9'
  {
    var rs := RowStrings(board);
    forall i | 0 <= i < Size
      ensures |rs[i]| == Size && forall k :: 0 <= k < Size ==> '0' <= rs[i][k] <= '9'
    {
      DigitRow(board[i]);
    }
    ConcatUniform(rs, Size, n);
    ConcatUniform(rs, Size, Size);
    assert rs[..Size] == rs;
    ConcatAt(rs, n);
    ConcatKeeps(rs, c => '0' <= c <= '9');
  }

  // ---------------------------------------------------------------------
  // load_edge_case: reading the line back
  // ---------------------------------------------------------------------

  /** `int(c)` for one character. */
  function Digit(c: char): (r: Option<int>)
    ensures r.Some? <==> '0' <= c <= '9'
  {
    if '0' <= c <= '9' then Some(c as int - '0' as int) else None
  }

  /** `list(map(int, list(s)))`: None when a character is not a digit,
      which raises a ValueError. */
  function ParseDigits(s: string): (r: Option<seq<int>>)
    ensures r.Some? <==> forall k :: 0 <= k < |s| ==> '0' <= s[k] <= '9'
    ensures r.Some? ==>
      |r.value| == |s| && forall k :: 0 <= k < |s| ==> r.value[k] == s[k] as int - '0' as int
  {
    if |s| == 0 then Some([])
    else
      match ParseDigits(s[..|s| - 1])
      case None => None
      case Some(init) =>
        match Digit(s[|s| - 1])
        case None => None
        case Some(d) => Some(init + [d])
  }

  /** Strings parsed one after another until one holds a non-digit. */
  datatype Parsed = Parsed(rows: seq<seq<int>>, complete: bool)

  /** The rows parsed before the first failure, and whether there was
      none: the state a list comprehension or an appending loop of
      `list(map(int, ...))` leaves behind. */
  function ParseLines(ss: seq<string>): (p: Parsed)
    ensures p.complete ==> |p.rows| == |ss|
    ensures !p.complete ==> |p.rows| < |ss| && ParseDigits(ss[|p.rows|]).None?
    ensures forall k :: 0 <= k < |p.rows| ==> ParseDigits(ss[k]) == Some(p.rows[k])
  {
    if |ss| == 0 then Parsed([], true)
    else
      var pre := ParseLines(ss[..|ss| - 1]);
      if !pre.complete then pre
      else
        match ParseDigits(ss[|ss| - 1])
        case None => Parsed(pre.rows, false)
        case Some(row) => Parsed(pre.rows + [row], true)
  }

  /** The eight board slices `board_str[n * 8:(n + 1) * 8]`. */
  function BoardSlices(boardStr: string): (ss: seq<string>)
    ensures |ss| == Size
  {
    seq(Size, n requires 0 <= n < Size => Slice(boardStr, n * 8, (n + 1) * 8))
  }

  /** `[list(map(int, list(j))) for j in field.split(",")]`. */
  function TileRows(field: string): Parsed
  {
    ParseLines(Split(field, ','))
  }

  /** How loading ended: the case was read; an IndexError was caught ("No
      case saved to that slot"); or a ValueError from a non-digit
      character, which nothing catches. */
  datatype Outcome = Loaded | NoCaseSaved | BadDigit

  datatype TileLoad = TileLoad(outcome: Outcome, tiles: seq<Cells>)

  /** The selections loop: each field is parsed and handed to a new
      Selection; the first field with a non-digit, or one that trimming
      cannot index, ends the loop. The pieces are those handed over. */
  function LoadTiles(fields: seq<string>): (r: TileLoad)
    ensures |r.tiles| <= |fields|
    ensures r.outcome == Loaded <==> |r.tiles| == |fields|
    ensures forall k :: 0 <= k < |r.tiles| ==>
      TileRows(fields[k]) == Parsed(r.tiles[k], true) && Trimmable(r.tiles[k])
    ensures r.outcome == BadDigit ==> !TileRows(fields[|r.tiles|]).complete
    ensures r.outcome == NoCaseSaved ==>
      TileRows(fields[|r.tiles|]).complete && !Trimmable(TileRows(fields[|r.tiles|]).rows)
  {
    if |fields| == 0 then TileLoad(Loaded, [])
    else
      var pre := LoadTiles(fields[..|fields| - 1]);
      var rows := TileRows(fields[|fields| - 1]);
      if pre.outcome != Loaded then pre
      else if !rows.complete then TileLoad(BadDigit, pre.tiles)
      else if !Trimmable(rows.rows) then TileLoad(NoCaseSaved, pre.tiles)
      else TileLoad(Loaded, pre.tiles + [rows.rows])
  }

  /** The pieces the new selections hold: each loaded piece as the
      Selection constructor leaves it. */
  function Pieces(raw: seq<Cells>): (ps: seq<Cells>)
    requires forall k :: 0 <= k < |raw| ==> Trimmable(raw[k])
  {
    seq(|raw|, k requires 0 <= k < |raw| => Normalized(raw[k]))
  }

  lemma PiecesSnoc(raw: seq<Cells>, d: Cells)
    requires forall k :: 0 <= k < |raw| ==> Trimmable(raw[k])
    requires Trimmable(d)
    ensures Pieces(raw + [d]) == Pieces(raw) + [Normalized(d)]
  {
  }

  /** Pieces a game holds are their own normal form, so saving and loading
      them again rebuilds the same selections. */
  lemma PiecesStable(raw: seq<Cells>)
    requires forall k :: 0 <= k < |raw| ==> Fits(raw[k])
    ensures forall k :: 0 <= k < |raw| ==> Trimmable(raw[k])
    ensures forall k :: 0 <= k < |Pieces(raw)| ==> Fits(Pieces(raw)[k]) && Trimmable(Pieces(raw)[k])
    ensures Pieces(Pieces(raw)) == Pieces(raw)
  {
    forall k | 0 <= k < |raw|
      ensures Trimmable(raw[k]) && Fits(Normalized(raw[k]))
      ensures Trimmable(Normalized(raw[k])) && Normalized(Normalized(raw[k])) == Normalized(raw[k])
    {
      NormalizedPiece(raw[k]);
      NormalizedPiece(Normalized(raw[k]));
    }
  }

  /** `cases[slot - 1]`, Python's negative indices included; None where
      the index raises an IndexError. */
  function CaseAt(cases: seq<string>, slot: int): Option<string>
  {
    var i := slot - 1;
    if 0 <= i < |cases| then Some(cases[i])
    else if -|cases| <= i < 0 then Some(cases[|cases| + i])
    else None
  }

  /** Slot k of 1 to the number of lines reads line k, slot 0 the last
      line, and a slot past the end nothing. */
  lemma SlotLine(cases: seq<string>, slot: int)
    ensures 1 <= slot <= |cases| ==> CaseAt(cases, slot) == Some(cases[slot - 1])
    ensures slot == 0 && |cases| > 0 ==> CaseAt(cases, slot) == Some(cases[|cases| - 1])
    ensures slot > |cases| || (slot == 0 && |cases| == 0) ==> CaseAt(cases, slot) == None
  {
  }

  /** What `load_edge_case` does to the game: the outcome, the new board
      (None: left as it was) and the new selections' pieces (None: left
      as they were). */
  datatype Loading = Loading(outcome: Outcome, board: Option<Cells>, tiles: Option<seq<Cells>>)

  function LoadCase(cases: seq<string>, slot: int): Loading
  {
    match CaseAt(cases, slot)
    case None => Loading(NoCaseSaved, None, None)
    case Some(line) =>
      var fields := Split(Strip(line), '|');
      var b := ParseLines(BoardSlices(fields[0]));
      if !b.complete then Loading(BadDigit, Some(b.rows), None)
      else
        var t := LoadTiles(fields[1..]);
        Loading(t.outcome, Some(b.rows), Some(t.tiles))
  }

  /** A row of digits written with `str` and read back with
      `list(map(int, ...))` is the same row. */
  lemma ParseDigitRow(row: seq<int>)
    requires forall j :: 0 <= j < |row| ==> 0 <= row[j] <= 9
    ensures ParseDigits(RowString(row)) == Some(row)
  {
    DigitRow(row);
    var r := ParseDigits(RowString(row));
    assert r.Some?;
    assert r.value == row;
  }

  /** The same for a grid of digits, row by row. */
  lemma ParseRowStrings(g: Cells)
    requires DigitCells(g)
    ensures ParseLines(RowStrings(g)) == Parsed(g, true)
  {
    var rs := RowStrings(g);
    forall i | 0 <= i < |g|
      ensures ParseDigits(rs[i]) == Some(g[i])
    {
      ParseDigitRow(g[i]);
    }
    var p := ParseLines(rs);
    assert p.rows == g by {
      forall i | 0 <= i < |g|
        ensures p.rows[i] == g[i]
      {
        assert ParseDigits(rs[i]) == Some(p.rows[i]);
      }
    }
  }

  /** An 8x8 board of digits comes back from its string. */
  lemma ParseBoard(board: Cells)
    requires Is8x8(board) && DigitCells(board)
    ensures ParseLines(BoardSlices(BoardString(board))) == Parsed(board, true)
  {
    forall n | 0 <= n < Size
      ensures BoardSlices(BoardString(board))[n] == RowStrings(board)[n]
    {
      BoardDigits(board, n);
    }
    assert BoardSlices(BoardString(board)) == RowStrings(board);
    ParseRowStrings(board);
  }

  /** A piece of digits with at least one row comes back from its field. */
  lemma ParseTile(t: Cells)
    requires |t| > 0 && DigitCells(t)
    ensures TileRows(TileField(t)) == Parsed(t, true)
  {
    var rs := RowStrings(t);
    forall i | 0 <= i < |rs|
      ensures ',' !in rs[i]
    {
      RowStringChars(t[i]);
    }
    SplitJoin(rs, ',');
    ParseRowStrings(t);
  }

  /** A piece's field holds neither a `|` nor white space. */
  lemma TileFieldChars(t: Cells)
    ensures forall k :: 0 <= k < |TileField(t)| ==> TileField(t)[k] != '|' && !IsSpace(TileField(t)[k])
  {
    var rs := RowStrings(t);
    forall i | 0 <= i < |rs|
      ensures forall k :: 0 <= k < |rs[i]| ==> CodeChar(rs[i][k])
    {
      RowStringChars(t[i]);
    }
    JoinKeeps(rs, ',', c => CodeChar(c) || c == ',');
  }

  /** The saved line, read back with its newline, stripped and split at
      `|`, gives the board string and one field per piece. */
  lemma LineFields(board: Cells, tiles: seq<Cells>)
    requires Is8x8(board) && DigitCells(board)
    requires forall k :: 0 <= k < |tiles| ==> |tiles[k]| > 0
    ensures Split(Strip(Encode(board, tiles) + "\n"), '|') == [BoardString(board)] + TileFields(tiles)
  {
    EncodeFields(board, tiles);
    BoardDigits(board, 0);
    SplitFields(BoardString(board), tiles);
  }

  /** A string of digits and the fields of pieces, joined by `|`, split
      back into the same parts. */
  lemma SplitFields(b: string, tiles: seq<Cells>)
    requires forall k :: 0 <= k < |b| ==> '0' <= b[k] <= '9'
    ensures Split(Strip(Join([b] + TileFields(tiles), '|') + "\n"), '|') == [b] + TileFields(tiles)
  {
    var parts := [b] + TileFields(tiles);
    forall i | 0 <= i < |parts|
      ensures '|' !in parts[i] && forall m :: 0 <= m < |parts[i]| ==> !IsSpace(parts[i][m])
    {
      if i > 0 {
        TileFieldChars(tiles[i - 1]);
        assert parts[i] == TileField(tiles[i - 1]);
      }
    }
    SplitLine(parts, '|');
  }

  /** The fields of pieces of digits that fit the editor load back as
      those pieces. */
  lemma LoadFields(tiles: seq<Cells>)
    requires forall k :: 0 <= k < |tiles| ==> Fits(tiles[k]) && DigitCells(tiles[k])
    ensures LoadTiles(TileFields(tiles)) == TileLoad(Loaded, tiles)
  {
    var fs := TileFields(tiles);
    forall k | 0 <= k < |tiles|
      ensures TileRows(fs[k]) == Parsed(tiles[k], true) && Trimmable(tiles[k])
    {
      ParseTile(tiles[k]);
      NormalizedPiece(tiles[k]);
    }
    var t := LoadTiles(fs);
    assert t.tiles == tiles by {
      forall k | 0 <= k < |tiles|
        ensures t.tiles[k] == tiles[k]
      {
        assert TileRows(fs[k]) == Parsed(t.tiles[k], true);
      }
    }
  }

  /** Round trip: writing an 8x8 board of digits and pieces of digits that
      fit the editor, and loading the line back from slot 0 (the last line
      of the file), gives the same board and the same pieces. */
  lemma SaveLoad(cases: seq<string>, board: Cells, tiles: seq<Cells>)
    requires Is8x8(board) && DigitCells(board)
    requires forall k :: 0 <= k < |tiles| ==> Fits(tiles[k]) && DigitCells(tiles[k])
    ensures LoadCase(cases + [Encode(board, tiles) + "\n"], 0) ==
      Loading(Loaded, Some(board), Some(tiles))
  {
    var fields := [BoardString(board)] + TileFields(tiles);
    LineFields(board, tiles);
    assert fields[1..] == TileFields(tiles);
    ParseBoard(board);
    LoadFields(tiles);
  }

  /** Parsing stops for good at the first bad string. */
  lemma {:induction false} ParseLinesStops(ss: seq<string>, n: nat)
    requires n <= |ss| && !ParseLines(ss[..n]).complete
    ensures ParseLines(ss) == ParseLines(ss[..n])
    decreases |ss|
  {
    if |ss| == n {
      assert ss[..n] == ss;
    } else {
      assert ss[..|ss| - 1][..n] == ss[..n];
      ParseLinesStops(ss[..|ss| - 1], n);
    }
  }

  /** One more string parsed after a complete prefix. */
  lemma ParseLinesStep(ss: seq<string>, n: nat)
    requires n < |ss| && ParseLines(ss[..n]).complete
    ensures ParseLines(ss[..n + 1]) ==
      match ParseDigits(ss[n])
      case None => Parsed(ParseLines(ss[..n]).rows, false)
      case Some(row) => Parsed(ParseLines(ss[..n]).rows + [row], true)
  {
    assert ss[..n + 1][..n] == ss[..n];
  }

  /** A string that parses extends a complete prefix by its row. */
  lemma ParseLinesGrow(ss: seq<string>, n: nat, rows: seq<seq<int>>, row: seq<int>)
    requires n < |ss| && ParseLines(ss[..n]) == Parsed(rows, true)
    requires ParseDigits(ss[n]) == Some(row)
    ensures ParseLines(ss[..n + 1]) == Parsed(rows + [row], true)
  {
    ParseLinesStep(ss, n);
  }

  /** A string that does not parse after a complete prefix ends parsing
      with the prefix's rows. */
  lemma ParseLinesFail(ss: seq<string>, n: nat, rows: seq<seq<int>>)
    requires n < |ss| && ParseLines(ss[..n]) == Parsed(rows, true)
    requires ParseDigits(ss[n]).None?
    ensures ParseLines(ss) == Parsed(rows, false)
  {
    ParseLinesStep(ss, n);
    ParseLinesStops(ss, n + 1);
  }

  /** One more field loaded after a prefix that loaded. */
  lemma LoadTilesStep(fields: seq<string>, n: nat)
    requires n < |fields| && LoadTiles(fields[..n]).outcome == Loaded
    ensures var pre := LoadTiles(fields[..n]).tiles; var rows := TileRows(fields[n]);
      LoadTiles(fields[..n + 1]) ==
        if !rows.complete then TileLoad(BadDigit, pre)
        else if !Trimmable(rows.rows) then TileLoad(NoCaseSaved, pre)
        else TileLoad(Loaded, pre + [rows.rows])
  {
    assert fields[..n + 1][..n] == fields[..n];
  }

  /** Loading the pieces stops for good at the first bad field. */
  lemma {:induction false} LoadTilesStops(fields: seq<string>, n: nat)
    requires n <= |fields| && LoadTiles(fields[..n]).outcome != Loaded
    ensures LoadTiles(fields) == LoadTiles(fields[..n])
    decreases |fields|
  {
    if |fields| == n {
      assert fields[..n] == fields;
    } else {
      assert fields[..|fields| - 1][..n] == fields[..n];
      LoadTilesStops(fields[..|fields| - 1], n);
    }
  }

  // ---------------------------------------------------------------------
  // remove_blank_lines
  // ---------------------------------------------------------------------

  /** `line.strip()` is truthy. */
  predicate NonBlank(line: string)
  {
    Strip(line) != ""
  }

  /** The elements of xs that keep holds for, in their order. */
  function Filter<T>(xs: seq<T>, keep: T -> bool): (ys: seq<T>)
    ensures |ys| <= |xs|
  {
    if |xs| == 0 then []
    else
      Filter(xs[..|xs| - 1], keep) +
      (if keep(xs[|xs| - 1]) then [xs[|xs| - 1]] else [])
  }

  /** The lines `remove_blank_lines` writes back. */
  function KeptLines(lines: seq<string>): seq<string>
  {
    Filter(lines, NonBlank)
  }

  /** A line is blank exactly when it is all whitespace. */
  lemma BlankSpaces(line: string)
    ensures !NonBlank(line) <==> forall k :: 0 <= k < |line| ==> IsSpace(line[k])
  {
    StripEmpty(line);
  }

  /** Filtering keeps the order: filtering two parts gives what filtering
      the first gives followed by what filtering the second gives. */
  lemma {:induction false} FilterAppend<T>(a: seq<T>, b: seq<T>, keep: T -> bool)
    ensures Filter(a + b, keep) == Filter(a, keep) + Filter(b, keep)
    decreases |b|
  {
    if |b| == 0 {
      assert a + b == a;
    } else {
      var init := b[..|b| - 1];
      assert (a + b)[..|a + b| - 1] == a + init;
      FilterAppend(a, init, keep);
    }
  }

  /** Exactly the elements keep holds for are kept, and a sequence whose
      every element passes is left as it is. */
  lemma {:induction false} FilterExactly<T>(xs: seq<T>, keep: T -> bool)
    ensures forall x :: x in Filter(xs, keep) <==> x in xs && keep(x)
    ensures (forall k :: 0 <= k < |xs| ==> keep(xs[k])) ==> Filter(xs, keep) == xs
    decreases |xs|
  {
    if |xs| > 0 {
      var init := xs[..|xs| - 1];
      FilterExactly(init, keep);
      assert xs == init + [xs[|xs| - 1]];
    }
  }

  /** `remove_blank_lines`, over the file's lines. */
  method RemoveBlankLines(lines: seq<string>) returns (kept: seq<string>)
    ensures kept == KeptLines(lines)
  {
    kept := [];
    for i := 0 to |lines|
      invariant kept == Filter(lines[..i], NonBlank)
    {
      assert lines[..i + 1][..i] == lines[..i];
      if Strip(lines[i]) != "" {
        kept := kept + [lines[i]];
      }
    }
    assert lines[..|lines|] == lines;
  }

  // ---------------------------------------------------------------------
  // The game's case commands
  // ---------------------------------------------------------------------

  /** The pieces of a sequence of selections. */
  function TileDatas(ss: seq<Selection>): (ds: seq<Cells>)
    reads ss
  {
    seq(|ss|, k requires 0 <= k < |ss| reads ss => ss[k].tileData)
  }

  /** The inner loop of `save_edge_case`: each row's digits and a comma
      appended to the line so far. */
  method AppendRows(s: string, data: Cells) returns (s': string)
    ensures s' == s + RowsWithCommas(data)
  {
    s' := s;
    ghost var parts := CommaRowStrings(data);
    for r := 0 to |data|
      invariant s' == s + Concat(parts[..r])
    {
      ConcatSnoc(parts, r);
      Reassociate(s, s', Concat(parts[..r]), RowString(data[r]) + ",", Concat(parts[..r + 1]));
      s' := s' + (RowString(data[r]) + ",");
    }
    assert parts[..|data|] == parts;
  }

  lemma TileDatasSnoc(ss: seq<Selection>, s: Selection)
    ensures TileDatas(ss + [s]) == TileDatas(ss) + [s.tileData]
  {
  }

  /** The `blank` flags of the selections, in order: what `self.blanks`
      is built from. */
  function Blanks(ss: seq<Selection>): (bs: seq<bool>)
    reads ss
  {
    seq(|ss|, k requires 0 <= k < |ss| reads ss => ss[k].blank)
  }

  /** The blank flags that loading the pieces `raw` gives. */
  function BlankFlags(raw: seq<Cells>): (bs: seq<bool>)
    requires forall k :: 0 <= k < |raw| ==> Trimmable(raw[k])
  {
    seq(|raw|, k requires 0 <= k < |raw| => BlankPiece(raw[k]))
  }

  /** No selection carries a pending preview offset. */
  predicate NoPending(ss: seq<Selection>)
    reads ss
  {
    forall k :: 0 <= k < |ss| ==> ss[k].bufferRow == NoPreview && ss[k].bufferCol == 0
  }

  lemma SelectionsSnoc(ss: seq<Selection>, s: Selection)
    ensures Blanks(ss + [s]) == Blanks(ss) + [s.blank]
    ensures NoPending(ss + [s]) <==>
      NoPending(ss) && s.bufferRow == NoPreview && s.bufferCol == 0
  {
    assert forall k :: 0 <= k < |ss| ==> (ss + [s])[k] == ss[k];
    assert (ss + [s])[|ss|] == s;
  }

  lemma BlankFlagsSnoc(raw: seq<Cells>, d: Cells)
    requires forall k :: 0 <= k < |raw| ==> Trimmable(raw[k])
    requires Trimmable(d)
    ensures BlankFlags(raw + [d]) == BlankFlags(raw) + [BlankPiece(d)]
  {
  }

  lemma AppendTilesSnoc(s: string, tiles: seq<Cells>, k: nat)
    requires k < |tiles|
    ensures AppendTiles(s, tiles[..k + 1]) == AppendTile(AppendTiles(s, tiles[..k]), tiles[k])
  {
    assert tiles[..k + 1][..k] == tiles[..k];
  }

  /** `Selection(..., tile_data)` as the loader calls it: a fresh
      selection holding the piece in its normal form. */
  method NewPiece(data: Cells) returns (s: Selection)
    requires Trimmable(data)
    ensures fresh(s) && s.tileData == Normalized(data)
    ensures s.blank == BlankPiece(data)
    ensures s.bufferRow == NoPreview && s.bufferCol == 0
  {
    s := new Selection(Some(data));
  }

  class Game {
    var board: Cells
    var selections: seq<Selection>

    /** The board loop of `save_edge_case`. */
    method WriteBoard() returns (s: string)
      ensures s == BoardString(board)
    {
      s := "";
      var rs := RowStrings(board);
      for r := 0 to |board|
        invariant s == Concat(rs[..r])
      {
        ConcatSnoc(rs, r);
        s := s + RowString(board[r]);
      }
      assert rs[..|board|] == rs;
    }

    /** `save_edge_case`: the line appended to the cases file. */
    method SaveEdgeCase() returns (line: string)
      ensures line == Encode(board, TileDatas(selections)) + "\n"
    {
      var boardString := WriteBoard();
      boardString := boardString + "|";
      ghost var start := boardString;
      ghost var datas := TileDatas(selections);
      for k := 0 to |selections|
        invariant boardString == AppendTiles(start, datas[..k])
      {
        AppendTilesSnoc(start, datas, k);
        boardString := AppendRows(boardString, selections[k].tileData);
        boardString := DropLast(boardString);
        boardString := boardString + "|";
      }
      assert datas[..|selections|] == datas;
      boardString := DropLast(boardString);
      line := boardString + "\n";
    }

    /** The board loop of `load_edge_case`: the board is cleared and row n
        appended from `board_str[n * 8:(n + 1) * 8]`, until a character is
        not a digit. */
    method ReadBoard(boardStr: string) returns (ok: bool)
      modifies this
      ensures ok == ParseLines(BoardSlices(boardStr)).complete
      ensures board == ParseLines(BoardSlices(boardStr)).rows
      ensures selections == old(selections)
    {
      ghost var slices := BoardSlices(boardStr);
      board := [];
      for n := 0 to Size
        invariant ParseLines(slices[..n]) == Parsed(board, true)
        invariant selections == old(selections)
      {
        var row := ParseDigits(Slice(boardStr, n * 8, (n + 1) * 8));
        if row.None? {
          ParseLinesFail(slices, n, board);
          return false;
        }
        ParseLinesGrow(slices, n, board, row.value);
        board := board + [row.value];
      }
      assert slices[..Size] == slices;
      return true;
    }

    /** `self.selections.append(Selection(data))` for one parsed field. */
    method AddSelection(data: Cells)
      requires Trimmable(data)
      modifies this
      ensures board == old(board)
      ensures TileDatas(selections) == old(TileDatas(selections)) + [Normalized(data)]
      ensures Blanks(selections) == old(Blanks(selections)) + [BlankPiece(data)]
      ensures NoPending(selections) == old(NoPending(selections))
    {
      var s := NewPiece(data);
      ghost var before := selections;
      selections := selections + [s];
      TileDatasSnoc(before, s);
      SelectionsSnoc(before, s);
    }

    /** The selections loop of `load_edge_case`: the selections are
        cleared and a new Selection appended per field, until a field
        holds a non-digit or cannot be trimmed. */
    method ReadSelections(fields: seq<string>) returns (outcome: Outcome)
      modifies this
      ensures board == old(board)
      ensures outcome == LoadTiles(fields).outcome
      ensures TileDatas(selections) == Pieces(LoadTiles(fields).tiles)
      ensures Blanks(selections) == BlankFlags(LoadTiles(fields).tiles)
      ensures NoPending(selections)
    {
      selections := [];
      ghost var raw: seq<Cells> := [];
      for n := 0 to |fields|
        invariant board == old(board)
        invariant LoadTiles(fields[..n]) == TileLoad(Loaded, raw)
        invariant TileDatas(selections) == Pieces(raw)
        invariant Blanks(selections) == BlankFlags(raw)
        invariant NoPending(selections)
      {
        var rows := ParseLines(Split(fields[n], ','));
        LoadTilesStep(fields, n);
        if !rows.complete {
          LoadTilesStops(fields, n + 1);
          return BadDigit;
        }
        if !Trimmable(rows.rows) {
          // the IndexError trimming raises inside the Selection constructor
          LoadTilesStops(fields, n + 1);
          return NoCaseSaved;
        }
        AddSelection(rows.rows);
        PiecesSnoc(raw, rows.rows);
        BlankFlagsSnoc(raw, rows.rows);
        raw := raw + [rows.rows];
      }
      assert fields[..|fields|] == fields;
      return Loaded;
    }

    /** `load_edge_case(slot)` over the lines of the cases file. */
    method LoadEdgeCase(cases: seq<string>, slot: int) returns (outcome: Outcome)
      modifies this
      ensures var r := LoadCase(cases, slot);
        outcome == r.outcome &&
        board == (if r.board.Some? then r.board.value else old(board)) &&
        (r.tiles.Some? ==> TileDatas(selections) == Pieces(r.tiles.value)) &&
        (r.tiles.None? ==> TileDatas(selections) == old(TileDatas(selections)))
      ensures var r := LoadCase(cases, slot);
        r.tiles.Some? ==> Blanks(selections) == BlankFlags(r.tiles.value) && NoPending(selections)
      ensures LoadCase(cases, slot).tiles.None? ==> selections == old(selections)
    {
      var i := slot - 1;
      if !(-|cases| <= i < |cases|) {
        return NoCaseSaved;
      }
      var line := if i < 0 then cases[|cases| + i] else cases[i];
      assert CaseAt(cases, slot) == Some(line);
      var dataStr := Split(Strip(line), '|');
      var ok := ReadBoard(dataStr[0]);
      if !ok {
        return BadDigit;
      }
      outcome := ReadSelections(dataStr[1..]);
    }
  }
}
