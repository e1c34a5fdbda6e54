/**
 * The backtracking solver of the game (`make_moves` and its inner
 * `backtrack`).
 *
 * `Search` and `TryAnchors` are the search written as pure recursive
 * functions over anchors (row, col), in the order of the nested
 * `for row in range(9): for col in range(9)` loops. `Run` and
 * `Accepts` say independently what a solution is: a sequence of anchors that
 * places the remaining blocks, one valid place-then-clear step each, and
 * meets the clear requirement. The lemmas prove the search sound, complete
 * and first-found in row-major anchor order; the methods do the search on
 * arrays, copying the board before every trial, and promise to agree with
 * the functions.
 */
module Solver {
  import opened Wrappers
  import opened Grids
  import opened Engine

  /** One node of the search: the board, the overlay and the clears so far. */
  datatype State = State(board: Grid, overlay: Tags, clears: int)

  predicate ValidState(s: State)
  {
    Is8x8(s.board) && Is8x8(s.overlay)
  }

  /** Number of blocks placed by one solve. */
  const Blocks := 3

  /** Rows and columns of anchors tried per block: `range(9)` each. */
  const Span := 9

  /** An anchor of `backtrack`'s nested loops; also the loops' cursor, which
      reaches row `Span` when they are done. */
  datatype Anchor = Anchor(row: int, col: int)

  predicate Tried(a: Anchor)
  {
    0 <= a.row < Span && 0 <= a.col < Span
  }

  predicate Cursor(a: Anchor)
  {
    0 <= a.row <= Span && 0 <= a.col <= Span
  }

  /** Row-major order: the order in which the nested loops reach anchors. */
  predicate Before(a: Anchor, b: Anchor)
  {
    a.row < b.row || (a.row == b.row && a.col < b.col)
  }

  /** One trial of `backtrack`: block `tag` at the anchor on a copy of the
      state, then the line clear and the running count. */
  function Step(s: State, block: Grid, tag: int, a: Anchor): (r: Option<State>)
    requires ValidState(s)
    ensures r.Some? ==> ValidState(r.value) && Tried(a)
  {
    if Tried(a) && CanPlace(s.board, block, a.row, a.col) then
      var placed := Place(s.board, block, a.row, a.col);
      Some(State(Cleared(placed), Paint(s.overlay, block, a.row, a.col, tag, false),
                 s.clears + ClearCount(placed)))
    else
      None
  }

  /** The leaf test: all blocks placed and, when clearing is required,
      enough clears. */
  predicate Goal(s: State, mustClear: bool, required: int)
  {
    !mustClear || s.clears >= required
  }

  /** `backtrack` as a function: the first accepted leaf below `s`, the block
      at index `depth` being next. */
  function Search(s: State, tiles: seq<Grid>, depth: nat, mustClear: bool, required: int): Option<State>
    requires ValidState(s) && depth <= Blocks <= |tiles|
    decreases Blocks - depth, Span + 1, 0
  {
    if depth == Blocks then
      if mustClear && s.clears < required then None else Some(s)
    else
      TryAnchors(s, tiles, depth, mustClear, required, Anchor(0, 0))
  }

  /** The nested anchor loops of `backtrack` from cursor `at` on. */
  function TryAnchors(s: State, tiles: seq<Grid>, depth: nat, mustClear: bool, required: int, at: Anchor)
    : Option<State>
    requires ValidState(s) && depth < Blocks <= |tiles| && Cursor(at)
    decreases Blocks - depth, Span - at.row, Span - at.col
  {
    if at.row == Span then None
    else if at.col == Span then TryAnchors(s, tiles, depth, mustClear, required, Anchor(at.row + 1, 0))
    else
      var further := TryAnchors(s, tiles, depth, mustClear, required, Anchor(at.row, at.col + 1));
      match Step(s, tiles[depth], depth, at)
      case None => further
      case Some(next) =>
        var r := Search(next, tiles, depth + 1, mustClear, required);
        if r.Some? then r else further
  }

  /** Placing the blocks from index `depth` on at the given anchors, one
      place-then-clear step each; None as soon as one placement is invalid. */
  function Run(s: State, tiles: seq<Grid>, depth: nat, anchors: seq<Anchor>): (r: Option<State>)
    requires ValidState(s) && depth + |anchors| <= Blocks <= |tiles|
    ensures r.Some? ==> ValidState(r.value)
    decreases |anchors|
  {
    if anchors == [] then Some(s)
    else
      match Step(s, tiles[depth], depth, anchors[0])
      case None => None
      case Some(next) => Run(next, tiles, depth + 1, anchors[1..])
  }

  /** The anchors place every remaining block and the result meets the goal. */
  predicate Accepts(s: State, tiles: seq<Grid>, depth: nat, anchors: seq<Anchor>, mustClear: bool, required: int)
    requires ValidState(s) && depth <= Blocks <= |tiles|
  {
    |anchors| == Blocks - depth &&
    Run(s, tiles, depth, anchors).Some? &&
    Goal(Run(s, tiles, depth, anchors).value, mustClear, required)
  }

  /** Lexicographic order on anchor sequences, anchors compared row-major:
      the order in which the recursion of `backtrack` reaches them. */
  predicate LexLess(x: seq<Anchor>, y: seq<Anchor>)
  {
    |x| > 0 && |y| > 0 &&
    (Before(x[0], y[0]) || (x[0] == y[0] && LexLess(x[1..], y[1..])))
  }

  /** The loops leave a row once its columns are done. */
  lemma TryAnchorsRowEnd(s: State, tiles: seq<Grid>, depth: nat, mustClear: bool, required: int, row: int)
    requires ValidState(s) && depth < Blocks <= |tiles| && 0 <= row < Span
    ensures TryAnchors(s, tiles, depth, mustClear, required, Anchor(row, Span)) ==
      TryAnchors(s, tiles, depth, mustClear, required, Anchor(row + 1, 0))
  {
  }

  /** One turn of the loops: the leaf found below anchor `at`, if any, and
      otherwise the loops from the next column. */
  lemma TryAnchorsAt(s: State, tiles: seq<Grid>, depth: nat, mustClear: bool, required: int, at: Anchor)
    requires ValidState(s) && depth < Blocks <= |tiles| && Tried(at)
    ensures var step := Step(s, tiles[depth], depth, at);
      TryAnchors(s, tiles, depth, mustClear, required, at) ==
        if step.Some? && Search(step.value, tiles, depth + 1, mustClear, required).Some?
        then Search(step.value, tiles, depth + 1, mustClear, required)
        else TryAnchors(s, tiles, depth, mustClear, required, Anchor(at.row, at.col + 1))
  {
  }

  /** Accepting anchors from index `depth` means a valid first step and
      accepting the rest from the state that step reaches. */
  lemma AcceptsStep(s: State, tiles: seq<Grid>, depth: nat, anchors: seq<Anchor>, mustClear: bool, required: int)
    requires ValidState(s) && depth < Blocks <= |tiles| && |anchors| > 0
    ensures Accepts(s, tiles, depth, anchors, mustClear, required) <==>
      Step(s, tiles[depth], depth, anchors[0]).Some? &&
      Accepts(Step(s, tiles[depth], depth, anchors[0]).value, tiles, depth + 1, anchors[1..], mustClear, required)
    ensures |anchors| <= Blocks - depth && Step(s, tiles[depth], depth, anchors[0]).Some? ==>
      Run(s, tiles, depth, anchors) == Run(Step(s, tiles[depth], depth, anchors[0]).value, tiles, depth + 1, anchors[1..])
  {
  }

  /** Completeness: if some anchors are accepted, the search finds a leaf. */
  lemma {:induction false} SearchComplete(s: State, tiles: seq<Grid>, depth: nat, mustClear: bool,
                                          required: int, anchors: seq<Anchor>)
    requires ValidState(s) && depth <= Blocks <= |tiles|
    requires Accepts(s, tiles, depth, anchors, mustClear, required)
    ensures Search(s, tiles, depth, mustClear, required).Some?
    decreases Blocks - depth, Span + 1, 0
  {
    if depth < Blocks {
      TryAnchorsComplete(s, tiles, depth, mustClear, required, Anchor(0, 0), anchors);
    }
  }

  /** Completeness of the anchor loops for anchors whose first entry the
      cursor has not passed. */
  lemma {:induction false} TryAnchorsComplete(s: State, tiles: seq<Grid>, depth: nat, mustClear: bool,
                                              required: int, at: Anchor, anchors: seq<Anchor>)
    requires ValidState(s) && depth < Blocks <= |tiles| && Cursor(at)
    requires Accepts(s, tiles, depth, anchors, mustClear, required) && !Before(anchors[0], at)
    ensures TryAnchors(s, tiles, depth, mustClear, required, at).Some?
    decreases Blocks - depth, Span - at.row, Span - at.col
  {
    AcceptsStep(s, tiles, depth, anchors, mustClear, required);
    var next := Step(s, tiles[depth], depth, anchors[0]).value;
    if anchors[0] == at {
      SearchComplete(next, tiles, depth + 1, mustClear, required, anchors[1..]);
      TryAnchorsAt(s, tiles, depth, mustClear, required, at);
    } else if at.col == Span {
      TryAnchorsComplete(s, tiles, depth, mustClear, required, Anchor(at.row + 1, 0), anchors);
      TryAnchorsRowEnd(s, tiles, depth, mustClear, required, at.row);
    } else {
      TryAnchorsComplete(s, tiles, depth, mustClear, required, Anchor(at.row, at.col + 1), anchors);
      TryAnchorsAt(s, tiles, depth, mustClear, required, at);
    }
  }

  /** Soundness and order: a leaf found by the search is reached by accepted
      anchors, and no accepted anchors come before them. */
  lemma {:induction false} SearchSound(s: State, tiles: seq<Grid>, depth: nat, mustClear: bool, required: int)
    returns (anchors: seq<Anchor>)
    requires ValidState(s) && depth <= Blocks <= |tiles|
    requires Search(s, tiles, depth, mustClear, required).Some?
    ensures Accepts(s, tiles, depth, anchors, mustClear, required)
    ensures Run(s, tiles, depth, anchors) == Search(s, tiles, depth, mustClear, required)
    ensures forall other :: LexLess(other, anchors) ==> !Accepts(s, tiles, depth, other, mustClear, required)
    decreases Blocks - depth, Span + 1, 0
  {
    if depth == Blocks {
      anchors := [];
    } else {
      anchors := TryAnchorsSound(s, tiles, depth, mustClear, required, Anchor(0, 0));
    }
  }

  /** When the search below anchor `at` succeeds, `at` followed by the
      anchors found below is accepted and comes first among those from `at`. */
  lemma {:induction false} FirstAnchorWins(s: State, tiles: seq<Grid>, depth: nat, mustClear: bool,
                                           required: int, at: Anchor, rest: seq<Anchor>)
    requires ValidState(s) && depth < Blocks <= |tiles|
    requires Step(s, tiles[depth], depth, at).Some?
    requires var next := Step(s, tiles[depth], depth, at).value;
      Accepts(next, tiles, depth + 1, rest, mustClear, required) &&
      forall other :: LexLess(other, rest) ==> !Accepts(next, tiles, depth + 1, other, mustClear, required)
    ensures Accepts(s, tiles, depth, [at] + rest, mustClear, required)
    ensures Run(s, tiles, depth, [at] + rest) == Run(Step(s, tiles[depth], depth, at).value, tiles, depth + 1, rest)
    ensures forall other :: LexLess(other, [at] + rest) && !Before(other[0], at) ==>
      !Accepts(s, tiles, depth, other, mustClear, required)
  {
    var anchors := [at] + rest;
    assert anchors[0] == at && anchors[1..] == rest;
    AcceptsStep(s, tiles, depth, anchors, mustClear, required);
    forall other | LexLess(other, anchors) && !Before(other[0], at)
      ensures !Accepts(s, tiles, depth, other, mustClear, required)
    {
      assert other[0] == at && LexLess(other[1..], rest);
      AcceptsStep(s, tiles, depth, other, mustClear, required);
    }
  }

  /** When the search below anchor `at` fails, no accepted anchors start
      there. */
  lemma {:induction false} SkippedAnchorFails(s: State, tiles: seq<Grid>, depth: nat, mustClear: bool,
                                              required: int, at: Anchor)
    requires ValidState(s) && depth < Blocks <= |tiles|
    requires Step(s, tiles[depth], depth, at).None? ||
      Search(Step(s, tiles[depth], depth, at).value, tiles, depth + 1, mustClear, required).None?
    ensures forall other :: |other| > 0 && other[0] == at ==> !Accepts(s, tiles, depth, other, mustClear, required)
  {
    forall other | |other| > 0 && other[0] == at
      ensures !Accepts(s, tiles, depth, other, mustClear, required)
    {
      AcceptsStep(s, tiles, depth, other, mustClear, required);
      var step := Step(s, tiles[depth], depth, at);
      if step.Some? && Accepts(step.value, tiles, depth + 1, other[1..], mustClear, required) {
        SearchComplete(step.value, tiles, depth + 1, mustClear, required, other[1..]);
      }
    }
  }

  /** Accepted anchors the cursor has not passed at the end of a row are not
      before the start of the next row either. */
  lemma RowEndOrder(s: State, tiles: seq<Grid>, depth: nat, mustClear: bool, required: int,
                    at: Anchor, anchors: seq<Anchor>)
    requires ValidState(s) && depth < Blocks <= |tiles| && at.col == Span
    requires forall other :: LexLess(other, anchors) && !Before(other[0], Anchor(at.row + 1, 0)) ==>
      !Accepts(s, tiles, depth, other, mustClear, required)
    ensures forall other :: LexLess(other, anchors) && !Before(other[0], at) ==>
      !Accepts(s, tiles, depth, other, mustClear, required)
  {
    forall other | LexLess(other, anchors) && !Before(other[0], at)
      ensures !Accepts(s, tiles, depth, other, mustClear, required)
    {
      AcceptsStep(s, tiles, depth, other, mustClear, required);
      if Step(s, tiles[depth], depth, other[0]).Some? {
        assert !Before(other[0], Anchor(at.row + 1, 0));
      }
    }
  }

  /** Anchors not before `at` either start at `at` or are not before the
      next column. */
  lemma NextColumnOrder(s: State, tiles: seq<Grid>, depth: nat, mustClear: bool, required: int,
                        at: Anchor, anchors: seq<Anchor>)
    requires ValidState(s) && depth < Blocks <= |tiles|
    requires forall other :: LexLess(other, anchors) && !Before(other[0], Anchor(at.row, at.col + 1)) ==>
      !Accepts(s, tiles, depth, other, mustClear, required)
    requires forall other :: |other| > 0 && other[0] == at ==> !Accepts(s, tiles, depth, other, mustClear, required)
    ensures forall other :: LexLess(other, anchors) && !Before(other[0], at) ==>
      !Accepts(s, tiles, depth, other, mustClear, required)
  {
    forall other | LexLess(other, anchors) && !Before(other[0], at)
      ensures !Accepts(s, tiles, depth, other, mustClear, required)
    {
      if other[0] != at {
        assert !Before(other[0], Anchor(at.row, at.col + 1));
      }
    }
  }

  /** Soundness and order of the anchor loops from cursor `at`. */
  lemma {:induction false} TryAnchorsSound(s: State, tiles: seq<Grid>, depth: nat, mustClear: bool,
                                           required: int, at: Anchor)
    returns (anchors: seq<Anchor>)
    requires ValidState(s) && depth < Blocks <= |tiles| && Cursor(at)
    requires TryAnchors(s, tiles, depth, mustClear, required, at).Some?
    ensures Accepts(s, tiles, depth, anchors, mustClear, required) && !Before(anchors[0], at)
    ensures Run(s, tiles, depth, anchors) == TryAnchors(s, tiles, depth, mustClear, required, at)
    ensures forall other :: LexLess(other, anchors) && !Before(other[0], at) ==>
      !Accepts(s, tiles, depth, other, mustClear, required)
    decreases Blocks - depth, Span - at.row, Span - at.col
  {
    if at.col == Span {
      TryAnchorsRowEnd(s, tiles, depth, mustClear, required, at.row);
      anchors := TryAnchorsSound(s, tiles, depth, mustClear, required, Anchor(at.row + 1, 0));
      RowEndOrder(s, tiles, depth, mustClear, required, at, anchors);
    } else {
      TryAnchorsAt(s, tiles, depth, mustClear, required, at);
      var step := Step(s, tiles[depth], depth, at);
      if step.Some? && Search(step.value, tiles, depth + 1, mustClear, required).Some? {
        var rest := SearchSound(step.value, tiles, depth + 1, mustClear, required);
        FirstAnchorWins(s, tiles, depth, mustClear, required, at, rest);
        anchors := [at] + rest;
      } else {
        anchors := TryAnchorsSound(s, tiles, depth, mustClear, required, Anchor(at.row, at.col + 1));
        SkippedAnchorFails(s, tiles, depth, mustClear, required, at);
        NextColumnOrder(s, tiles, depth, mustClear, required, at, anchors);
      }
    }
  }

  /** The search fails exactly when no anchors are accepted; when it
      succeeds, its leaf is the one reached by the first accepted anchors in
      the order of the loops. */
  lemma SearchFindsFirst(s: State, tiles: seq<Grid>, depth: nat, mustClear: bool, required: int)
    requires ValidState(s) && depth <= Blocks <= |tiles|
    ensures Search(s, tiles, depth, mustClear, required).None? <==>
      forall anchors :: !Accepts(s, tiles, depth, anchors, mustClear, required)
    ensures Search(s, tiles, depth, mustClear, required).Some? ==>
      exists anchors :: Accepts(s, tiles, depth, anchors, mustClear, required) &&
        Run(s, tiles, depth, anchors) == Search(s, tiles, depth, mustClear, required) &&
        forall other :: LexLess(other, anchors) ==> !Accepts(s, tiles, depth, other, mustClear, required)
  {
    if Search(s, tiles, depth, mustClear, required).Some? {
      var anchors := SearchSound(s, tiles, depth, mustClear, required);
    } else {
      forall anchors
        ensures !Accepts(s, tiles, depth, anchors, mustClear, required)
      {
        if Accepts(s, tiles, depth, anchors, mustClear, required) {
          SearchComplete(s, tiles, depth, mustClear, required, anchors);
        }
      }
    }
  }

  // ---------------------------------------------------------------------
  // The six orderings and the fallback of make_moves
  // ---------------------------------------------------------------------

  /** The tile indices of ordering i: tile i % 3 first, then the other two in
      their original order for i < 3 and reversed for i >= 3. */
  function OrderIndices(i: nat): (order: seq<nat>)
    requires i < 6
    ensures |order| == Blocks
  {
    match i
    case 0 => [0, 1, 2]
    case 1 => [1, 0, 2]
    case 2 => [2, 0, 1]
    case 3 => [0, 2, 1]
    case 4 => [1, 2, 0]
    case 5 => [2, 1, 0]
  }

  /** The tiles in ordering i. */
  function Ordering(tiles: seq<Grid>, i: nat): (ordered: seq<Grid>)
    requires |tiles| >= Blocks && i < 6
    ensures |ordered| == Blocks
  {
    var order := OrderIndices(i);
    [tiles[order[0]], tiles[order[1]], tiles[order[2]]]
  }

  /** A permutation of the indices 0, 1, 2. */
  predicate IsPermutation3(p: seq<nat>)
  {
    |p| == 3 && p[0] < 3 && p[1] < 3 && p[2] < 3 &&
    p[0] != p[1] && p[0] != p[2] && p[1] != p[2]
  }

  /** The six orderings are the six permutations of three tiles, each once. */
  lemma OrderingsArePermutations()
    ensures forall i :: 0 <= i < 6 ==> IsPermutation3(OrderIndices(i))
    ensures forall i, j :: 0 <= i < j < 6 ==> OrderIndices(i) != OrderIndices(j)
    ensures forall p :: IsPermutation3(p) ==> exists i :: 0 <= i < 6 && OrderIndices(i) == p
  {
    forall p | IsPermutation3(p)
      ensures exists i :: 0 <= i < 6 && OrderIndices(i) == p
    {
      if p == [0, 1, 2] {
        assert OrderIndices(0) == p;
      } else if p == [1, 0, 2] {
        assert OrderIndices(1) == p;
      } else if p == [2, 0, 1] {
        assert OrderIndices(2) == p;
      } else if p == [0, 2, 1] {
        assert OrderIndices(3) == p;
      } else if p == [1, 2, 0] {
        assert OrderIndices(4) == p;
      } else {
        assert p == [2, 1, 0];
        assert OrderIndices(5) == p;
      }
    }
  }

  /** The empty overlay `make_moves` starts from. */
  function EmptyOverlay(): (o: Tags)
    ensures Is8x8(o)
  {
    seq(Size, _ => seq(Size, _ => {}))
  }

  function Start(b: Grid): (s: State)
    requires Is8x8(b)
    ensures ValidState(s)
  {
    State(b, EmptyOverlay(), 0)
  }

  /** The search `make_moves` runs as its i-th attempt: ordering i with the
      clear requirement for i < 6, the original order without it for i == 6. */
  function Attempt(b: Grid, tiles: seq<Grid>, required: int, i: nat): Option<State>
    requires Is8x8(b) && |tiles| >= Blocks && i <= 6
  {
    if i < 6 then Search(Start(b), Ordering(tiles, i), 0, true, required)
    else Search(Start(b), tiles, 0, false, required)
  }

  /** The outcomes of all seven attempts, in the order they are made. */
  function Attempts(b: Grid, tiles: seq<Grid>, required: int): (rs: seq<Option<State>>)
    requires Is8x8(b) && |tiles| >= Blocks
    ensures |rs| == 7
    ensures forall i :: 0 <= i < 7 ==> rs[i] == Attempt(b, tiles, required, i)
  {
    seq(7, i requires 0 <= i < 7 => Attempt(b, tiles, required, i))
  }

  /** The first successful outcome from position i on; the last outcome
      when none before it succeeds. */
  function FirstSome<T>(rs: seq<Option<T>>, i: nat): Option<T>
    requires i < |rs|
    decreases |rs| - i
  {
    if i == |rs| - 1 || rs[i].Some? then rs[i] else FirstSome(rs, i + 1)
  }

  /** `make_moves` as a function: the first attempt that succeeds, the
      fallback otherwise. */
  function Solve(b: Grid, tiles: seq<Grid>, required: int): Option<State>
    requires Is8x8(b) && |tiles| >= Blocks
  {
    FirstSome(Attempts(b, tiles, required), 0)
  }

  /** The position FirstSome picks from i on: every outcome before it
      failed, and it succeeded unless it is the last. */
  lemma {:induction false} FirstSomePicks<T>(rs: seq<Option<T>>, i: nat) returns (used: nat)
    requires i < |rs|
    ensures i <= used < |rs|
    ensures forall j :: i <= j < used ==> rs[j].None?
    ensures used < |rs| - 1 ==> rs[used].Some?
    ensures FirstSome(rs, i) == rs[used]
    decreases |rs| - i
  {
    if i == |rs| - 1 || rs[i].Some? {
      used := i;
    } else {
      used := FirstSomePicks(rs, i + 1);
    }
  }

  /** The attempt `make_moves` ends up using: the first ordering whose
      search succeeds, or 6 for the fallback in the original order. */
  lemma SolvePicks(b: Grid, tiles: seq<Grid>, required: int) returns (used: nat)
    requires Is8x8(b) && |tiles| >= Blocks
    ensures used <= 6
    ensures forall j :: 0 <= j < used ==> Search(Start(b), Ordering(tiles, j), 0, true, required).None?
    ensures used < 6 ==>
      Search(Start(b), Ordering(tiles, used), 0, true, required).Some? &&
      Solve(b, tiles, required) == Search(Start(b), Ordering(tiles, used), 0, true, required)
    ensures used == 6 ==> Solve(b, tiles, required) == Search(Start(b), tiles, 0, false, required)
  {
    var rs := Attempts(b, tiles, required);
    used := FirstSomePicks(rs, 0);
    forall j | 0 <= j < used
      ensures Search(Start(b), Ordering(tiles, j), 0, true, required).None?
    {
      assert rs[j] == Attempt(b, tiles, required, j);
    }
    assert rs[used] == Attempt(b, tiles, required, used);
  }

  /** What `make_moves` returns: the leaf of the first ordering whose
      search meets the clear requirement, reached by accepted anchors, no
      earlier ordering admitting any; otherwise the leaf of the fallback in
      the original order. */
  lemma SolveSound(b: Grid, tiles: seq<Grid>, required: int)
    returns (used: nat, anchors: seq<Anchor>)
    requires Is8x8(b) && |tiles| >= Blocks
    requires Solve(b, tiles, required).Some?
    ensures used <= 6
    ensures forall j, a :: 0 <= j < used ==> !Accepts(Start(b), Ordering(tiles, j), 0, a, true, required)
    ensures used < 6 ==>
      Accepts(Start(b), Ordering(tiles, used), 0, anchors, true, required) &&
      Run(Start(b), Ordering(tiles, used), 0, anchors) == Solve(b, tiles, required)
    ensures used == 6 ==>
      Accepts(Start(b), tiles, 0, anchors, false, required) &&
      Run(Start(b), tiles, 0, anchors) == Solve(b, tiles, required)
  {
    used := SolvePicks(b, tiles, required);
    forall j, a | 0 <= j < used
      ensures !Accepts(Start(b), Ordering(tiles, j), 0, a, true, required)
    {
      SearchFindsFirst(Start(b), Ordering(tiles, j), 0, true, required);
    }
    if used < 6 {
      anchors := SearchSound(Start(b), Ordering(tiles, used), 0, true, required);
    } else {
      anchors := SearchSound(Start(b), tiles, 0, false, required);
    }
  }

  /** `make_moves` meets the clear requirement whenever some ordering
      admits it, and reports failure exactly when no ordering admits it and
      the three tiles cannot be placed at all in their original order. */
  lemma SolveComplete(b: Grid, tiles: seq<Grid>, required: int)
    requires Is8x8(b) && |tiles| >= Blocks
    ensures (exists i, a :: 0 <= i < 6 && Accepts(Start(b), Ordering(tiles, i), 0, a, true, required)) ==>
      Solve(b, tiles, required).Some? && Solve(b, tiles, required).value.clears >= required
    ensures Solve(b, tiles, required).None? <==>
      (forall i, a :: 0 <= i < 6 ==> !Accepts(Start(b), Ordering(tiles, i), 0, a, true, required)) &&
      (forall a :: !Accepts(Start(b), tiles, 0, a, false, required))
  {
    var used := SolvePicks(b, tiles, required);
    forall i, a | 0 <= i < 6 && Accepts(Start(b), Ordering(tiles, i), 0, a, true, required)
      ensures used <= i
    {
      SearchComplete(Start(b), Ordering(tiles, i), 0, true, required, a);
    }
    if used < 6 {
      var anchors := SearchSound(Start(b), Ordering(tiles, used), 0, true, required);
    } else {
      forall i, a | 0 <= i < 6
        ensures !Accepts(Start(b), Ordering(tiles, i), 0, a, true, required)
      {
        SearchFindsFirst(Start(b), Ordering(tiles, i), 0, true, required);
      }
      SearchFindsFirst(Start(b), tiles, 0, false, required);
    }
  }

  // ---------------------------------------------------------------------
  // The search on arrays
  // ---------------------------------------------------------------------

  /** A solution as `backtrack` returns it: the board and overlay objects of
      the accepted leaf. */
  datatype Found = Found(board: array2<int>, overlay: array2<set<int>>)

  /** A block that fits at a tried anchor is placed, painted and cleared. */
  lemma StepPlaces(s: State, block: Grid, tag: int, a: Anchor)
    requires ValidState(s) && Tried(a) && CanPlace(s.board, block, a.row, a.col)
    ensures var placed := Place(s.board, block, a.row, a.col);
      Step(s, block, tag, a) ==
        Some(State(Cleared(placed), Paint(s.overlay, block, a.row, a.col, tag, false), s.clears + ClearCount(placed)))
  {
  }

  /** The arrays and the running count hold state `s`. */
  ghost predicate Holds(s: State, board: array2<int>, overlay: array2<set<int>>, clears: int)
    reads board, overlay
  {
    s.board == Snapshot(board) && s.overlay == Snapshot(overlay) && s.clears == clears
  }

  /** One trial of the anchor loop of `backtrack`: copies the board and the
      overlay, places the block at (row, col) tagged `tag`, and clears lines.
      The trial succeeds exactly when `Step` does, and then yields its state;
      the caller's arrays are left alone. */
  method Trial(b: array2<int>, visualOverlay: array2<set<int>>, clearCount: int, block: Grid,
               tag: int, row: int, col: int, ghost s: State)
    returns (ok: bool, newBoard: array2<int>, newOverlay: array2<set<int>>, total: int)
    requires b.Length0 == Size && b.Length1 == Size
    requires visualOverlay.Length0 == Size && visualOverlay.Length1 == Size
    requires ValidState(s) && Holds(s, b, visualOverlay, clearCount)
    requires 0 <= tag <= 2 && Tried(Anchor(row, col))
    ensures newBoard.Length0 == Size && newBoard.Length1 == Size
    ensures newOverlay.Length0 == Size && newOverlay.Length1 == Size
    ensures ok <==> Step(s, block, tag, Anchor(row, col)).Some?
    ensures ok ==> Holds(Step(s, block, tag, Anchor(row, col)).value, newBoard, newOverlay, total)
  {
    var boardCopy := Copy(b);
    newOverlay := Copy(visualOverlay);
    ok, newBoard := AddTile(boardCopy, block, row, col, newOverlay, tag, false);
    total := clearCount;
    if !ok {
      return;
    }
    ghost var placed := Snapshot(newBoard);
    ghost var painted := Snapshot(newOverlay);
    StepPlaces(s, block, tag, Anchor(row, col));
    var newClears;
    newBoard, newClears := CheckClear(newBoard);
    total := clearCount + newClears;
    assert Snapshot(newOverlay) == painted;
  }

  /** `backtrack`: tries every anchor of block `currentBlock` in row-major
      order and returns the first accepted leaf. The caller's board and
      overlay are never modified. The ghost `s` names the state the arrays
      hold. */
  method Backtrack(b: array2<int>, currentBlock: nat, clearCount: int, visualOverlay: array2<set<int>>,
                   correctTile: seq<Grid>, mustClear: bool, required: int, ghost s: State)
    returns (result: Option<Found>)
    requires b.Length0 == Size && b.Length1 == Size
    requires visualOverlay.Length0 == Size && visualOverlay.Length1 == Size
    requires ValidState(s) && Holds(s, b, visualOverlay, clearCount)
    requires currentBlock <= Blocks <= |correctTile|
    ensures result.Some? <==> Search(s, correctTile, currentBlock, mustClear, required).Some?
    ensures result.Some? ==>
      result.value.board.Length0 == Size && result.value.board.Length1 == Size &&
      Snapshot(result.value.board) == Search(s, correctTile, currentBlock, mustClear, required).value.board &&
      Snapshot(result.value.overlay) == Search(s, correctTile, currentBlock, mustClear, required).value.overlay
    decreases Blocks - currentBlock, 1
  {
    if currentBlock == Blocks {
      if mustClear {
        if clearCount >= required {
          return Some(Found(b, visualOverlay));
        } else {
          return None;
        }
      } else {
        return Some(Found(b, visualOverlay));
      }
    }
    ghost var target := Search(s, correctTile, currentBlock, mustClear, required);
    for row := 0 to Span
      invariant Holds(s, b, visualOverlay, clearCount)
      invariant target == TryAnchors(s, correctTile, currentBlock, mustClear, required, Anchor(row, 0))
    {
      for col := 0 to Span
        invariant Holds(s, b, visualOverlay, clearCount)
        invariant target == TryAnchors(s, correctTile, currentBlock, mustClear, required, Anchor(row, col))
      {
        result := TryAt(b, currentBlock, clearCount, visualOverlay, correctTile, mustClear, required, row, col, s);
        if result.Some? {
          return result;
        }
      }
      TryAnchorsRowEnd(s, correctTile, currentBlock, mustClear, required, row);
    }
    return None;
  }

  /** The body of the anchor loops of `backtrack`: the trial at (row, col)
      and, when the block fits, the search for the next block below it.
      Either it finds what the loops from this anchor find, or nothing is
      found below this anchor and the loops go on to the next column. */
  method TryAt(b: array2<int>, currentBlock: nat, clearCount: int, visualOverlay: array2<set<int>>,
               correctTile: seq<Grid>, mustClear: bool, required: int, row: int, col: int, ghost s: State)
    returns (result: Option<Found>)
    requires b.Length0 == Size && b.Length1 == Size
    requires visualOverlay.Length0 == Size && visualOverlay.Length1 == Size
    requires ValidState(s) && Holds(s, b, visualOverlay, clearCount)
    requires currentBlock < Blocks <= |correctTile| && Tried(Anchor(row, col))
    ensures result.None? ==>
      TryAnchors(s, correctTile, currentBlock, mustClear, required, Anchor(row, col)) ==
      TryAnchors(s, correctTile, currentBlock, mustClear, required, Anchor(row, col + 1))
    ensures var found := TryAnchors(s, correctTile, currentBlock, mustClear, required, Anchor(row, col));
      result.Some? ==>
        found.Some? &&
        result.value.board.Length0 == Size && result.value.board.Length1 == Size &&
        Snapshot(result.value.board) == found.value.board &&
        Snapshot(result.value.overlay) == found.value.overlay
    decreases Blocks - currentBlock, 0
  {
    var canPlace, newBoard, overlayCopy, totalClearCount :=
      Trial(b, visualOverlay, clearCount, correctTile[currentBlock], currentBlock, row, col, s);
    TryAnchorsAt(s, correctTile, currentBlock, mustClear, required, Anchor(row, col));
    if !canPlace {
      return None;
    }
    ghost var next := Step(s, correctTile[currentBlock], currentBlock, Anchor(row, col)).value;
    result := Backtrack(newBoard, currentBlock + 1, totalClearCount, overlayCopy,
                        correctTile, mustClear, required, next);
  }

  /** The tiles in ordering i as `make_moves` builds them: tile i % 3 popped
      to the front, the remaining two after it, reversed when i > 2. The
      construction yields exactly the table of orderings. */
  method ArrangeTiles(tiles: seq<Grid>, i: nat) returns (correctTiles: seq<Grid>)
    requires |tiles| >= Blocks && i < 6
    ensures correctTiles == Ordering(tiles, i)
  {
    var newTiles := tiles;
    correctTiles := [newTiles[i % 3]];
    newTiles := newTiles[..i % 3] + newTiles[i % 3 + 1..];
    var extraTiles := newTiles[..2];
    if i > 2 {
      extraTiles := [extraTiles[1], extraTiles[0]];
    }
    correctTiles := correctTiles + extraTiles;
  }

  /** `make_moves`: the six orderings with the clear requirement, then the
      original order without it. Returns None for `(None, None)`. */
  method MakeMoves(board: array2<int>, tiles: seq<Grid>, requiredClearCount: int)
    returns (result: Option<Found>)
    requires board.Length0 == Size && board.Length1 == Size
    requires |tiles| >= Blocks
    ensures result.Some? <==> Solve(Snapshot(board), tiles, requiredClearCount).Some?
    ensures result.Some? ==>
      result.value.board.Length0 == Size && result.value.board.Length1 == Size &&
      Snapshot(result.value.board) == Solve(Snapshot(board), tiles, requiredClearCount).value.board &&
      Snapshot(result.value.overlay) == Solve(Snapshot(board), tiles, requiredClearCount).value.overlay
  {
    ghost var b0 := Snapshot(board);
    var initialBoard := Copy(board);
    var initialOverlay := new set<int>[Size, Size];
    forall i, j | 0 <= i < Size && 0 <= j < Size {
      initialOverlay[i, j] := {};
    }
    SameCells(Snapshot(initialOverlay), EmptyOverlay());
    for i := 0 to 6
      invariant Holds(Start(b0), initialBoard, initialOverlay, 0)
      invariant Solve(b0, tiles, requiredClearCount) == FirstSome(Attempts(b0, tiles, requiredClearCount), i)
    {
      var correctTiles := ArrangeTiles(tiles, i);
      result := Backtrack(initialBoard, 0, 0, initialOverlay, correctTiles, true, requiredClearCount, Start(b0));
      if result.Some? {
        return result;
      }
    }
    result := Backtrack(initialBoard, 0, 0, initialOverlay, tiles, false, requiredClearCount, Start(b0));
  }
}
