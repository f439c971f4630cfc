/**
 * The rest of the guard-patrol program: reading the map into a grid, counting
 * the flags the patrol leaves behind, and the whole run from map to answers.
 */
module PatrolRun {
  import opened Wrappers
  import opened Lab
  import opened PatrolSpec
  import opened Patrol

  // ---------------------------------------------------------------- counting

  /** The two flags the final count looks at. */
  datatype Flag = Traversed | InfiniteLoop

  predicate Has(cell: GridPoint, f: Flag)
  {
    match f
    case Traversed => cell.traversed
    case InfiniteLoop => cell.infiniteLoop
  }

  /** Number of cells of a row carrying the flag. */
  function CountRow(row: seq<GridPoint>, f: Flag): (r: nat)
    ensures r <= |row|
  {
    if |row| == 0 then 0
    else CountRow(row[..|row| - 1], f) + (if Has(row[|row| - 1], f) then 1 else 0)
  }

  /** Number of cells of a grid carrying the flag. */
  function CountRows(grid: Grid, f: Flag): nat
  {
    if |grid| == 0 then 0
    else CountRows(grid[..|grid| - 1], f) + CountRow(grid[|grid| - 1], f)
  }

  /** The positions of row `y` whose cell carries the flag. */
  ghost function RowCells(row: seq<GridPoint>, y: int, f: Flag): set<Point>
  {
    set x | 0 <= x < |row| && Has(row[x], f) :: Point(x, y)
  }

  /** The positions of the grid whose cell carries the flag. */
  ghost function FlaggedCells(grid: Grid, f: Flag): set<Point>
  {
    set y, x | 0 <= y < |grid| && 0 <= x < |grid[y]| && Has(grid[y][x], f) :: Point(x, y)
  }

  /** The flagged positions of a row are those of its prefix and possibly the last one. */
  lemma RowCellsLast(row: seq<GridPoint>, y: int, f: Flag)
    requires |row| > 0
    ensures var m := |row| - 1;
      RowCells(row, y, f) == RowCells(row[..m], y, f) + (if Has(row[m], f) then {Point(m, y)} else {})
  {
    var m := |row| - 1;
    var prefix := row[..m];
    var last := if Has(row[m], f) then {Point(m, y)} else {};
    forall p | p in RowCells(row, y, f) ensures p in RowCells(prefix, y, f) + last {
      if p.x < m {
        assert prefix[p.x] == row[p.x];
      }
    }
    forall p | p in RowCells(prefix, y, f) ensures p in RowCells(row, y, f) {
      assert prefix[p.x] == row[p.x];
    }
  }

  lemma {:induction false} CountRowCells(row: seq<GridPoint>, y: int, f: Flag)
    ensures CountRow(row, f) == |RowCells(row, y, f)|
    decreases |row|
  {
    if |row| > 0 {
      var m := |row| - 1;
      var prefix := row[..m];
      CountRowCells(prefix, y, f);
      RowCellsLast(row, y, f);
      assert Point(m, y) !in RowCells(prefix, y, f);
    }
  }

  /** The flagged positions of a grid are those of its first rows and those of its last row. */
  lemma FlaggedCellsLast(grid: Grid, f: Flag)
    requires |grid| > 0
    ensures var m := |grid| - 1;
      FlaggedCells(grid, f) == FlaggedCells(grid[..m], f) + RowCells(grid[m], m, f)
  {
    var m := |grid| - 1;
    var prefix := grid[..m];
    forall p | p in FlaggedCells(grid, f)
      ensures p in FlaggedCells(prefix, f) + RowCells(grid[m], m, f)
    {
      if p.y < m {
        assert prefix[p.y] == grid[p.y];
      }
    }
    forall p | p in FlaggedCells(prefix, f) ensures p in FlaggedCells(grid, f) {
      assert prefix[p.y] == grid[p.y];
    }
  }

  /** Counting the flags row by row counts the flagged positions of the grid. */
  lemma {:induction false} CountRowsCells(grid: Grid, f: Flag)
    ensures CountRows(grid, f) == |FlaggedCells(grid, f)|
    decreases |grid|
  {
    if |grid| > 0 {
      var m := |grid| - 1;
      CountRowsCells(grid[..m], f);
      CountRowCells(grid[m], m, f);
      FlaggedCellsLast(grid, f);
      assert FlaggedCells(grid[..m], f) !! RowCells(grid[m], m, f);
    }
  }

  /**
   * The final count: one for the guard's last position plus one per traversed
   * cell (part 1), and one per cell where a trial obstacle traps the guard (part 2).
   */
  method Count(grid: Grid) returns (part1: nat, part2: nat)
    ensures part1 == 1 + |FlaggedCells(grid, Traversed)|
    ensures part2 == |FlaggedCells(grid, InfiniteLoop)|
  {
    part1 := 1;
    part2 := 0;
    for i := 0 to |grid|
      invariant part1 == 1 + CountRows(grid[..i], Traversed)
      invariant part2 == CountRows(grid[..i], InfiniteLoop)
    {
      var row := grid[i];
      for j := 0 to |row|
        invariant part1 == 1 + CountRows(grid[..i], Traversed) + CountRow(row[..j], Traversed)
        invariant part2 == CountRows(grid[..i], InfiniteLoop) + CountRow(row[..j], InfiniteLoop)
      {
        assert row[..j + 1][..j] == row[..j];
        if row[j].traversed {
          part1 := part1 + 1;
        }
        if row[j].infiniteLoop {
          part2 := part2 + 1;
        }
      }
      assert row[..|row|] == row;
      assert grid[..i + 1][..i] == grid[..i];
    }
    assert grid[..|grid|] == grid;
    CountRowsCells(grid, Traversed);
    CountRowsCells(grid, InfiniteLoop);
  }

  // ----------------------------------------------------------------- parsing

  predicate ValidChar(c: char)
  {
    c == '^' || c == '#' || c == '.'
  }

  predicate ValidMap(lines: seq<string>)
  {
    forall y, x :: 0 <= y < |lines| && 0 <= x < |lines[y]| ==> ValidChar(lines[y][x])
  }

  /**
   * The cell a map character stands for: the guard's start counts as traversed,
   * no cell starts flagged, and drawing the cell gives the character back.
   */
  function CellOf(c: char): (r: GridPoint)
    requires ValidChar(c)
    ensures Symbol(r) == c && !r.infiniteLoop
    ensures (r.obstacle <==> c == '#') && (r.traversed <==> c == '^')
  {
    if c == '^' then GridPoint(traversed := true, infiniteLoop := false, obstacle := false)
    else if c == '#' then GridPoint(traversed := false, infiniteLoop := false, obstacle := true)
    else GridPoint(traversed := false, infiniteLoop := false, obstacle := false)
  }

  /** The character a freshly parsed cell is drawn with. */
  function Symbol(cell: GridPoint): char
  {
    if cell.obstacle then '#' else if cell.traversed then '^' else '.'
  }

  function RowOf(line: string): (r: seq<GridPoint>)
    requires forall x :: 0 <= x < |line| ==> ValidChar(line[x])
    ensures |r| == |line|
  {
    seq(|line|, x requires 0 <= x < |line| => CellOf(line[x]))
  }

  /** The grid a valid map is read into, one row per line. */
  function GridOf(lines: seq<string>): (r: Grid)
    requires ValidMap(lines)
    ensures |r| == |lines| && forall y :: 0 <= y < |lines| ==> r[y] == RowOf(lines[y])
    ensures Rectangular(lines) ==> WellFormed(r)
  {
    seq(|lines|, y requires 0 <= y < |lines| => RowOf(lines[y]))
  }

  /** The column of the last '^' in a line, if any. */
  function LastCaret(line: string): (r: Option<nat>)
    ensures r.Some? ==>
      (r.value < |line| && line[r.value] == '^' && forall x :: r.value < x < |line| ==> line[x] != '^')
    ensures r.None? ==> forall x :: 0 <= x < |line| ==> line[x] != '^'
  {
    if |line| == 0 then None
    else if line[|line| - 1] == '^' then Some(|line| - 1)
    else LastCaret(line[..|line| - 1])
  }

  /** The start after reading one more line: its last '^' if it has one, else the earlier start. */
  function StartIn(before: Point, line: string, y: int): Point
  {
    match LastCaret(line)
    case Some(x) => Point(x, y)
    case None => before
  }

  /**
   * The guard's start: the last '^' of the map in reading order, or the
   * top-left corner when the map has none.
   */
  function StartOf(lines: seq<string>): Point
  {
    if |lines| == 0 then Point(0, 0)
    else StartIn(StartOf(lines[..|lines| - 1]), lines[|lines| - 1], |lines| - 1)
  }

  ghost predicate CaretAt(lines: seq<string>, p: Point)
  {
    0 <= p.y < |lines| && 0 <= p.x < |lines[p.y]| && lines[p.y][p.x] == '^'
  }

  /**
   * The start is a '^' of the map, and no '^' comes after it in reading
   * order; with no '^' at all it is the top-left corner.
   */
  lemma {:induction false} StartOfLastCaret(lines: seq<string>)
    ensures var s := StartOf(lines);
      CaretAt(lines, s) || (s == Point(0, 0) && forall p :: !CaretAt(lines, p))
    ensures var s := StartOf(lines);
      forall p :: CaretAt(lines, p) ==> p.y < s.y || (p.y == s.y && p.x <= s.x)
    decreases |lines|
  {
    if |lines| > 0 {
      var m := |lines| - 1;
      var prefix := lines[..m];
      StartOfLastCaret(prefix);
      forall p | CaretAt(prefix, p) ensures CaretAt(lines, p) {
        assert prefix[p.y] == lines[p.y];
      }
      forall p | CaretAt(lines, p) && p.y < m ensures CaretAt(prefix, p) {
        assert prefix[p.y] == lines[p.y];
      }
    }
  }

  /**
   * Reads the map line by line: '^' is the guard (facing up) on a traversed
   * cell, '#' an obstacle, '.' a free cell; any other character makes the
   * run fail.
   */
  method ParseGrid(lines: seq<string>) returns (r: Option<(Grid, Point)>)
    ensures r.Some? <==> ValidMap(lines)
    ensures r.Some? ==> r.value == (GridOf(lines), StartOf(lines))
  {
    var grid: Grid := [];
    var start := Point(0, 0);
    for y := 0 to |lines|
      invariant ValidMap(lines[..y])
      invariant grid == GridOf(lines[..y])
      invariant start == StartOf(lines[..y])
    {
      var line := lines[y];
      var row: seq<GridPoint> := [];
      for x := 0 to |line|
        invariant forall i :: 0 <= i < x ==> ValidChar(line[i])
        invariant row == RowOf(line[..x])
        invariant start == StartIn(StartOf(lines[..y]), line[..x], y)
      {
        var c := line[x];
        assert line[..x + 1][..x] == line[..x];
        if c == '^' {
          row := row + [GridPoint(traversed := true, infiniteLoop := false, obstacle := false)];
          start := Point(x, y);
        } else if c == '#' {
          row := row + [GridPoint(traversed := false, infiniteLoop := false, obstacle := true)];
        } else if c == '.' {
          row := row + [GridPoint(traversed := false, infiniteLoop := false, obstacle := false)];
        } else {
          return None;
        }
      }
      assert line[..|line|] == line;
      assert lines[..y + 1][..y] == lines[..y];
      grid := grid + [row];
    }
    assert lines[..|lines|] == lines;
    r := Some((grid, start));
  }

  // ------------------------------------------------------------- the whole run

  /** A map with at least one line, all of the same length. */
  predicate Rectangular(lines: seq<string>)
  {
    |lines| > 0 && forall y :: 0 <= y < |lines| ==> |lines[y]| == |lines[0]|
  }

  /** The guard's initial state: the start, always facing up. */
  function InitialState(lines: seq<string>): State
  {
    (StartOf(lines), Up)
  }

  /** The cells marked traversed at the end: every '^' and every cell the guard stepped away from. */
  ghost function TraversedCells(lines: seq<string>): set<Point>
    requires ValidMap(lines) && Rectangular(lines)
  {
    set y, x | 0 <= y < |lines| && 0 <= x < |lines[y]|
                && (lines[y][x] == '^' || LeftBehind(GridOf(lines), InitialState(lines), Point(x, y)))
      :: Point(x, y)
  }

  /** The cells where some trial obstacle of the patrol traps the guard. */
  ghost function LoopCells(lines: seq<string>): set<Point>
    requires ValidMap(lines) && Rectangular(lines)
  {
    set y, x | 0 <= y < |lines| && 0 <= x < |lines[y]| && LoopFound(GridOf(lines), InitialState(lines), Point(x, y))
      :: Point(x, y)
  }

  /** The cells the guard stands on during the run, its start included. */
  ghost function VisitedCells(lines: seq<string>): set<Point>
    requires ValidMap(lines) && Rectangular(lines)
  {
    (set y, x | 0 <= y < |lines| && 0 <= x < |lines[y]| && Visited(GridOf(lines), InitialState(lines), Point(x, y))
       :: Point(x, y))
    + {StartOf(lines)}
  }

  /** The cells drawn as '^'. */
  ghost function CaretCells(lines: seq<string>): set<Point>
  {
    set y, x | 0 <= y < |lines| && 0 <= x < |lines[y]| && lines[y][x] == '^' :: Point(x, y)
  }

  /** The start lies in the grid, unless the grid has no columns at all. */
  lemma StartInGrid(lines: seq<string>)
    requires ValidMap(lines) && Rectangular(lines)
    ensures WellFormed(GridOf(lines))
    ensures GridContains(GridOf(lines), StartOf(lines)) || |GridOf(lines)[0]| == 0
  {
    StartOfLastCaret(lines);
  }

  /** The flags the patrol leaves on a parsed map are the cells of the two answers. */
  lemma FinalCells(lines: seq<string>, grid: Grid)
    requires ValidMap(lines) && Rectangular(lines)
    requires |grid| == |lines| && forall y :: 0 <= y < |lines| ==> |grid[y]| == |lines[y]|
    requires var g0 := GridOf(lines);
      forall y, x :: 0 <= y < |g0| && 0 <= x < |g0[y]| ==>
        && (grid[y][x].infiniteLoop <==> g0[y][x].infiniteLoop || LoopFound(g0, InitialState(lines), Point(x, y)))
        && (grid[y][x].traversed <==> g0[y][x].traversed || LeftBehind(g0, InitialState(lines), Point(x, y)))
    ensures FlaggedCells(grid, Traversed) == TraversedCells(lines)
    ensures FlaggedCells(grid, InfiniteLoop) == LoopCells(lines)
  {
    var g0 := GridOf(lines);
    forall y, x | 0 <= y < |lines| && 0 <= x < |lines[y]|
      ensures g0[y][x] == CellOf(lines[y][x])
    {
      assert g0[y] == RowOf(lines[y]);
    }
  }

  /** A cell the guard steps away from is a cell of the grid. */
  lemma LeftInGrid(lines: seq<string>, c: Point)
    requires ValidMap(lines) && Rectangular(lines)
    requires LeftBehind(GridOf(lines), InitialState(lines), c)
    ensures 0 <= c.y < |lines| && 0 <= c.x < |lines[c.y]|
  {
    var g0, s0 := GridOf(lines), InitialState(lines);
    var i: nat :| LeavesAt(g0, s0, i, c);
    IterInGrid(g0, s0, i);
    StartInGrid(lines);
  }

  lemma TraversedOrExitVisited(lines: seq<string>, exit: Point, c: Point)
    requires ValidMap(lines) && Rectangular(lines)
    requires ExitsFrom(GridOf(lines), InitialState(lines), exit)
    requires c in TraversedCells(lines) || c == exit
    ensures c in VisitedCells(lines) || c in CaretCells(lines)
  {
    var g0, s0 := GridOf(lines), InitialState(lines);
    VisitedLeftOrExit(g0, s0, c, exit);
    if c !in CaretCells(lines) && c != StartOf(lines) {
      var k: nat :| FinalAt(g0, s0, k) && Iter(g0, s0, k).value.0 == exit;
      IterInGrid(g0, s0, k);
    }
  }

  lemma VisitedTraversedOrExit(lines: seq<string>, exit: Point, c: Point)
    requires ValidMap(lines) && Rectangular(lines)
    requires ExitsFrom(GridOf(lines), InitialState(lines), exit)
    requires c in VisitedCells(lines) || c in CaretCells(lines)
    ensures c in TraversedCells(lines) || c == exit
  {
    var g0, s0 := GridOf(lines), InitialState(lines);
    assert Iter(g0, s0, 0) == Some(s0);
    VisitedLeftOrExit(g0, s0, c, exit);
    if LeftBehind(g0, s0, c) {
      LeftInGrid(lines, c);
    }
  }

  /**
   * The traversed cells together with the exit cell are the cells the guard
   * stands on together with the '^' cells.
   */
  lemma TraversedAndExit(lines: seq<string>, exit: Point)
    requires ValidMap(lines) && Rectangular(lines)
    requires ExitsFrom(GridOf(lines), InitialState(lines), exit)
    ensures TraversedCells(lines) + {exit} == VisitedCells(lines) + CaretCells(lines)
  {
    forall c | c in TraversedCells(lines) + {exit}
      ensures c in VisitedCells(lines) + CaretCells(lines)
    {
      TraversedOrExitVisited(lines, exit, c);
    }
    forall c | c in VisitedCells(lines) + CaretCells(lines)
      ensures c in TraversedCells(lines) + {exit}
    {
      VisitedTraversedOrExit(lines, exit, c);
    }
  }

  /**
   * The program's part 1 exceeds the number of cells the guard stands on (with
   * the '^' cells) by one exactly when the exit cell is a traversed cell.
   */
  lemma OvercountIsTraversedExit(lines: seq<string>, exit: Point)
    requires ValidMap(lines) && Rectangular(lines)
    requires ExitsFrom(GridOf(lines), InitialState(lines), exit)
    ensures 1 + |TraversedCells(lines)| ==
      |VisitedCells(lines) + CaretCells(lines)| + (if exit in TraversedCells(lines) then 1 else 0)
  {
    TraversedAndExit(lines, exit);
    if exit !in TraversedCells(lines) {
      assert |TraversedCells(lines) + {exit}| == |TraversedCells(lines)| + 1;
    } else {
      assert TraversedCells(lines) + {exit} == TraversedCells(lines);
    }
  }

  /** With at most one '^' the part 1 answer counts exactly the cells the guard stands on. */
  lemma SingleStartVisited(lines: seq<string>)
    requires ValidMap(lines) && Rectangular(lines)
    requires forall p, q :: CaretAt(lines, p) && CaretAt(lines, q) ==> p == q
    ensures VisitedCells(lines) + CaretCells(lines) == VisitedCells(lines)
  {
    StartOfLastCaret(lines);
    forall c | c in CaretCells(lines) ensures c in VisitedCells(lines) {
      assert CaretAt(lines, c);
    }
  }

  /**
   * The count as written, on the one-cell map "^": the guard leaves at once,
   * so it stands on one cell, yet one plus the traversed cells gives 2.
   */
  lemma OneCellOvercount()
    ensures ValidMap(["^"]) && Rectangular(["^"])
    ensures 1 + |TraversedCells(["^"])| == 2
    ensures |VisitedCells(["^"])| == 1
  {
    var lines := ["^"];
    assert StartOf(lines) == Point(0, 0) by {
      assert lines[..0] == [];
    }
    assert TraversedCells(lines) == {Point(0, 0)} by {
      assert lines[0][0] == '^';
    }
    assert VisitedCells(lines) == {Point(0, 0)};
  }

  /**
   * Part 1 as intended: the number of distinct cells among the traversed
   * ones and the exit cell, so an exit cell already marked is not counted twice.
   * Part 2 as in `Count`.
   */
  method CountVisited(grid: Grid, exit: Point) returns (part1: nat, part2: nat)
    ensures part1 == |FlaggedCells(grid, Traversed) + {exit}|
    ensures part2 == |FlaggedCells(grid, InfiniteLoop)|
  {
    part1, part2 := Count(grid);
    if 0 <= exit.y < |grid| && 0 <= exit.x < |grid[exit.y]| && grid[exit.y][exit.x].traversed {
      assert exit in FlaggedCells(grid, Traversed);
      part1 := part1 - 1;
    }
  }

  /**
   * The whole program as written, on a map given as its lines: parse, patrol,
   * count. Part 1 is one plus the number of traversed cells (the '^' cells and
   * the cells the guard stepped away from), so an exit cell the guard had
   * already left once counts twice; part 2 is the number of cells where a
   * trial obstacle traps the guard.
   */
  method SolveAsWritten(lines: seq<string>) returns (r: Option<(nat, nat)>)
    requires Rectangular(lines)
    requires ValidMap(lines) ==> Escapes(GridOf(lines), InitialState(lines))
    requires ValidMap(lines) ==> TrialsTerminate(GridOf(lines), InitialState(lines))
    ensures r.Some? <==> ValidMap(lines)
    ensures r.Some? ==> r.value == (1 + |TraversedCells(lines)|, |LoopCells(lines)|)
  {
    var parsed := ParseGrid(lines);
    if parsed.None? {
      return None;
    }
    var (grid0, start) := parsed.value;
    StartInGrid(lines);
    var grid, exit := Walk(grid0, start, Up);
    var part1, part2 := Count(grid);
    FinalCells(lines, grid);
    assert part1 == 1 + |TraversedCells(lines)|;
    return Some((part1, part2));
  }

  /**
   * The whole run with part 1 corrected: the number of cells the guard stands
   * on, together with any '^' cells, each counted once; part 2 as written.
   */
  method Solve(lines: seq<string>) returns (r: Option<(nat, nat)>)
    requires Rectangular(lines)
    requires ValidMap(lines) ==> Escapes(GridOf(lines), InitialState(lines))
    requires ValidMap(lines) ==> TrialsTerminate(GridOf(lines), InitialState(lines))
    ensures r.Some? <==> ValidMap(lines)
    ensures r.Some? ==> r.value == (|VisitedCells(lines) + CaretCells(lines)|, |LoopCells(lines)|)
  {
    var parsed := ParseGrid(lines);
    if parsed.None? {
      return None;
    }
    var (grid0, start) := parsed.value;
    StartInGrid(lines);
    var grid, exit := Walk(grid0, start, Up);
    var part1, part2 := CountVisited(grid, exit);
    FinalCells(lines, grid);
    TraversedAndExit(lines, exit);
    return Some((part1, part2));
  }
}
