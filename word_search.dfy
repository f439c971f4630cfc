/**
 * The word search: a grid of letters in which "XMAS" is counted along all eight
 * directions from every 'X' (part 1), and crosses of two diagonal "MAS" words
 * centred on an 'A' are counted (part 2). Coordinates are `usize` in the
 * program, so they are `nat` here.
 */
module WordSearch {

  const Word: string := "XMAS"

  type Letters = seq<seq<char>>

  datatype Point = Point(x: nat, y: nat)

  datatype Direction = Up | Down | Left | Right | UpLeft | UpRight | DownLeft | DownRight

  /** The directions in the order the search tries them. */
  const Directions: seq<Direction> := [Up, Down, Left, Right, UpLeft, UpRight, DownLeft, DownRight]

  function Dx(d: Direction): int
  {
    match d
    case Left | UpLeft | DownLeft => -1
    case Right | UpRight | DownRight => 1
    case Up | Down => 0
  }

  function Dy(d: Direction): int
  {
    match d
    case Up | UpLeft | UpRight => -1
    case Down | DownLeft | DownRight => 1
    case Left | Right => 0
  }

  /** The eight directions are the eight distinct non-zero unit offsets. */
  lemma DirectionsAreOffsets()
    ensures |Directions| == 8
    ensures forall i, j :: 0 <= i < j < 8 ==>
      (Dx(Directions[i]), Dy(Directions[i])) != (Dx(Directions[j]), Dy(Directions[j]))
    ensures forall d: Direction :: d in Directions && (Dx(d), Dy(d)) != (0, 0)
  {
    forall d: Direction ensures d in Directions {
      match d
      case Up => assert Directions[0] == d;
      case Down => assert Directions[1] == d;
      case Left => assert Directions[2] == d;
      case Right => assert Directions[3] == d;
      case UpLeft => assert Directions[4] == d;
      case UpRight => assert Directions[5] == d;
      case DownLeft => assert Directions[6] == d;
      case DownRight => assert Directions[7] == d;
    }
  }

  /** At least one row, all rows as long as the first. */
  predicate Rectangular(grid: Letters)
  {
    |grid| > 0 && forall y :: 0 <= y < |grid| ==> |grid[y]| == |grid[0]|
  }

  predicate InGrid(grid: Letters, x: int, y: int)
  {
    0 <= y < |grid| && 0 <= x < |grid[y]|
  }

  /**
   * Whether the neighbour of `point` in `direction` holds `letter`; false when
   * the neighbour would lie outside the grid.
   */
  function CheckDirection(grid: Letters, point: Point, direction: Direction, letter: char): (r: bool)
    requires Rectangular(grid) && InGrid(grid, point.x, point.y)
    ensures r <==>
      var (nx, ny) := (point.x + Dx(direction), point.y + Dy(direction));
      InGrid(grid, nx, ny) && grid[ny][nx] == letter
  {
    match direction
    case Up =>
      if point.y == 0 then false else grid[point.y - 1][point.x] == letter
    case Down =>
      if point.y == |grid| - 1 then false else grid[point.y + 1][point.x] == letter
    case Left =>
      if point.x == 0 then false else grid[point.y][point.x - 1] == letter
    case Right =>
      if point.x == |grid[0]| - 1 then false else grid[point.y][point.x + 1] == letter
    case UpLeft =>
      if point.y == 0 || point.x == 0 then false else grid[point.y - 1][point.x - 1] == letter
    case UpRight =>
      if point.y == 0 || point.x == |grid[0]| - 1 then false else grid[point.y - 1][point.x + 1] == letter
    case DownLeft =>
      if point.y == |grid| - 1 || point.x == 0 then false else grid[point.y + 1][point.x - 1] == letter
    case DownRight =>
      if point.y == |grid| - 1 || point.x == |grid[0]| - 1 then false else grid[point.y + 1][point.x + 1] == letter
  }

  /** Moves the point one cell in the direction; the coordinates must not go below zero. */
  function UpdatePoint(point: Point, direction: Direction): (r: Point)
    requires point.x + Dx(direction) >= 0 && point.y + Dy(direction) >= 0
    ensures r.x == point.x + Dx(direction) && r.y == point.y + Dy(direction)
    ensures (r.x, r.y) == Along(point, direction, 1) && r != point
  {
    match direction
    case Up => point.(y := point.y - 1)
    case Down => point.(y := point.y + 1)
    case Left => point.(x := point.x - 1)
    case Right => point.(x := point.x + 1)
    case UpLeft => Point(point.x - 1, point.y - 1)
    case UpRight => Point(point.x + 1, point.y - 1)
    case DownLeft => Point(point.x - 1, point.y + 1)
    case DownRight => Point(point.x + 1, point.y + 1)
  }

  /**
   * After a successful `CheckDirection` the move is safe: no coordinate goes
   * below zero, and the new point is the checked cell of the grid.
   */
  lemma CheckedMoveStaysInGrid(grid: Letters, point: Point, direction: Direction, letter: char)
    requires Rectangular(grid) && InGrid(grid, point.x, point.y)
    requires CheckDirection(grid, point, direction, letter)
    ensures point.x + Dx(direction) >= 0 && point.y + Dy(direction) >= 0
    ensures var r := UpdatePoint(point, direction);
      InGrid(grid, r.x, r.y) && grid[r.y][r.x] == letter
  {
  }

  // ------------------------------------------------------------------ part 1

  /** The cell `k` steps from `point` along `direction`, as signed coordinates. */
  function Along(point: Point, direction: Direction, k: nat): (int, int)
  {
    if k == 0 then (point.x, point.y)
    else
      var (x, y) := Along(point, direction, k - 1);
      (x + Dx(direction), y + Dy(direction))
  }

  lemma {:induction false} AlongIsOffset(point: Point, direction: Direction, k: nat)
    ensures Along(point, direction, k) == (point.x + k * Dx(direction), point.y + k * Dy(direction))
  {
    if k > 0 {
      AlongIsOffset(point, direction, k - 1);
    }
  }

  /** The cell `k` steps from `point` along `direction` holds the word's letter `k`. */
  predicate LetterAt(grid: Letters, point: Point, direction: Direction, k: nat)
    requires k < |Word|
  {
    var (x, y) := Along(point, direction, k);
    InGrid(grid, x, y) && grid[y][x] == Word[k]
  }

  /** Letters 1 to 3 of the word follow `point` along `direction`, inside the grid. */
  predicate WordAt(grid: Letters, point: Point, direction: Direction)
  {
    forall k :: 1 <= k < |Word| ==> LetterAt(grid, point, direction, k)
  }

  /** The state of the inner search before it checks letter `wordIndex`. */
  ghost predicate SearchInv(grid: Letters, point: Point, direction: Direction, letterPoint: Point, wordIndex: nat)
  {
    && 1 <= wordIndex <= |Word|
    && InGrid(grid, letterPoint.x, letterPoint.y)
    && (letterPoint.x, letterPoint.y) == Along(point, direction, wordIndex - 1)
    && forall k :: 1 <= k < wordIndex ==> LetterAt(grid, point, direction, k)
  }

  /** One check of the inner search either rules the word out or moves on to the next letter. */
  lemma SearchStep(grid: Letters, point: Point, direction: Direction, letterPoint: Point, wordIndex: nat)
    requires Rectangular(grid) && SearchInv(grid, point, direction, letterPoint, wordIndex)
    requires wordIndex < |Word|
    ensures var found := CheckDirection(grid, letterPoint, direction, Word[wordIndex]);
      && (!found ==> !WordAt(grid, point, direction))
      && (found ==>
            && letterPoint.x + Dx(direction) >= 0 && letterPoint.y + Dy(direction) >= 0
            && SearchInv(grid, point, direction, UpdatePoint(letterPoint, direction), wordIndex + 1))
  {
    if CheckDirection(grid, letterPoint, direction, Word[wordIndex]) {
      CheckedMoveStaysInGrid(grid, letterPoint, direction, Word[wordIndex]);
    } else {
      assert !LetterAt(grid, point, direction, wordIndex);
    }
  }

  /** The inner search: follows the direction letter by letter until one fails or the word is complete. */
  method FoundInDirection(grid: Letters, point: Point, direction: Direction) returns (found: bool)
    requires Rectangular(grid) && InGrid(grid, point.x, point.y)
    ensures found <==> WordAt(grid, point, direction)
  {
    var letterPoint := point;
    var wordIndex := 1;
    found := false;
    while wordIndex < |Word|
      invariant SearchInv(grid, point, direction, letterPoint, wordIndex)
      invariant wordIndex > 1 ==> found
    {
      SearchStep(grid, point, direction, letterPoint, wordIndex);
      found := CheckDirection(grid, letterPoint, direction, Word[wordIndex]);
      if !found {
        break;
      }
      wordIndex := wordIndex + 1;
      letterPoint := UpdatePoint(letterPoint, direction);
    }
  }

  /** Among the first `i` directions, how many carry the word from `point`. */
  function DirectionsFound(grid: Letters, point: Point, i: nat): (r: nat)
    requires i <= |Directions|
    ensures r <= i
  {
    if i == 0 then 0
    else DirectionsFound(grid, point, i - 1) + (if WordAt(grid, point, Directions[i - 1]) then 1 else 0)
  }

  /** The words starting at one cell: none unless it holds 'X'. */
  function CellXmas(grid: Letters, x: nat, y: nat): nat
    requires InGrid(grid, x, y)
  {
    if grid[y][x] == Word[0] then DirectionsFound(grid, Point(x, y), |Directions|) else 0
  }

  /** The words starting in the first `n` cells of row `y`. */
  function RowXmas(grid: Letters, y: nat, n: nat): nat
    requires y < |grid| && n <= |grid[y]|
  {
    if n == 0 then 0 else RowXmas(grid, y, n - 1) + CellXmas(grid, n - 1, y)
  }

  /** The words starting in the first `m` rows. */
  function RowsXmas(grid: Letters, m: nat): nat
    requires m <= |grid|
  {
    if m == 0 then 0 else RowsXmas(grid, m - 1) + RowXmas(grid, m - 1, |grid[m - 1]|)
  }

  /** Part 1: every (cell, direction) pair along which the word can be read. */
  method CountXmas(grid: Letters) returns (part1: nat)
    requires Rectangular(grid)
    ensures part1 == RowsXmas(grid, |grid|)
  {
    part1 := 0;
    for y := 0 to |grid|
      invariant part1 == RowsXmas(grid, y)
    {
      for x := 0 to |grid[y]|
        invariant part1 == RowsXmas(grid, y) + RowXmas(grid, y, x)
      {
        if grid[y][x] != Word[0] {
          continue;
        }
        var point := Point(x, y);
        for i := 0 to |Directions|
          invariant part1 == RowsXmas(grid, y) + RowXmas(grid, y, x) + DirectionsFound(grid, point, i)
        {
          var found := FoundInDirection(grid, point, Directions[i]);
          if found {
            part1 := part1 + 1;
          }
        }
      }
    }
  }

  /** The number of 'X' cells in the first `n` cells of row `y`. */
  function RowX(grid: Letters, y: nat, n: nat): nat
    requires y < |grid| && n <= |grid[y]|
  {
    if n == 0 then 0 else RowX(grid, y, n - 1) + (if grid[y][n - 1] == Word[0] then 1 else 0)
  }

  /** The number of 'X' cells in the first `m` rows. */
  function RowsX(grid: Letters, m: nat): nat
    requires m <= |grid|
  {
    if m == 0 then 0 else RowsX(grid, m - 1) + RowX(grid, m - 1, |grid[m - 1]|)
  }

  lemma {:induction false} RowXmasBound(grid: Letters, y: nat, n: nat)
    requires y < |grid| && n <= |grid[y]|
    ensures RowXmas(grid, y, n) <= 8 * RowX(grid, y, n)
    decreases n
  {
    if n > 0 {
      RowXmasBound(grid, y, n - 1);
    }
  }

  /** Each 'X' starts at most eight words, one per direction. */
  lemma {:induction false} XmasAtMostEightPerX(grid: Letters, m: nat)
    requires m <= |grid|
    ensures RowsXmas(grid, m) <= 8 * RowsX(grid, m)
    decreases m
  {
    if m > 0 {
      XmasAtMostEightPerX(grid, m - 1);
      RowXmasBound(grid, m - 1, |grid[m - 1]|);
    }
  }

  // ------------------------------------------------------------------ part 2

  /** The two letters of a diagonal through the centre are an 'M' and an 'S', in either order. */
  predicate MasPair(a: char, b: char)
  {
    (a == 'M' && b == 'S') || (a == 'S' && b == 'M')
  }

  /** An interior 'A' whose two diagonals both read "MAS" one way or the other. */
  predicate XMasAt(grid: Letters, x: nat, y: nat)
    requires 1 <= y < |grid| - 1 && 1 <= x < |grid[y]| - 1
    requires |grid[y - 1]| == |grid[y]| == |grid[y + 1]|
  {
    && grid[y][x] == 'A'
    && MasPair(grid[y - 1][x - 1], grid[y + 1][x + 1])
    && MasPair(grid[y - 1][x + 1], grid[y + 1][x - 1])
  }

  /** The crosses centred at columns 1 to n - 1 of interior row `y`. */
  function RowXMas(grid: Letters, y: nat, n: int): nat
    requires Rectangular(grid) && 1 <= y < |grid| - 1 && (n <= 1 || n <= |grid[y]| - 1)
  {
    if n <= 1 then 0 else RowXMas(grid, y, n - 1) + (if XMasAt(grid, n - 1, y) then 1 else 0)
  }

  /** The crosses centred in interior rows 1 to m - 1. */
  function RowsXMas(grid: Letters, m: nat): nat
    requires Rectangular(grid) && (m <= 1 || m <= |grid| - 1)
  {
    if m <= 1 then 0 else RowsXMas(grid, m - 1) + RowXMas(grid, m - 1, |grid[m - 1]| - 1)
  }

  /** Part 2: the interior 'A' cells at the centre of two crossing "MAS". */
  method CountXMas(grid: Letters) returns (part2: nat)
    requires Rectangular(grid)
    requires |grid| >= 3 ==> |grid[0]| >= 1
    ensures part2 == RowsXMas(grid, |grid| - 1)
  {
    part2 := 0;
    var y := 1;
    while y < |grid| - 1
      invariant 1 <= y && (y <= |grid| - 1 || y == 1)
      invariant part2 == RowsXMas(grid, y)
    {
      var x := 1;
      while x < |grid[y]| - 1
        invariant 1 <= x && (x <= |grid[y]| - 1 || x == 1)
        invariant part2 == RowsXMas(grid, y) + RowXMas(grid, y, x)
      {
        if grid[y][x] != 'A' {
          x := x + 1;
          continue;
        }
        var foundLeftRight := false;
        var foundRightLeft := false;
        var point := Point(x, y);
        if CheckDirection(grid, point, UpLeft, 'M') && CheckDirection(grid, point, DownRight, 'S') {
          foundLeftRight := true;
        } else if CheckDirection(grid, point, UpLeft, 'S') && CheckDirection(grid, point, DownRight, 'M') {
          foundLeftRight := true;
        }
        if CheckDirection(grid, point, UpRight, 'M') && CheckDirection(grid, point, DownLeft, 'S') {
          foundRightLeft := true;
        } else if CheckDirection(grid, point, UpRight, 'S') && CheckDirection(grid, point, DownLeft, 'M') {
          foundRightLeft := true;
        }
        if foundLeftRight && foundRightLeft {
          part2 := part2 + 1;
        }
        x := x + 1;
      }
      y := y + 1;
    }
  }
}
