/**
 * The lab map of the guard-patrol solver: points, headings, the per-cell flags
 * and the bounds test.
 */
module Lab {
  import opened Numbers

  /** A cell coordinate; (0, 0) is the top-left cell and y grows downwards. */
  datatype Point = Point(x: int, y: int)

  /** The guard's heading. */
  datatype Direction = Up | Down | Left | Right

  /** The three flags the solver keeps for every cell. */
  datatype GridPoint = GridPoint(traversed: bool, infiniteLoop: bool, obstacle: bool)

  /** Rows of cells; row y is `grid[y]`. */
  type Grid = seq<seq<GridPoint>>

  /** A guard state: where it stands and where it faces. */
  type State = (Point, Direction)

  const AllDirections: set<Direction> := {Up, Right, Down, Left}

  /** A grid with at least one row, all rows as long as the first. */
  predicate WellFormed(grid: Grid)
  {
    |grid| > 0 && forall y :: 0 <= y < |grid| ==> |grid[y]| == |grid[0]|
  }

  /** The heading after a quarter turn to the right. */
  function RotateClockwise(d: Direction): (r: Direction)
    ensures r != d
    // the unit step of r is the unit step of d turned a quarter clockwise (y grows downwards)
    ensures MoveDirection(Point(0, 0), r)
            == Point(-MoveDirection(Point(0, 0), d).y, MoveDirection(Point(0, 0), d).x)
  {
    match d
    case Up => Right
    case Right => Down
    case Down => Left
    case Left => Up
  }

  /** One step forward along `d`; the `+` operator of the solver. */
  function MoveDirection(p: Point, d: Direction): (r: Point)
    ensures AbsDiff(r.x, p.x) + AbsDiff(r.y, p.y) == 1
  {
    match d
    case Up => Point(p.x, p.y - 1)
    case Down => Point(p.x, p.y + 1)
    case Left => Point(p.x - 1, p.y)
    case Right => Point(p.x + 1, p.y)
  }

  /** One step backwards against `d`; the `-` operator of the solver. */
  function MoveOpposite(p: Point, d: Direction): (r: Point)
    // stepping back is turning round and stepping forward
    ensures r == MoveDirection(p, RotateClockwise(RotateClockwise(d)))
  {
    match d
    case Up => Point(p.x, p.y + 1)
    case Down => Point(p.x, p.y - 1)
    case Left => Point(p.x + 1, p.y)
    case Right => Point(p.x - 1, p.y)
  }

  /** Four quarter turns give back the heading; the turn visits every heading. */
  lemma RotateFourTimes(d: Direction)
    ensures RotateClockwise(RotateClockwise(RotateClockwise(RotateClockwise(d)))) == d
    ensures {d, RotateClockwise(d), RotateClockwise(RotateClockwise(d)),
             RotateClockwise(RotateClockwise(RotateClockwise(d)))} == AllDirections
  {
  }

  /** The turn is a bijection on headings. */
  lemma RotateInjective(d: Direction, e: Direction)
    ensures RotateClockwise(d) == RotateClockwise(e) ==> d == e
  {
  }

  /** `(p + d) - d == p` and `(p - d) + d == p`. */
  lemma MoveOppositeUndoesMove(p: Point, d: Direction)
    ensures MoveOpposite(MoveDirection(p, d), d) == p
    ensures MoveDirection(MoveOpposite(p, d), d) == p
  {
  }

  /** The bounds test; it reads the width from the first row. */
  function GridContains(grid: Grid, point: Point): (r: bool)
    requires |grid| > 0
    ensures WellFormed(grid) ==> (r <==> 0 <= point.y < |grid| && 0 <= point.x < |grid[point.y]|)
  {
    point.x < |grid[0]| && point.y < |grid| && point.x >= 0 && point.y >= 0
  }

  /** The grid after `grid[p.y][p.x] = cell`. */
  function SetCell(grid: Grid, p: Point, cell: GridPoint): (r: Grid)
    requires WellFormed(grid) && GridContains(grid, p)
    ensures WellFormed(r) && |r| == |grid| && |r[0]| == |grid[0]|
    ensures r[p.y][p.x] == cell
  {
    grid[p.y := grid[p.y][p.x := cell]]
  }

  /** Writing one cell leaves every other cell as it was. */
  lemma SetCellElsewhere(grid: Grid, p: Point, cell: GridPoint, q: Point)
    requires WellFormed(grid) && GridContains(grid, p) && GridContains(grid, q) && q != p
    ensures SetCell(grid, p, cell)[q.y][q.x] == grid[q.y][q.x]
  {
  }

  /** A second write to the same cell replaces the first. */
  lemma SetCellTwice(grid: Grid, p: Point, a: GridPoint, b: GridPoint)
    requires WellFormed(grid) && GridContains(grid, p)
    ensures SetCell(SetCell(grid, p, a), p, b) == SetCell(grid, p, b)
  {
    assert SetCell(SetCell(grid, p, a), p, b)[p.y] == SetCell(grid, p, b)[p.y];
  }
}
