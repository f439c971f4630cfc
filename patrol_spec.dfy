/**
 * The patrol as a state machine over (position, heading): the meaning that the
 * solver's loops are proved against.
 */
module PatrolSpec {
  import opened Wrappers
  import opened Lab
  import opened Machine

  /** The cell at `p` is inside the grid and holds an obstacle. */
  predicate Blocked(grid: Grid, p: Point)
    requires WellFormed(grid)
  {
    GridContains(grid, p) && grid[p.y][p.x].obstacle
  }

  /**
   * One iteration of the patrol loop: stop when the cell ahead is outside the
   * grid, turn right in place when it is an obstacle, otherwise step onto it.
   */
  function Step(grid: Grid, s: State): (r: Option<State>)
    requires WellFormed(grid)
    ensures r.None? <==> !GridContains(grid, MoveDirection(s.0, s.1))
    ensures r.Some? ==> r.value == (s.0, RotateClockwise(s.1)) || r.value == (MoveDirection(s.0, s.1), s.1)
    ensures r.Some? ==> (r.value == (s.0, RotateClockwise(s.1)) <==>
      grid[MoveDirection(s.0, s.1).y][MoveDirection(s.0, s.1).x].obstacle)
    ensures r.Some? && GridContains(grid, s.0) && !grid[s.0.y][s.0.x].obstacle ==>
      GridContains(grid, r.value.0) && !grid[r.value.0.y][r.value.0.x].obstacle
  {
    var next := MoveDirection(s.0, s.1);
    if !GridContains(grid, next) then None
    else if grid[next.y][next.x].obstacle then Some((s.0, RotateClockwise(s.1)))
    else Some((next, s.1))
  }

  /** The state after `n` iterations from `s`, or None once the guard has left. */
  function Iter(grid: Grid, s: State, n: nat): Option<State>
    requires WellFormed(grid)
  {
    if n == 0 then Some(s) else Then(grid, Iter(grid, s, n - 1))
  }

  /** One more iteration, if the guard is still inside. */
  function Then(grid: Grid, o: Option<State>): Option<State>
    requires WellFormed(grid)
  {
    match o
    case None => None
    case Some(t) => Step(grid, t)
  }

  /** The guard started in `s` eventually walks off the grid. */
  ghost predicate Escapes(grid: Grid, s: State)
    requires WellFormed(grid)
  {
    exists n: nat :: Iter(grid, s, n).None?
  }

  /** Iteration `t` steps forward (rather than turning or leaving). */
  predicate Moves(grid: Grid, t: State)
    requires WellFormed(grid)
  {
    var next := MoveDirection(t.0, t.1);
    GridContains(grid, next) && !grid[next.y][next.x].obstacle
  }

  /** All four neighbours of `p` are obstacles inside the grid. */
  predicate Enclosed(grid: Grid, p: Point)
    requires WellFormed(grid)
  {
    && Blocked(grid, MoveDirection(p, Up))
    && Blocked(grid, MoveDirection(p, Right))
    && Blocked(grid, MoveDirection(p, Down))
    && Blocked(grid, MoveDirection(p, Left))
  }

  /** No state the guard reaches from `s` stands on an enclosed cell. */
  ghost predicate NeverTrapped(grid: Grid, s: State)
    requires WellFormed(grid)
  {
    forall n: nat :: Iter(grid, s, n).Some? ==> !Enclosed(grid, Iter(grid, s, n).value.0)
  }

  /** How many quarter turns the guard makes at `p` before it can go on (4: never). */
  function TurnsToFree(grid: Grid, p: Point, d: Direction): (r: nat)
    requires WellFormed(grid)
    ensures r <= 4 && (r == 4 <==> Enclosed(grid, p))
  {
    RotateFourTimes(d);
    if !Blocked(grid, MoveDirection(p, d)) then 0
    else if !Blocked(grid, MoveDirection(p, RotateClockwise(d))) then 1
    else if !Blocked(grid, MoveDirection(p, RotateClockwise(RotateClockwise(d)))) then 2
    else if !Blocked(grid, MoveDirection(p, RotateClockwise(RotateClockwise(RotateClockwise(d))))) then 3
    else 4
  }

  /** Turning in front of an obstacle brings the guard one turn closer to a free way. */
  lemma TurnProgress(grid: Grid, p: Point, d: Direction)
    requires WellFormed(grid)
    requires Blocked(grid, MoveDirection(p, d)) && !Enclosed(grid, p)
    ensures TurnsToFree(grid, p, RotateClockwise(d)) < TurnsToFree(grid, p, d)
  {
    RotateFourTimes(d);
  }

  /** Every (position, heading) pair whose position is inside the grid. */
  ghost function InGridStates(grid: Grid): set<State>
    requires WellFormed(grid)
  {
    States(|grid[0]|, |grid|)
  }

  /** The (position, heading) pairs on a `width` by `height` grid. */
  ghost function States(width: nat, height: nat): set<State>
  {
    set x: int, y: int, d: Direction | 0 <= x < width && 0 <= y < height && d in AllDirections
      :: (Point(x, y), d)
  }

  /** The (position, heading) pairs on the first `width` cells of row `y`. */
  ghost function RowStates(width: nat, y: int): set<State>
  {
    set x: int, d: Direction | 0 <= x < width && d in AllDirections :: (Point(x, y), d)
  }

  /** The four headings at one position. */
  ghost function CellStates(p: Point): (r: set<State>)
    ensures |r| == 4
  {
    {(p, Up), (p, Right), (p, Down), (p, Left)}
  }

  /** A row's states are those of its first cells and those of its last cell. */
  lemma RowStatesLast(width: nat, y: int)
    requires width > 0
    ensures |RowStates(width, y)| == |RowStates(width - 1, y)| + 4
  {
    var last := Point(width - 1, y);
    forall t | t in RowStates(width, y) ensures t in RowStates(width - 1, y) + CellStates(last) {
      if t.0.x == width - 1 {
        assert t.0 == last;
      }
    }
    forall t | t in CellStates(last) ensures t in RowStates(width, y) {
      assert t.1 in AllDirections;
    }
    var before, cell := RowStates(width - 1, y), CellStates(last);
    assert RowStates(width, y) == before + cell;
    assert before !! cell;
    assert |before + cell| == |before| + |cell|;
  }

  lemma {:induction false} RowStatesCount(width: nat, y: int)
    ensures |RowStates(width, y)| == 4 * width
    decreases width
  {
    if width > 0 {
      RowStatesCount(width - 1, y);
      RowStatesLast(width, y);
    }
  }

  /** A grid holds four states per cell. */
  lemma {:induction false} StatesCount(width: nat, height: nat)
    ensures |States(width, height)| == 4 * width * height
    decreases height
  {
    if height > 0 {
      StatesCount(width, height - 1);
      RowStatesCount(width, height - 1);
      StatesLast(width, height);
      assert 4 * width * height == 4 * width * (height - 1) + 4 * width;
    }
  }

  /** A grid's states are those of its first rows and those of its last row. */
  lemma StatesLast(width: nat, height: nat)
    requires height > 0
    ensures |States(width, height)| == |States(width, height - 1)| + |RowStates(width, height - 1)|
  {
    var before, row := States(width, height - 1), RowStates(width, height - 1);
    forall t | t in States(width, height) ensures t in before + row {
      if t.0.y < height - 1 {
        assert t in before;
      }
    }
    assert States(width, height) == before + row;
    assert before !! row;
    assert |before + row| == |before| + |row|;
  }

  /** A well-formed grid has four in-grid states per cell. */
  lemma InGridStatesCount(grid: Grid)
    requires WellFormed(grid)
    ensures |InGridStates(grid)| == 4 * |grid| * |grid[0]|
  {
    StatesCount(|grid[0]|, |grid|);
  }

  /** A set of in-grid states has at most four members per cell. */
  lemma RecordedBound(grid: Grid, seen: set<State>)
    requires WellFormed(grid) && seen <= InGridStates(grid)
    ensures |seen| <= 4 * |grid| * |grid[0]|
  {
    InGridStatesCount(grid);
    assert InGridStates(grid) == seen + (InGridStates(grid) - seen);
  }

  lemma InGridState(grid: Grid, p: Point, d: Direction)
    requires WellFormed(grid) && GridContains(grid, p)
    ensures (p, d) in InGridStates(grid)
  {
    assert p == Point(p.x, p.y);
  }

  /** Recording a new in-grid state shrinks the set of states still unseen. */
  lemma UnseenShrinks(grid: Grid, seen: set<State>, t: State)
    requires WellFormed(grid) && GridContains(grid, t.0)
    requires seen <= InGridStates(grid) && t !in seen
    ensures seen + {t} <= InGridStates(grid)
    ensures |InGridStates(grid) - (seen + {t})| < |InGridStates(grid) - seen|
  {
    InGridState(grid, t.0, t.1);
    assert InGridStates(grid) - (seen + {t}) == (InGridStates(grid) - seen) - {t};
  }

  /** Every recorded state was reached, at the iteration `when` gives, by the `k`-th iteration. */
  ghost predicate RecordedOnPath(grid: Grid, s: State, seen: set<State>, when: map<State, nat>, k: nat)
    requires WellFormed(grid)
  {
    forall q :: q in seen ==> q in when && when[q] <= k && Iter(grid, s, when[q]) == Some(q)
  }

  lemma RecordStep(grid: Grid, s: State, seen: set<State>, when: map<State, nat>, k: nat, t: State)
    requires WellFormed(grid) && RecordedOnPath(grid, s, seen, when, k)
    requires Iter(grid, s, k + 1) == Some(t)
    ensures RecordedOnPath(grid, s, seen, when, k + 1)
    ensures RecordedOnPath(grid, s, seen + {t}, when[t := k + 1], k + 1)
  {
  }

  /** Stepping onto a recorded state means the guard never leaves. */
  lemma RecordedRevisit(grid: Grid, s: State, seen: set<State>, when: map<State, nat>, k: nat, t: State)
    requires WellFormed(grid) && RecordedOnPath(grid, s, seen, when, k)
    requires Iter(grid, s, k + 1) == Some(t) && t in seen
    ensures !Escapes(grid, s)
  {
    RevisitNeverEscapes(grid, s, when[t], k + 1);
  }

  /** The iteration after a state the guard is in is that state's step. */
  lemma IterNext(grid: Grid, s: State, k: nat, t: State)
    requires WellFormed(grid) && Iter(grid, s, k) == Some(t)
    ensures Iter(grid, s, k + 1) == Step(grid, t)
  {
  }

  /** The same dimensions and the same obstacles; the other flags may differ. */
  ghost predicate SameLayout(g1: Grid, g2: Grid)
  {
    && |g1| == |g2|
    && (forall y :: 0 <= y < |g1| ==> |g1[y]| == |g2[y]|)
    && (forall y, x :: 0 <= y < |g1| && 0 <= x < |g1[y]| ==> g1[y][x].obstacle == g2[y][x].obstacle)
  }

  /** The grid with the trial obstacle placed at `p`. */
  function PlaceObstacle(grid: Grid, p: Point): (r: Grid)
    requires WellFormed(grid) && GridContains(grid, p)
    ensures WellFormed(r) && Blocked(r, p)
  {
    SetCell(grid, p, grid[p.y][p.x].(obstacle := true))
  }

  /** The patrol step as a step function of a machine. */
  function StepOf(grid: Grid): State -> Option<State>
    requires WellFormed(grid)
  {
    t => Step(grid, t)
  }

  /** The patrol's iterations are those of the machine with that step. */
  lemma {:induction false} IterIsIterate(grid: Grid, s: State, n: nat)
    requires WellFormed(grid)
    ensures Iter(grid, s, n) == Iterate(StepOf(grid), s, n)
  {
    if n > 0 {
      IterIsIterate(grid, s, n - 1);
    }
  }

  /** Once the guard has left, it stays gone. */
  lemma IterAbsorbing(grid: Grid, s: State, i: nat, j: nat)
    requires WellFormed(grid)
    ensures i <= j && Iter(grid, s, i).None? ==> Iter(grid, s, j).None?
  {
    IterIsIterate(grid, s, i);
    IterIsIterate(grid, s, j);
    StoppedStaysStopped(StepOf(grid), s, i, j);
  }

  /** A state reached after `k` iterations comes before any iteration where the guard is gone. */
  lemma IterBeforeExit(grid: Grid, s: State, k: nat, n: nat)
    requires WellFormed(grid)
    requires Iter(grid, s, k).Some? && Iter(grid, s, n).None?
    ensures k < n
  {
    IterAbsorbing(grid, s, n, k);
  }

  /**
   * A guard that comes back to a state it has been in never leaves:
   * from there it repeats the same rounds forever.
   */
  lemma RevisitNeverEscapes(grid: Grid, s: State, i: nat, j: nat)
    requires WellFormed(grid)
    requires i < j && Iter(grid, s, i) == Iter(grid, s, j) && Iter(grid, s, j).Some?
    ensures !Escapes(grid, s)
  {
    forall n: nat
      ensures Iter(grid, s, n).Some?
    {
      IterIsIterate(grid, s, i);
      IterIsIterate(grid, s, j);
      IterIsIterate(grid, s, n);
      RepeatRunsForever(StepOf(grid), s, i, j, n);
    }
  }

  /** Only dimensions and obstacles steer the guard. */
  lemma SameLayoutIter(g1: Grid, g2: Grid, s: State, n: nat)
    requires WellFormed(g1) && WellFormed(g2) && SameLayout(g1, g2)
    ensures Iter(g1, s, n) == Iter(g2, s, n)
  {
    forall t ensures StepOf(g1)(t) == StepOf(g2)(t) {
      SameLayoutStep(g1, g2, t);
    }
    IterIsIterate(g1, s, n);
    IterIsIterate(g2, s, n);
    SameStepSameRun(StepOf(g1), StepOf(g2), s, n);
  }

  /** One step sees only the dimensions and the obstacles. */
  lemma SameLayoutStep(g1: Grid, g2: Grid, t: State)
    requires WellFormed(g1) && WellFormed(g2) && SameLayout(g1, g2)
    ensures Step(g1, t) == Step(g2, t)
  {
    var next := MoveDirection(t.0, t.1);
    if GridContains(g1, next) {
      assert g1[next.y][next.x].obstacle == g2[next.y][next.x].obstacle;
    }
  }

  /** Whether the guard escapes depends on the layout alone. */
  lemma SameLayoutEscapes(g1: Grid, g2: Grid, s: State)
    requires WellFormed(g1) && WellFormed(g2) && SameLayout(g1, g2)
    ensures Escapes(g1, s) <==> Escapes(g2, s)
  {
    forall n: nat
      ensures Iter(g1, s, n) == Iter(g2, s, n)
    {
      SameLayoutIter(g1, g2, s, n);
    }
  }

  /** Whether the guard can get trapped depends on the layout alone. */
  lemma SameLayoutTrapped(g1: Grid, g2: Grid, s: State)
    requires WellFormed(g1) && WellFormed(g2) && SameLayout(g1, g2)
    ensures NeverTrapped(g1, s) <==> NeverTrapped(g2, s)
  {
    forall n: nat
      ensures Iter(g1, s, n) == Iter(g2, s, n)
      ensures Iter(g1, s, n).Some? ==> (Enclosed(g1, Iter(g1, s, n).value.0) <==> Enclosed(g2, Iter(g1, s, n).value.0))
    {
      SameLayoutIter(g1, g2, s, n);
    }
  }

  lemma SameLayoutTrans(g1: Grid, g2: Grid, g3: Grid)
    requires SameLayout(g1, g2) && SameLayout(g2, g3)
    ensures SameLayout(g1, g3)
  {
  }

  /** Writing a cell that keeps its obstacle flag keeps the layout. */
  lemma SetCellLayout(grid: Grid, p: Point, cell: GridPoint)
    requires WellFormed(grid) && GridContains(grid, p) && cell.obstacle == grid[p.y][p.x].obstacle
    ensures SameLayout(SetCell(grid, p, cell), grid)
  {
    forall y, x | 0 <= y < |grid| && 0 <= x < |grid[y]| && Point(x, y) != p
      ensures SetCell(grid, p, cell)[y][x] == grid[y][x]
    {
      SetCellElsewhere(grid, p, cell, Point(x, y));
    }
  }

  /** Placing the same trial obstacle in two grids of the same layout keeps them alike. */
  lemma PlaceObstacleLayout(g1: Grid, g2: Grid, p: Point)
    requires WellFormed(g1) && WellFormed(g2) && SameLayout(g1, g2) && GridContains(g1, p)
    ensures GridContains(g2, p) && SameLayout(PlaceObstacle(g1, p), PlaceObstacle(g2, p))
  {
    forall y, x | 0 <= y < |g1| && 0 <= x < |g1[y]| && Point(x, y) != p
      ensures PlaceObstacle(g1, p)[y][x].obstacle == PlaceObstacle(g2, p)[y][x].obstacle
    {
      SetCellElsewhere(g1, p, g1[p.y][p.x].(obstacle := true), Point(x, y));
      SetCellElsewhere(g2, p, g2[p.y][p.x].(obstacle := true), Point(x, y));
    }
  }

  /** Iteration `i` of the run from `s0` steps forward from the cell `c`. */
  ghost predicate LeavesAt(g0: Grid, s0: State, i: nat, c: Point)
    requires WellFormed(g0)
  {
    Iter(g0, s0, i).Some? && Moves(g0, Iter(g0, s0, i).value) && Iter(g0, s0, i).value.0 == c
  }

  /**
   * Iteration `i` of the run from `s0` steps onto the cell `c`, and a guard in that
   * same state facing an obstacle placed at `c` instead never leaves the grid.
   */
  ghost predicate TrialLoopsAt(g0: Grid, s0: State, i: nat, c: Point)
    requires WellFormed(g0)
  {
    && Iter(g0, s0, i).Some?
    && Moves(g0, Iter(g0, s0, i).value)
    && MoveDirection(Iter(g0, s0, i).value.0, Iter(g0, s0, i).value.1) == c
    && !Escapes(PlaceObstacle(g0, c), Iter(g0, s0, i).value)
  }

  /** Some step of the run from `s0` leaves `c`. */
  ghost predicate LeftBehind(g0: Grid, s0: State, c: Point)
    requires WellFormed(g0)
  {
    exists i: nat :: LeavesAt(g0, s0, i, c)
  }

  /** Some trial obstacle placed at `c` during the run from `s0` makes the guard loop. */
  ghost predicate LoopFound(g0: Grid, s0: State, c: Point)
    requires WellFormed(g0)
  {
    exists i: nat :: TrialLoopsAt(g0, s0, i, c)
  }

  /**
   * Iteration `i` of the run from `s0` runs the cycle detector: the guard steps
   * forward, and the cell ahead carries no loop flag, neither from the start nor
   * from an earlier trial.
   */
  ghost predicate TrialRuns(g0: Grid, s0: State, i: nat)
    requires WellFormed(g0)
  {
    && Iter(g0, s0, i).Some?
    && Moves(g0, Iter(g0, s0, i).value)
    && var c := MoveDirection(Iter(g0, s0, i).value.0, Iter(g0, s0, i).value.1);
      !g0[c.y][c.x].infiniteLoop && !LoopFoundBefore(g0, s0, i, c)
  }

  /**
   * No trial the run from `s0` carries out traps the guard on an enclosed cell
   * (where the solver's turning loop would spin forever).
   */
  ghost predicate TrialsTerminate(g0: Grid, s0: State)
    requires WellFormed(g0)
  {
    forall i: nat :: TrialRuns(g0, s0, i) ==>
      NeverTrapped(PlaceObstacle(g0, MoveDirection(Iter(g0, s0, i).value.0, Iter(g0, s0, i).value.1)),
                   Iter(g0, s0, i).value)
  }

  /** Some trial among the first `k` iterations placed an obstacle at `c` and found a loop. */
  ghost predicate LoopFoundBefore(g0: Grid, s0: State, k: nat, c: Point)
    requires WellFormed(g0)
  {
    exists i: nat :: i < k && TrialLoopsAt(g0, s0, i, c)
  }

  /** One of the first `k` iterations stepped away from `c`. */
  ghost predicate LeftBefore(g0: Grid, s0: State, k: nat, c: Point)
    requires WellFormed(g0)
  {
    exists i: nat :: i < k && LeavesAt(g0, s0, i, c)
  }

  lemma BeforeNext(g0: Grid, s0: State, k: nat, c: Point)
    requires WellFormed(g0)
    ensures LoopFoundBefore(g0, s0, k + 1, c) <==> LoopFoundBefore(g0, s0, k, c) || TrialLoopsAt(g0, s0, k, c)
    ensures LeftBefore(g0, s0, k + 1, c) <==> LeftBefore(g0, s0, k, c) || LeavesAt(g0, s0, k, c)
  {
    if LoopFoundBefore(g0, s0, k + 1, c) {
      var i: nat :| i < k + 1 && TrialLoopsAt(g0, s0, i, c);
      assert i < k || i == k;
    }
    if LeftBefore(g0, s0, k + 1, c) {
      var i: nat :| i < k + 1 && LeavesAt(g0, s0, i, c);
      assert i < k || i == k;
    }
  }

  /**
   * When iteration `k` is the last one, the first `k` iterations hold every
   * step and every trial of the whole run.
   */
  lemma BeforeExit(g0: Grid, s0: State, k: nat, c: Point)
    requires WellFormed(g0)
    requires Iter(g0, s0, k).Some? && Step(g0, Iter(g0, s0, k).value).None?
    ensures LoopFound(g0, s0, c) <==> LoopFoundBefore(g0, s0, k, c)
    ensures LeftBehind(g0, s0, c) <==> LeftBefore(g0, s0, k, c)
  {
    forall i: nat | k <= i
      ensures !TrialLoopsAt(g0, s0, i, c) && !LeavesAt(g0, s0, i, c)
    {
      NoMoveAfterExit(g0, s0, k, i);
    }
  }

  /** From the last iteration on, the guard steps nowhere. */
  lemma NoMoveAfterExit(g0: Grid, s0: State, k: nat, i: nat)
    requires WellFormed(g0)
    requires Iter(g0, s0, k).Some? && Step(g0, Iter(g0, s0, k).value).None?
    requires k <= i
    ensures !(Iter(g0, s0, i).Some? && Moves(g0, Iter(g0, s0, i).value))
  {
    if k < i {
      IterNext(g0, s0, k, Iter(g0, s0, k).value);
      IterAbsorbing(g0, s0, k + 1, i);
    }
  }

  /** Iteration `k` is the guard's last: the cell ahead is outside the grid. */
  ghost predicate FinalAt(g0: Grid, s0: State, k: nat)
    requires WellFormed(g0)
  {
    Iter(g0, s0, k).Some? && Step(g0, Iter(g0, s0, k).value).None?
  }

  /** The guard leaves the grid from the cell `c`. */
  ghost predicate ExitsFrom(g0: Grid, s0: State, c: Point)
    requires WellFormed(g0)
  {
    exists k: nat :: FinalAt(g0, s0, k) && Iter(g0, s0, k).value.0 == c
  }

  /** The guard stands on `c` at some iteration of the run from `s0`. */
  ghost predicate Visited(g0: Grid, s0: State, c: Point)
    requires WellFormed(g0)
  {
    exists i: nat :: Iter(g0, s0, i).Some? && Iter(g0, s0, i).value.0 == c
  }

  /** A cell the guard stands on before its last iteration is left later or is the exit cell. */
  lemma {:induction false} LaterLeftOrExit(g0: Grid, s0: State, i: nat, k: nat, c: Point)
    requires WellFormed(g0) && FinalAt(g0, s0, k) && i <= k
    requires Iter(g0, s0, i).Some? && Iter(g0, s0, i).value.0 == c
    ensures LeftBehind(g0, s0, c) || Iter(g0, s0, k).value.0 == c
    decreases k - i
  {
    if i < k {
      var t := Iter(g0, s0, i).value;
      IterNext(g0, s0, i, t);
      if Moves(g0, t) {
        assert LeavesAt(g0, s0, i, c);
      } else {
        IterAbsorbing(g0, s0, i + 1, k);
        LaterLeftOrExit(g0, s0, i + 1, k, c);
      }
    }
  }

  /** The cells the guard stands on are exactly the cells it steps away from and its exit cell. */
  lemma VisitedLeftOrExit(g0: Grid, s0: State, c: Point, exit: Point)
    requires WellFormed(g0) && ExitsFrom(g0, s0, exit)
    ensures Visited(g0, s0, c) <==> LeftBehind(g0, s0, c) || c == exit
  {
    var k: nat :| FinalAt(g0, s0, k) && Iter(g0, s0, k).value.0 == exit;
    if Visited(g0, s0, c) {
      var i: nat :| Iter(g0, s0, i).Some? && Iter(g0, s0, i).value.0 == c;
      IterNext(g0, s0, k, Iter(g0, s0, k).value);
      IterAbsorbing(g0, s0, k + 1, i);
      LaterLeftOrExit(g0, s0, i, k, c);
    }
  }

  /** The guard only ever stands on its start cell or on cells of the grid. */
  lemma {:induction false} IterInGrid(g0: Grid, s0: State, i: nat)
    requires WellFormed(g0)
    ensures Iter(g0, s0, i).Some? ==> GridContains(g0, Iter(g0, s0, i).value.0) || Iter(g0, s0, i).value.0 == s0.0
  {
    if i > 0 {
      IterInGrid(g0, s0, i - 1);
      assert Iter(g0, s0, i) == Then(g0, Iter(g0, s0, i - 1));
    }
  }
}
