/**
 * The guard-patrol solver's walking parts: the cycle detector and the patrol
 * with a trial obstacle in front of every forward step.
 */
module Patrol {
  import opened Wrappers
  import opened Lab
  import opened PatrolSpec

  /**
   * Walks from (point, direction) until the cell ahead is outside the grid
   * (false) or a step forward reaches a (position, heading) pair seen before (true).
   * Only states reached by stepping forward are recorded; turns are not.
   * `moves` counts the forward steps: each records a new in-grid state, so
   * there are fewer than four per cell of the grid.
   */
  method HasCycle(grid: Grid, point: Point, direction: Direction) returns (cycle: bool, ghost moves: nat)
    requires WellFormed(grid) && GridContains(grid, point)
    requires NeverTrapped(grid, (point, direction))
    ensures cycle <==> !Escapes(grid, (point, direction))
    ensures moves < 4 * |grid| * |grid[0]|
  {
    moves := 0;
    var seen: set<State> := {(point, direction)};
    var current := point;
    var currentDirection := direction;
    ghost var s0 := (point, direction);
    ghost var k: nat := 0;
    ghost var when: map<State, nat> := map[s0 := 0];
    InGridState(grid, point, direction);

    while GridContains(grid, MoveDirection(current, currentDirection))
      invariant GridContains(grid, current)
      invariant seen <= InGridStates(grid)
      invariant Iter(grid, s0, k) == Some((current, currentDirection))
      invariant RecordedOnPath(grid, s0, seen, when, k)
      invariant moves + 1 == |seen|
      decreases |InGridStates(grid) - seen|, TurnsToFree(grid, current, currentDirection)
    {
      var next := MoveDirection(current, currentDirection);
      IterNext(grid, s0, k, (current, currentDirection));

      if grid[next.y][next.x].obstacle {
        TurnProgress(grid, current, currentDirection);
        RecordStep(grid, s0, seen, when, k, (current, RotateClockwise(currentDirection)));
        currentDirection := RotateClockwise(currentDirection);
        k := k + 1;
        continue;
      }

      if (next, currentDirection) in seen {
        RecordedRevisit(grid, s0, seen, when, k, (next, currentDirection));
        RecordedBound(grid, seen);
        return true, moves;
      }

      UnseenShrinks(grid, seen, (next, currentDirection));
      RecordStep(grid, s0, seen, when, k, (next, currentDirection));
      seen := seen + {(next, currentDirection)};
      when := when[(next, currentDirection) := k + 1];
      current := next;
      moves := moves + 1;
      k := k + 1;
    }

    IterNext(grid, s0, k, (current, currentDirection));
    RecordedBound(grid, seen);
    return false, moves;
  }

  /**
   * The grid after the trial in front of a forward step from (current,
   * direction): the cell ahead gets its loop flag set when a guard in this state,
   * facing an obstacle placed there, would never leave. Nothing else changes.
   */
  ghost function AfterTrial(grid: Grid, current: Point, direction: Direction): (r: Grid)
    requires WellFormed(grid) && Moves(grid, (current, direction))
    ensures WellFormed(r) && SameLayout(r, grid)
  {
    var next := MoveDirection(current, direction);
    var cell := grid[next.y][next.x].(infiniteLoop :=
      grid[next.y][next.x].infiniteLoop || !Escapes(PlaceObstacle(grid, next), (current, direction)));
    SetCellLayout(grid, next, cell);
    SetCell(grid, next, cell)
  }

  /**
   * The trial in front of one forward step: the free cell ahead becomes an
   * obstacle, the cycle detector runs from the guard's current state unless the
   * cell is already flagged, and the cell is made free again.
   */
  method TrialObstacle(grid: Grid, current: Point, direction: Direction) returns (result: Grid)
    requires WellFormed(grid) && GridContains(grid, current) && Moves(grid, (current, direction))
    requires var next := MoveDirection(current, direction);
      !grid[next.y][next.x].infiniteLoop ==> NeverTrapped(PlaceObstacle(grid, next), (current, direction))
    ensures result == AfterTrial(grid, current, direction)
  {
    var next := MoveDirection(current, direction);
    var trial: Grid := SetCell(grid, next, grid[next.y][next.x].(obstacle := true));
    assert trial == PlaceObstacle(grid, next);
    if !trial[next.y][next.x].infiniteLoop {
      var cycle;
      ghost var moves;
      cycle, moves := HasCycle(trial, current, direction);
      ghost var placed := trial;
      trial := SetCell(trial, next, trial[next.y][next.x].(infiniteLoop := cycle));
      SetCellTwice(grid, next, placed[next.y][next.x], trial[next.y][next.x]);
    }
    result := SetCell(trial, next, trial[next.y][next.x].(obstacle := false));
    SetCellTwice(grid, next, trial[next.y][next.x], result[next.y][next.x]);
  }

  /**
   * After `k` iterations of the patrol from `s0` over the parsed grid `g0`, a
   * cell's loop flag is set exactly when it was set at the start or a trial at
   * that cell found a loop, and its traversed flag exactly when it was set at
   * the start or the guard has stepped away from it.
   */
  ghost predicate FlagsAfter(grid: Grid, g0: Grid, s0: State, k: nat)
    requires WellFormed(g0)
  {
    && SameLayout(grid, g0)
    && forall y, x :: 0 <= y < |g0| && 0 <= x < |g0[y]| ==>
         && (grid[y][x].infiniteLoop <==> g0[y][x].infiniteLoop || LoopFoundBefore(g0, s0, k, Point(x, y)))
         && (grid[y][x].traversed <==> g0[y][x].traversed || LeftBefore(g0, s0, k, Point(x, y)))
  }

  lemma FlagsAfterTurn(grid: Grid, g0: Grid, s0: State, k: nat)
    requires WellFormed(g0) && FlagsAfter(grid, g0, s0, k)
    requires Iter(g0, s0, k).Some? && !Moves(g0, Iter(g0, s0, k).value)
    ensures FlagsAfter(grid, g0, s0, k + 1)
  {
    forall c: Point {
      BeforeNext(g0, s0, k, c);
    }
  }

  /** The cell the guard steps away from is marked traversed; nothing else changes. */
  function MarkTraversed(grid: Grid, p: Point): (r: Grid)
    requires WellFormed(grid) && GridContains(grid, p)
    ensures WellFormed(r) && SameLayout(r, grid)
    ensures r[p.y][p.x] == grid[p.y][p.x].(traversed := true)
    ensures forall q :: GridContains(grid, q) && q != p ==> r[q.y][q.x] == grid[q.y][q.x]
  {
    var cell := grid[p.y][p.x].(traversed := true);
    SetCellLayout(grid, p, cell);
    forall q | GridContains(grid, q) && q != p
      ensures SetCell(grid, p, cell)[q.y][q.x] == grid[q.y][q.x]
    {
      SetCellElsewhere(grid, p, cell, q);
    }
    SetCell(grid, p, cell)
  }

  /** The grid after one forward step: the trial, then the traversed mark on the cell left. */
  ghost function AfterMove(grid: Grid, current: Point, direction: Direction): (r: Grid)
    requires WellFormed(grid) && GridContains(grid, current) && Moves(grid, (current, direction))
    ensures WellFormed(r) && SameLayout(r, grid)
  {
    var tried: Grid := AfterTrial(grid, current, direction);
    SameLayoutTrans(MarkTraversed(tried, current), tried, grid);
    MarkTraversed(tried, current)
  }

  lemma CellAfterMove(grid: Grid, g0: Grid, s0: State, k: nat, current: Point, direction: Direction, q: Point)
    requires WellFormed(g0) && WellFormed(grid) && FlagsAfter(grid, g0, s0, k)
    requires GridContains(g0, current) && Iter(g0, s0, k) == Some((current, direction))
    requires Moves(grid, (current, direction)) && GridContains(g0, q)
    ensures var after := AfterMove(grid, current, direction);
      && (after[q.y][q.x].infiniteLoop <==> g0[q.y][q.x].infiniteLoop || LoopFoundBefore(g0, s0, k + 1, q))
      && (after[q.y][q.x].traversed <==> g0[q.y][q.x].traversed || LeftBefore(g0, s0, k + 1, q))
  {
    var next := MoveDirection(current, direction);
    BeforeNext(g0, s0, k, q);
    assert q == Point(q.x, q.y);
    if q == next {
      AheadAfterMove(grid, g0, s0, k, current, direction);
    } else {
      ElsewhereAfterMove(grid, current, direction, q);
      if q == current {
        assert LeavesAt(g0, s0, k, q);
      }
    }
  }

  /** Away from the cell ahead, only the cell left behind changes: it is marked traversed. */
  lemma ElsewhereAfterMove(grid: Grid, current: Point, direction: Direction, q: Point)
    requires WellFormed(grid) && GridContains(grid, current) && Moves(grid, (current, direction))
    requires GridContains(grid, q) && q != MoveDirection(current, direction)
    ensures var after := AfterMove(grid, current, direction);
      && after[q.y][q.x].infiniteLoop == grid[q.y][q.x].infiniteLoop
      && (after[q.y][q.x].traversed <==> grid[q.y][q.x].traversed || q == current)
  {
    var next := MoveDirection(current, direction);
    var tried: Grid := AfterTrial(grid, current, direction);
    SetCellElsewhere(grid, next, tried[next.y][next.x], q);
    if q != current {
      SetCellElsewhere(tried, current, tried[current.y][current.x].(traversed := true), q);
    }
  }

  /** The cell ahead takes the trial's verdict and keeps its traversed flag. */
  lemma AheadAfterMove(grid: Grid, g0: Grid, s0: State, k: nat, current: Point, direction: Direction)
    requires WellFormed(g0) && WellFormed(grid) && SameLayout(grid, g0)
    requires GridContains(g0, current) && Iter(g0, s0, k) == Some((current, direction))
    requires Moves(grid, (current, direction))
    ensures var next := MoveDirection(current, direction);
      var after := AfterMove(grid, current, direction);
      && (after[next.y][next.x].infiniteLoop <==> grid[next.y][next.x].infiniteLoop || TrialLoopsAt(g0, s0, k, next))
      && (after[next.y][next.x].traversed <==> grid[next.y][next.x].traversed)
      && !LeavesAt(g0, s0, k, next)
  {
    var next := MoveDirection(current, direction);
    var tried: Grid := AfterTrial(grid, current, direction);
    PlaceObstacleLayout(grid, g0, next);
    SameLayoutEscapes(PlaceObstacle(grid, next), PlaceObstacle(g0, next), (current, direction));
    SetCellElsewhere(tried, current, tried[current.y][current.x].(traversed := true), next);
    assert TrialLoopsAt(g0, s0, k, next) <==> !Escapes(PlaceObstacle(grid, next), (current, direction));
  }

  lemma FlagsAfterMove(grid: Grid, g0: Grid, s0: State, k: nat, current: Point, direction: Direction)
    requires WellFormed(g0) && WellFormed(grid) && FlagsAfter(grid, g0, s0, k)
    requires GridContains(g0, current) && Iter(g0, s0, k) == Some((current, direction))
    requires Moves(grid, (current, direction))
    ensures FlagsAfter(AfterMove(grid, current, direction), g0, s0, k + 1)
  {
    SameLayoutTrans(AfterMove(grid, current, direction), grid, g0);
    forall y, x | 0 <= y < |g0| && 0 <= x < |g0[y]|
      ensures var after := AfterMove(grid, current, direction);
        && (after[y][x].infiniteLoop <==> g0[y][x].infiniteLoop || LoopFoundBefore(g0, s0, k + 1, Point(x, y)))
        && (after[y][x].traversed <==> g0[y][x].traversed || LeftBefore(g0, s0, k + 1, Point(x, y)))
    {
      CellAfterMove(grid, g0, s0, k, current, direction, Point(x, y));
    }
  }

  /**
   * What holds before each iteration of the patrol loop: the guard is in the
   * state reached after `k` iterations, and the flags record the first `k`.
   */
  ghost predicate WalkInv(grid: Grid, g0: Grid, s0: State, k: nat, current: Point, direction: Direction)
  {
    && WellFormed(g0) && WellFormed(grid) && FlagsAfter(grid, g0, s0, k)
    && Iter(g0, s0, k) == Some((current, direction))
    && (GridContains(g0, current) || |g0[0]| == 0)
  }

  /**
   * The patrol: before each forward step a trial obstacle goes on the cell
   * ahead; the cell the guard steps away from is marked traversed. The
   * obstacle layout is the same at the end as at the start, and `exit` is
   * the cell the guard leaves the grid from.
   */
  method Walk(grid0: Grid, start: Point, direction0: Direction) returns (grid: Grid, exit: Point)
    requires WellFormed(grid0)
    requires GridContains(grid0, start) || |grid0[0]| == 0
    requires Escapes(grid0, (start, direction0))
    requires TrialsTerminate(grid0, (start, direction0))
    ensures WellFormed(grid) && SameLayout(grid, grid0)
    ensures forall y, x :: 0 <= y < |grid0| && 0 <= x < |grid0[y]| ==>
      && (grid[y][x].infiniteLoop <==>
            grid0[y][x].infiniteLoop || LoopFound(grid0, (start, direction0), Point(x, y)))
      && (grid[y][x].traversed <==>
            grid0[y][x].traversed || LeftBehind(grid0, (start, direction0), Point(x, y)))
    ensures ExitsFrom(grid0, (start, direction0), exit)
  {
    grid := grid0;
    var current := start;
    var direction := direction0;
    ghost var s0 := (start, direction0);
    ghost var n: nat :| Iter(grid0, s0, n).None?;
    ghost var k: nat := 0;
    IterBeforeExit(grid0, s0, k, n);

    while GridContains(grid, MoveDirection(current, direction))
      invariant WalkInv(grid, grid0, s0, k, current, direction)
      invariant k < n
      decreases n - k
    {
      var next := MoveDirection(current, direction);
      if Blocked(grid, next) {
        WalkTurn(grid, grid0, s0, k, current, direction);
        direction := RotateClockwise(direction);
      } else {
        WalkMove(grid, grid0, s0, k, current, direction);
        ghost var before := grid;
        grid := TrialObstacle(grid, current, direction);
        grid := MarkTraversed(grid, current);
        assert grid == AfterMove(before, current, direction);
        current := next;
      }
      k := k + 1;
      IterBeforeExit(grid0, s0, k, n);
    }

    WalkExit(grid, grid0, s0, k, current, direction);
    exit := current;
  }

  lemma WalkTurn(grid: Grid, g0: Grid, s0: State, k: nat, current: Point, direction: Direction)
    requires WalkInv(grid, g0, s0, k, current, direction)
    requires Blocked(grid, MoveDirection(current, direction))
    ensures WalkInv(grid, g0, s0, k + 1, current, RotateClockwise(direction))
  {
    IterNext(g0, s0, k, (current, direction));
    FlagsAfterTurn(grid, g0, s0, k);
  }

  /**
   * A forward step of the patrol: the trial's precondition holds, and after
   * the trial and the traversed mark the loop invariant holds one iteration on.
   */
  lemma WalkMove(grid: Grid, g0: Grid, s0: State, k: nat, current: Point, direction: Direction)
    requires WalkInv(grid, g0, s0, k, current, direction) && TrialsTerminate(g0, s0)
    requires GridContains(grid, MoveDirection(current, direction)) && !Blocked(grid, MoveDirection(current, direction))
    ensures GridContains(grid, current) && Moves(grid, (current, direction))
    ensures var next := MoveDirection(current, direction);
      !grid[next.y][next.x].infiniteLoop ==> NeverTrapped(PlaceObstacle(grid, next), (current, direction))
    ensures WalkInv(AfterMove(grid, current, direction), g0, s0, k + 1, MoveDirection(current, direction), direction)
  {
    IterNext(g0, s0, k, (current, direction));
    TrialPrecondition(grid, g0, s0, k, current, direction);
    FlagsAfterMove(grid, g0, s0, k, current, direction);
  }

  /** When the guard is about to leave, the flags cover the whole run. */
  lemma WalkExit(grid: Grid, g0: Grid, s0: State, k: nat, current: Point, direction: Direction)
    requires WalkInv(grid, g0, s0, k, current, direction)
    requires !GridContains(grid, MoveDirection(current, direction))
    ensures WellFormed(grid) && SameLayout(grid, g0)
    ensures forall y, x :: 0 <= y < |g0| && 0 <= x < |g0[y]| ==>
      && (grid[y][x].infiniteLoop <==> g0[y][x].infiniteLoop || LoopFound(g0, s0, Point(x, y)))
      && (grid[y][x].traversed <==> g0[y][x].traversed || LeftBehind(g0, s0, Point(x, y)))
    ensures ExitsFrom(g0, s0, current)
  {
    IterNext(g0, s0, k, (current, direction));
    assert FinalAt(g0, s0, k);
    forall c: Point {
      BeforeExit(g0, s0, k, c);
    }
  }

  /**
   * The walk's trial from state `k`, when it runs the cycle detector (the cell
   * ahead is not flagged yet), satisfies the detector's precondition.
   */
  lemma TrialPrecondition(grid: Grid, g0: Grid, s0: State, k: nat, current: Point, direction: Direction)
    requires WellFormed(g0) && WellFormed(grid) && FlagsAfter(grid, g0, s0, k) && TrialsTerminate(g0, s0)
    requires Iter(g0, s0, k) == Some((current, direction)) && Moves(grid, (current, direction))
    ensures Moves(g0, (current, direction))
    ensures var next := MoveDirection(current, direction);
      !grid[next.y][next.x].infiniteLoop ==> NeverTrapped(PlaceObstacle(grid, next), (current, direction))
  {
    var next := MoveDirection(current, direction);
    if !grid[next.y][next.x].infiniteLoop {
      assert next == Point(next.x, next.y);
      assert TrialRuns(g0, s0, k);
      PlaceObstacleLayout(grid, g0, next);
      SameLayoutTrapped(PlaceObstacle(grid, next), PlaceObstacle(g0, next), (current, direction));
    }
  }
}
