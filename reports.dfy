/**
 * Reactor reports: a report is a line of levels; it is safe when the levels
 * move in one direction by steps of one to three. The dampener also accepts a
 * report that becomes safe once a single level is removed.
 */
module Reports {
  import opened Numbers

  /** One step from `a` to `b` in the given direction, by 1 to 3. */
  predicate GoodStep(a: nat, b: nat, increasing: bool)
  {
    if increasing then a < b <= a + 3 else b < a <= b + 3
  }

  predicate AllSteps(line: seq<nat>, increasing: bool)
  {
    forall j :: 1 <= j < |line| ==> GoodStep(line[j - 1], line[j], increasing)
  }

  /** At least two levels, all increasing or all decreasing, each step 1 to 3. */
  predicate Safe(line: seq<nat>)
  {
    |line| >= 2 && (AllSteps(line, true) || AllSteps(line, false))
  }

  /**
   * The single-pass check: the direction is fixed by the first two levels,
   * and the scan stops at the first level out of direction or out of step.
   */
  method CheckLine(line: seq<nat>) returns (ok: bool)
    ensures ok <==> Safe(line)
  {
    if |line| < 2 {
      return false;
    }
    var increasing := true;
    var lastValue := line[0];
    if lastValue > line[1] {
      increasing := false;
    }
    for i := 1 to |line|
      invariant lastValue == line[i - 1]
      invariant increasing <==> line[0] <= line[1]
      invariant forall j :: 1 <= j < i ==> GoodStep(line[j - 1], line[j], increasing)
    {
      if increasing && lastValue > line[i] {
        return false;
      } else if !increasing && lastValue < line[i] {
        return false;
      }
      var diff := AbsDiff(lastValue, line[i]);
      if diff == 0 || diff > 3 {
        return false;
      }
      lastValue := line[i];
    }
    return true;
  }

  /** In a safe report the first two levels fix the direction of every step. */
  lemma SafeDirection(line: seq<nat>)
    requires Safe(line)
    ensures line[0] != line[1]
    ensures line[0] < line[1] ==> AllSteps(line, true)
    ensures line[0] > line[1] ==> AllSteps(line, false)
  {
    assert GoodStep(line[0], line[1], true) || GoodStep(line[0], line[1], false);
  }

  /** The report without its level at index `i`. */
  function RemoveAt(line: seq<nat>, i: nat): (r: seq<nat>)
    requires i < |line|
    ensures |r| == |line| - 1
  {
    line[..i] + line[i + 1..]
  }

  /** Safe as it is, or safe once one level is removed. */
  ghost predicate Tolerable(line: seq<nat>)
  {
    Safe(line) || exists i :: 0 <= i < |line| && Safe(RemoveAt(line, i))
  }

  /** The dampener: a report that fails the check is retried with each single level removed. */
  method Dampened(line: seq<nat>) returns (ok: bool)
    ensures ok <==> Tolerable(line)
  {
    var checked := CheckLine(line);
    if !checked {
      for i := 0 to |line|
        invariant forall j :: 0 <= j < i ==> !Safe(RemoveAt(line, j))
      {
        var newLine := line[..i] + line[i + 1..];
        var safe := CheckLine(newLine);
        if safe {
          assert newLine == RemoveAt(line, i);
          return true;
        }
      }
    } else {
      return true;
    }
    return false;
  }

  /** Part 1: the number of safe reports. */
  function CountSafe(lines: seq<seq<nat>>): (r: nat)
    ensures r <= |lines|
  {
    if |lines| == 0 then 0
    else CountSafe(lines[..|lines| - 1]) + (if Safe(lines[|lines| - 1]) then 1 else 0)
  }

  /** Part 2: the number of reports the dampener accepts. */
  ghost function CountTolerable(lines: seq<seq<nat>>): (r: nat)
    ensures r <= |lines|
  {
    if |lines| == 0 then 0
    else CountTolerable(lines[..|lines| - 1]) + (if Tolerable(lines[|lines| - 1]) then 1 else 0)
  }

  /** Every safe report is tolerated, so part 2 is at least part 1. */
  lemma {:induction false} CountSafeAtMostTolerable(lines: seq<seq<nat>>)
    ensures CountSafe(lines) <= CountTolerable(lines)
    decreases |lines|
  {
    if |lines| > 0 {
      CountSafeAtMostTolerable(lines[..|lines| - 1]);
    }
  }

  /** Part 1 counted by the loop over the reports, one check per report. */
  method Part1(lines: seq<seq<nat>>) returns (count: nat)
    ensures count == CountSafe(lines)
  {
    count := 0;
    for k := 0 to |lines|
      invariant count == CountSafe(lines[..k])
    {
      assert lines[..k + 1][..k] == lines[..k];
      var ok := CheckLine(lines[k]);
      if ok {
        count := count + 1;
      }
    }
    assert lines[..|lines|] == lines;
  }

  /** Part 2 counted by the loop over the reports, one dampened check per report. */
  method Part2(lines: seq<seq<nat>>) returns (count: nat)
    ensures count == CountTolerable(lines)
  {
    count := 0;
    for k := 0 to |lines|
      invariant count == CountTolerable(lines[..k])
    {
      assert lines[..k + 1][..k] == lines[..k];
      var ok := Dampened(lines[k]);
      if ok {
        count := count + 1;
      }
    }
    assert lines[..|lines|] == lines;
  }
}
