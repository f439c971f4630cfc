# Advent of Code solvers, modelled in Dafny

This project models the cores of six puzzle solvers from one Rust repository. It proves what each solver computes.

- **Guard patrol (day 6).** A guard walks a lab map. It turns right in front of an obstacle. Before each step forward, a trial obstacle is placed on the cell ahead, and a cycle detector decides whether the guard would then loop forever. Part 1 counts the cells the guard covers. Part 2 counts the cells where a trial obstacle traps it.
- **Bridge repair (day 7).** The question is whether an equation's numbers, combined left to right with `+`, `*` and (in part 2) decimal concatenation, can reach its result.
- **Reactor reports (day 2).** A report is safe when its levels move strictly one way in steps of 1 to 3. The dampener also accepts a report that becomes safe once one level is removed.
- **Word search (day 4).** Part 1 counts "XMAS" in all eight directions. Part 2 counts two diagonal "MAS" words crossing on an 'A'.
- **Print queue (day 5).** Updates are checked against "a|b" ordering rules. The middle pages of the updates in order are summed, and so are the middle pages of the reordered others.
- **Location lists (day 1).** The sorted distance between two lists, and a similarity score weighted by frequency.

## Files

- `wrappers.dfy`: `Option`.
- `numbers.dfy` (module `Numbers`): the absolute difference shared by days 1, 2 and 6.
- `machine.dfy` (module `Machine`): a deterministic machine given by its step function, and facts about its runs that do not depend on what the step does.
- `lab.dfy` (module `Lab`): points, headings, cells, the bounds test and single-cell writes.
- `patrol_spec.dfy` (module `PatrolSpec`): the patrol as a state machine over (position, heading).
  - `Step`/`Iter`/`Escapes` give its meaning.
  - `LeftBehind`, `LoopFound` and `Visited` say which cells a run steps away from, traps in a trial, or stands on.
- `patrol.dfy` (module `Patrol`): the cycle detector `HasCycle` and the patrol loop `Walk`. Both are imperative loops. `HasCycle` only reads the grid it is given; `Walk` reassigns its grid value at every trial and every step.
- `patrol_run.dfy` (module `PatrolRun`): map parsing, the final count, and the whole program from the map's lines to the two answers: `SolveAsWritten` as the code counts, and `Solve` with part 1 corrected (see Findings).
- `bridge_repair.dfy`, `reports.dfy`, `word_search.dfy`, `print_queue.dfy` and `location_lists.dfy`: days 7, 2, 4, 5 and 1.

All integers are unbounded. The program's `i32`, `u16`, `u32`, `u64` and `usize` become `int` or `nat`.

## Model

| member | source | states |
|---|---|---|
| Lab.RotateClockwise | day_6/src/main.rs:29-36 | the new heading differs from the old one, and its unit step is the old step turned a quarter clockwise |
| Lab.RotateFourTimes | day_6/src/main.rs:29-36 | four quarter turns return the heading, and the turns visit all four headings |
| Lab.RotateInjective | day_6/src/main.rs:29-36 | the turn is one-to-one, so with the previous row it is a bijection on headings |
| Lab.MoveDirection | day_6/src/main.rs:45-64 | one step moves the point to a neighbour at Manhattan distance 1 |
| Lab.MoveOpposite | day_6/src/main.rs:66-85 | stepping back along d is stepping forward after a half turn |
| Lab.MoveOppositeUndoesMove | day_6/src/main.rs:45-102 | `(p + d) - d == p` and `(p - d) + d == p` for every heading |
| Lab.GridContains | day_6/src/main.rs:104-106 | on a rectangular non-empty grid, true exactly when the point's row and column are inside the grid |
| Lab.SetCell | day_6/src/main.rs:211-218 | a cell write keeps the grid's shape and puts the new cell at the point |
| Lab.SetCellElsewhere | day_6/src/main.rs:211-218 | a cell write leaves every other cell unchanged |
| Lab.SetCellTwice | day_6/src/main.rs:211-216 | a second write to the same cell replaces the first |
| PatrolSpec.TurnsToFree | day_6/src/main.rs:116-122 | at most 4 turns are needed before a forward move, and exactly 4 (never) when all four neighbours are obstacles |
| PatrolSpec.TurnProgress | day_6/src/main.rs:119-122 | a turn in front of an obstacle brings a non-enclosed guard one turn closer to moving |
| PatrolSpec.Step | day_6/src/main.rs:116-128 | one loop iteration stops exactly when the cell ahead is outside the grid; otherwise it turns a quarter in place exactly when the cell ahead is an obstacle, and steps onto that cell keeping its heading when it is not; and a guard on a free grid cell stays on a free grid cell |
| PatrolSpec.UnseenShrinks | day_6/src/main.rs:124-128 | inserting a new in-grid state into `seen` strictly shrinks the set of unseen in-grid states, the measure that makes the detector's loop terminate |
| PatrolSpec.StatesCount | day_6/src/main.rs:110-128 | a width-by-height grid has exactly 4 * width * height (position, heading) states |
| PatrolSpec.InGridStatesCount | day_6/src/main.rs:110-128 | the in-grid states of a grid number exactly four per cell |
| PatrolSpec.RecordedBound | day_6/src/main.rs:110-128 | a `seen` set of in-grid states holds at most four states per cell |
| Machine.SameStateSameFuture | day_6/src/main.rs:112-131 | two moments of a run in the same state are in the same state any number of steps later: the loop's next state depends on its current state alone |
| Machine.RepeatRunsForever | day_6/src/main.rs:124-126 | a run that comes back to a running state never stops |
| PatrolSpec.RevisitNeverEscapes | day_6/src/main.rs:124-126 | a run that comes back to a state it was in never leaves the grid |
| PatrolSpec.SameLayoutEscapes | day_6/src/main.rs:116-131 | whether the guard escapes depends only on the obstacle layout, not on the other flags |
| PatrolSpec.SameLayoutTrapped | day_6/src/main.rs:116-131 | whether the guard can reach an enclosed cell depends only on the obstacle layout |
| PatrolSpec.PlaceObstacleLayout | day_6/src/main.rs:211-216 | grids with the same layout still share a layout once the same trial obstacle is placed on both |
| PatrolSpec.VisitedLeftOrExit | day_6/src/main.rs:203-220 | the cells the guard stands on are exactly the cells it steps away from plus the cell it leaves the grid from |
| PatrolSpec.IterInGrid | day_6/src/main.rs:201-219 | the guard only stands on its start cell or on grid cells |
| Patrol.HasCycle | day_6/src/main.rs:109-134 | when no reachable cell is enclosed, the detector terminates and returns true exactly when the guard never leaves the grid; it makes fewer than 4 * width * height forward moves |
| Patrol.TrialObstacle | day_6/src/main.rs:211-216 | the trial sets the loop flag of the cell ahead when a guard in the current state, facing an obstacle there, never leaves; a flag already set stays set and the detector is not rerun; the cell is an obstacle-free cell again afterwards |
| Patrol.AfterTrial | day_6/src/main.rs:211-216 | the trial keeps the grid rectangular and leaves the obstacle layout unchanged |
| Patrol.MarkTraversed | day_6/src/main.rs:218 | marking the cell being left keeps the layout, sets that cell's traversed flag and nothing else of it, and leaves every other cell unchanged |
| Patrol.Walk | day_6/src/main.rs:201-220 | when the guard escapes and no trial can spin forever, the patrol terminates with the obstacle layout unchanged; a cell's loop flag ends set exactly when it started set or a trial at that cell trapped the guard; its traversed flag ends set exactly when it started set or the guard stepped away from it; `exit` is the cell the guard leaves the grid from |
| PatrolRun.CountRowsCells | day_6/src/main.rs:225-234 | counting flagged cells row by row gives the size of the set of flagged cells |
| PatrolRun.Count | day_6/src/main.rs:222-234 | part 1 as written is 1 plus the number of traversed cells; part 2 is the number of cells with the loop flag |
| PatrolRun.CellOf | day_6/src/main.rs:163-186 | each accepted character parses to a cell that gives the character back when drawn; no cell starts with the loop flag; a cell is an obstacle exactly for '#' and starts traversed exactly for '^' |
| PatrolRun.GridOf | day_6/src/main.rs:160-199 | one grid row per line and one cell per character; lines of one length give a rectangular grid |
| PatrolRun.LastCaret | day_6/src/main.rs:164-171 | the column found holds '^' and no later column does; no column is found only when the line has no '^' |
| PatrolRun.StartOfLastCaret | day_6/src/main.rs:154-171 | the start is the last '^' in reading order; with no '^' it stays (0, 0) |
| PatrolRun.ParseGrid | day_6/src/main.rs:160-199 | parsing succeeds exactly when every character is '^', '#' or '.', and then yields the parsed grid and the start |
| PatrolRun.StartInGrid | day_6/src/main.rs:154-171 | the start lies inside the parsed grid unless the grid has no columns |
| PatrolRun.FinalCells | day_6/src/main.rs:201-234 | after the patrol, the traversed cells are every '^' plus the cells stepped away from, and the loop cells are those where a trial trapped the guard |
| PatrolRun.TraversedAndExit | day_6/src/main.rs:201-229 | the traversed cells plus the exit cell are the cells the guard stands on plus every '^' |
| PatrolRun.SingleStartVisited | day_6/src/main.rs:164-171 | with at most one '^', that set is just the cells the guard stands on |
| PatrolRun.OneCellOvercount | day_6/src/main.rs:222-229 | on the one-cell map "^" the guard stands on 1 cell, but 1 plus the traversed cells gives 2 |
| PatrolRun.CountVisited | day_6/src/main.rs:222-234 | part 1 counts the distinct cells among the traversed cells and the exit cell; part 2 as in `Count` |
| PatrolRun.OvercountIsTraversedExit | day_6/src/main.rs:222-229 | the as-written part 1 exceeds the distinct count of cells stood on (with any '^' cells) by exactly one when the exit cell was already traversed, and equals it otherwise |
| PatrolRun.SolveAsWritten | day_6/src/main.rs:153-234 | the run as written succeeds exactly when the map has only valid characters; part 1 is then 1 plus the number of traversed cells (every '^' and every cell stepped away from), and part 2 is the number of cells where a trial obstacle traps the guard |
| PatrolRun.Solve | day_6/src/main.rs:153-234 | the corrected run succeeds exactly when the map has only valid characters; part 1 is then the number of cells the guard stands on, together with any '^' cells, each counted once, and part 2 is as written |
| BridgeRepair.DecimalRoundTrip | day_7/src/main.rs:26 | reading back the decimal numeral of n gives n, and the numeral has `Digits(n)` digits |
| BridgeRepair.FromDecimalAppend | day_7/src/main.rs:26 | the value of two numerals written side by side is the first shifted by the second's length, plus the second |
| BridgeRepair.ConcatIsJoinedNumerals | day_7/src/main.rs:26 | formatting both numbers together and parsing the text gives `accumulator * 10^digits(num) + num`, with `digits(0) = 1` |
| BridgeRepair.ValidPart1 | day_7/src/main.rs:9-17 | with positive numbers, an accepting search never has an accumulator above the result: `+` and `*` never make it smaller |
| BridgeRepair.ValidPart2 | day_7/src/main.rs:19-35 | the same from index 1 on, where concatenation never makes the accumulator smaller either; index 0 is excluded because there the multiplication starts from 0 |
| BridgeRepair.ValidPart1Iff | day_7/src/main.rs:9-17 | part 1 accepts exactly when some choice of `+`/`*` for the remaining numbers, applied left to right onto the accumulator, yields the result |
| BridgeRepair.ValidPart2Iff | day_7/src/main.rs:19-35 | from index 1 on, part 2 accepts exactly when some choice of `+`, `*` and concatenation yields the result |
| BridgeRepair.Part1ImpliesPart2 | day_7/src/main.rs:9-34 | from index 1 on, every equation part 1 accepts is accepted by part 2 |
| BridgeRepair.IndexZeroMultipliesZero | day_7/src/main.rs:28-32 | called from index 0, the multiplication branch yields 0 whatever the accumulator, so every accumulator is accepted when the numbers after the first reach the result from 0 |
| BridgeRepair.IsValidPart1 | day_7/src/main.rs:75 | a one-number equation is accepted exactly when its result equals that number |
| BridgeRepair.IsValidPart2 | day_7/src/main.rs:82 | the same for part 2 |
| BridgeRepair.TotalPart1 | day_7/src/main.rs:72-77 | the part 1 total is at most the sum of all results, equals it when every equation is accepted, and is 0 when none is |
| BridgeRepair.TotalPart2 | day_7/src/main.rs:79-84 | the same for part 2 |
| BridgeRepair.TotalPart1AtMostPart2 | day_7/src/main.rs:72-84 | the part 1 total never exceeds the part 2 total |
| Numbers.AbsDiff | day_2/src/main.rs:24 | the absolute difference is 0 exactly when the two numbers are equal, and otherwise one of the two signed differences |
| Reports.CheckLine | day_2/src/main.rs:4-34 | a report is accepted exactly when it has at least two levels, all strictly increasing or all strictly decreasing, each step 1 to 3 |
| Reports.SafeDirection | day_2/src/main.rs:9-22 | in an accepted report the first two levels differ, and their order fixes the direction of every step |
| Reports.Dampened | day_2/src/main.rs:68-84 | the dampener accepts exactly when the report is safe or becomes safe with some single level removed |
| Reports.CountSafeAtMostTolerable | day_2/src/main.rs:61-85 | part 2 counts at least as many reports as part 1 |
| Reports.Part1 | day_2/src/main.rs:61 | part 1 is the number of safe reports |
| Reports.Part2 | day_2/src/main.rs:66-85 | part 2 is the number of reports the dampener accepts |
| WordSearch.DirectionsAreOffsets | day_4/src/main.rs:152-161 | the eight directions searched are the eight distinct non-zero unit offsets |
| WordSearch.CheckDirection | day_4/src/main.rs:57-113 | true exactly when the neighbour in that direction is inside the grid and holds the letter |
| WordSearch.UpdatePoint | day_4/src/main.rs:24-55 | the per-direction update moves the point by that direction's offset, which is one step along it, and always to a different point |
| WordSearch.CheckedMoveStaysInGrid | day_4/src/main.rs:167-179 | after a successful check the point update does not go below zero and lands on the checked cell |
| WordSearch.AlongIsOffset | day_4/src/main.rs:162-180 | k updates along a direction move the point by k times the direction's offset |
| WordSearch.FoundInDirection | day_4/src/main.rs:162-184 | the inner search finds the word exactly when letters 'M', 'A', 'S' follow the point along the direction inside the grid |
| WordSearch.CountXmas | day_4/src/main.rs:141-187 | part 1 counts each (cell, direction) pair where the cell holds 'X' and the word follows along the direction |
| WordSearch.XmasAtMostEightPerX | day_4/src/main.rs:143-185 | the part 1 count is at most 8 times the number of 'X' cells |
| WordSearch.CountXMas | day_4/src/main.rs:191-228 | part 2 counts the interior 'A' cells (rows 1 to height-2, columns 1 to width-2) whose two diagonal pairs are each {M, S} in either order |
| PrintQueue.CheckValid | day_5/src/main.rs:7-20 | an update passes exactly when each page has rules and the next page is in its list; updates of length 0 or 1 always pass |
| PrintQueue.ValidAppend | day_5/src/main.rs:7-20 | two updates joined pass exactly when both pass and the pair at the seam is allowed |
| PrintQueue.ValidDropLast | day_5/src/main.rs:7-20 | a passing update still passes without its last page |
| PrintQueue.RuleMapPush | day_5/src/main.rs:52-59 | one more rule `k|v` appends v to k's list, creating the list if absent, and leaves every other page's list unchanged |
| PrintQueue.BuildPageMap | day_5/src/main.rs:52-59 | the map built from the rules has one entry per page with rules, listing its targets in rule order |
| PrintQueue.RuleMapAllowed | day_5/src/main.rs:52-59 | the built map allows exactly the pairs that are rules |
| PrintQueue.ValidUnderRules | day_5/src/main.rs:52-59 | an update passes under the built map exactly when every adjacent pair is a rule |
| PrintQueue.MiddleIndex | day_5/src/main.rs:90-92 | the middle index is in range; it has as many pages after it as before for odd lengths, and is the upper middle for even lengths |
| PrintQueue.SumMiddles | day_5/src/main.rs:69-94 | part 1 sums the middle pages of the passing updates; part 2 sums the middle pages of the reordered failing ones |
| PrintQueue.EachUpdateOnce | day_5/src/main.rs:72-94 | each update counts towards exactly one part: left unreordered, the two parts sum to all middle pages |
| PrintQueue.AllValidNothingFixed | day_5/src/main.rs:72-94 | when every update passes, part 2 is 0 and part 1 is the sum of all middle pages |
| LocationLists.SplitColumns | day_1/src/main.rs:26-33 | each line adds exactly one id to each list, so the lists have equal length and line i is the pair at position i |
| LocationLists.TotalDistance | day_1/src/main.rs:40-45 | the total is the sum of the absolute differences of the zipped sorted lists |
| LocationLists.DistanceSymmetric | day_1/src/main.rs:44 | swapping the two lists leaves the distance unchanged |
| LocationLists.DistanceZero | day_1/src/main.rs:42-45 | the distance is 0 exactly when the lists agree wherever both have an element |
| LocationLists.SortedUnique | day_1/src/main.rs:37-38 | two sorted lists holding the same ids are equal |
| LocationLists.PermutedListsZeroApart | day_1/src/main.rs:37-45 | when the two lists are permutations of each other, the total distance is 0 |
| LocationLists.WeightedRemove | day_1/src/main.rs:63-65 | the sum over the map's entries does not depend on the order they come in |
| LocationLists.Pairings | day_1/src/main.rs:51-59 | the map's keys are exactly the distinct left ids, and each value is that id's number of occurrences in the right list |
| LocationLists.Score | day_1/src/main.rs:51-65 | the similarity is the sum over distinct left ids of id times its occurrences in the right list |
| LocationLists.RepeatedLeftIdAddsNothing | day_1/src/main.rs:53-65 | a duplicate id in the left list adds nothing |
| LocationLists.RightOnlyIdAddsNothing | day_1/src/main.rs:57-59 | an id that occurs only in the right list adds nothing |

## Left out

- Command-line handling, file reading, line splitting, number parsing and printing are left out in every solver. Inputs arrive already parsed: the day 6 map as lines of characters, and the other days as sequences of numbers, letters or pairs.
- Day 3 is not part of this model. Its behaviour rests on the `regex` crate's matching.
- Day 5's classification of lines by regular expression is left out. So are the `f64` floor of the middle index, modelled as integer `len / 2`, and the `sort_by` with the rule comparator. That comparator is not a total order and the library's result is unspecified. `SumMiddles` takes the reordered updates as a parameter and asks only that each be a permutation of its update.
- Day 1's library sort is left out too. The sorted lists are parameters, related to the input lists by `SortedOf`.
- Overflow is not modelled: `u16`/`u32`/`u64` wrap-around or panics, the `parse::<u64>` of a long concatenation on day 7, and the `usize` underflow in day 4's `grid.len() - 1`. `CountXMas` excludes that underflow by requiring a non-empty grid, and a non-zero width when there are three rows or more.
- Hashing internals are left out. `HashSet`/`HashMap` become Dafny `set`/`map`, and the order of iteration over `pairings` is arbitrary (`Score` picks any remaining key).
- Patrol.HasCycle: termination is proved only when no reachable cell is enclosed by four obstacles. On an enclosed cell the program turns in place forever.
- Patrol.Walk: proved only for maps where the guard escapes and every trial the program actually runs terminates (`Escapes`, `TrialsTerminate`). A trial is run only in front of a forward step onto a cell whose loop flag is not yet set, and `TrialsTerminate` asks nothing of the others. The program hangs when the guard never escapes, or when a trial it runs reaches a cell enclosed by four obstacles. `PatrolRun.SolveAsWritten` and `PatrolRun.Solve` carry the same two requirements, plus a rectangular map.
- Day 6 uses `grid[0].len()` as the width for every row. The model asks for a rectangular map (`Rectangular`, `WellFormed`). On ragged maps the program indexes out of bounds or misjudges the bounds.
- Day 4 also takes the width from the first row, so `CheckDirection` and the counts require a rectangular grid.
- Day 7's equations are assumed to have at least one number (`AllNonEmpty`). The parser always yields one, or panics.
- Day 5's updates are assumed non-empty. The update pattern needs at least one number, and an empty update would panic on the middle index.
- Day 6 parsing follows the code where the description of the puzzle differs:
  - only '^' marks the start;
  - a map without '^' silently starts at (0, 0) facing up;
  - every '^' is pre-marked traversed, and the last one in reading order is the start;
  - each trial's cycle detector starts from the guard's current state, not from the original start.

## Findings

| source | as written | input that shows it | evidently intended | confidence | as-written member | corrected member |
|---|---|---|---|---|---|---|
| day_6/src/main.rs:222-229 | part 1 starts at 1 for the exit cell, then adds every traversed cell. The exit cell is counted twice whenever it is already marked traversed, either as a '^' cell (every '^' is marked while parsing) or as a cell the guard stepped away from earlier (`SolveAsWritten`, `OvercountIsTraversedExit`) | the one-cell map "^": the guard leaves at once, stands on 1 cell, and part 1 is 2 | the number of distinct cells the guard stands on, i.e. the traversed cells together with the exit cell (`CountVisited`, used by `Solve`) | not executed | PatrolRun.OneCellOvercount | PatrolRun.Solve |
