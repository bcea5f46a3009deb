# Course timetabling: constraint model and timetable assembly

`optimize.py` assigns departments to classrooms for each (timeslot, weekday)
of a teaching week. It builds an integer program over binary variables
X[d, t, r, c] (department d holds room r in timeslot t on weekday c) and
two continuous variables U and L. It asks a solver to maximise the total
preference score minus the fairness gap U − L. It then turns the answer
into a timetable whose rows are labelled "Mon & Wed", "Mon", "Wed",
"Tue & Thur", "Tue", "Thur" and "Fri".

This project models two parts of `optimize()`:

- `formulation.dfy` (module `Formulation`) covers the integer program of
  lines 56-100. The solver is outside the model. `Feasible(inst, X, U, L)`
  is the condition any answer satisfies and `Objective(inst, X, U, L)` is
  the value the answer is ranked by. Sums over the index sets are
  `Sums.Sum` over integer ranges, and the algebra they need is in
  `sums.dfy`.
- `assembly.dfy` (module `Assembly`) covers the post-solve assembly of
  lines 116-171:
  - `BuildRawTable` is the four nested loops that write every held cell
    into a (weekday, timeslot, room) table;
  - `CollectRows` is the weekday loop that appends row blocks;
  - `SortRows` is the final sort by label category and timeslot;
  - `AssembleSchedule` ties the three together.

The model uses these conventions:

- Departments, timeslots and classrooms are their positions in the input
  order.
- Weekdays are the integers 1..5 that the code computes with (`c + 2`,
  `c in [1, 2]`).
- Scores and hours are `real`.
- A timetable cell is `Option<int>`: a department position, or empty.

Two behaviours of the code are reproduced as written:

- The fairness denominator at lines 86 and 94 sums over timeslots and
  classrooms with the weekday `c` left over from the loop at line 74, so it
  uses Friday only. Because the room is not in the summed term, it equals
  |rooms| × Σ_t pref[d][t][Friday] (`DenominatorUsesLastWeekdayOnly`).
- The objective counts a department's score once per room it holds in a
  cell (`ObjectiveCountsEveryHeldRoom`).

The code settles two points:

- With at least one department the fairness band forces L ≤ U
  (`FeasibleBandIsOrdered`).
- A department whose Friday scores are all zero makes the denominator zero
  (`ZeroLastWeekdayScoresZeroDenominator`), and the fairness constraints
  at lines 88/96 would divide by zero. The model admits such instances no
  further: `Feasible` requires `DenominatorsNonzero`.

## Model

The first rows name the definitions the lemmas speak about. These are:
- `Objective` (line 62);
- `Achieved` (line 84) and `Denominator` (line 86);
- `DaySymmetric` (lines 66-70);
- `RoomsExclusive` (lines 73-76);
- `EveryDeptHasBigRoom` (lines 79-80);
- `FairnessBand` (lines 58-96);
- `HourDemandMet` (lines 99-100);
- `Feasible` (lines 56-100);
- `SourceDay`, `Displayed` and `Block` (lines 128-153);
- `Rank` and `RowLe` (lines 157-170).

The rows after them name the operations and the properties proved about them.

| member | source | states |
|---|---|---|
| Formulation.Objective | optimize.py:62 | defines the maximised objective: X times the department's score, summed over departments, timeslots, weekdays and rooms (once per room held), minus (U − L) |
| Formulation.Achieved | optimize.py:84 | defines the fairness numerator of a department: X times its score summed over timeslots, rooms and weekdays |
| Formulation.Denominator | optimize.py:86 | defines the fairness denominator as written: the score with the weekday fixed at the last weekday (the value the loop at line 74 leaves behind), summed over timeslots and rooms |
| Formulation.DaySymmetric | optimize.py:66-70 | defines the day-pair constraints: for every department, room and timeslot but the last, Monday equals Wednesday and Tuesday equals Thursday |
| Formulation.RoomsExclusive | optimize.py:73-76 | defines the exclusivity constraints: for every timeslot, weekday and room, the number of departments holding it is at most one |
| Formulation.EveryDeptHasBigRoom | optimize.py:79-80 | defines the big-room constraints: every department's X summed over big-room cells is at least one |
| Formulation.FairnessBand | optimize.py:58-96 | defines U, L ≥ 0 and L ≤ Achieved(d) / Denominator(d) ≤ U for every department |
| Formulation.HourDemandMet | optimize.py:99-100 | defines the hour constraints: every department's X times the cell's hours, summed over all cells, is at least its required hours |
| Formulation.Feasible | optimize.py:56-100 | defines the whole constraint set: binary X, the day-pair, exclusivity, big-room, fairness and hour constraints together |
| Assembly.SourceDay | optimize.py:128-153 | defines which weekday's raw rows a label shows: Mon & Wed and Mon show weekday 1, Tue & Thur and Tue weekday 2, Wed 3, Thur 4, Fri 5 |
| Assembly.Displayed | optimize.py:128-153 | defines which (label, timeslot) rows exist: merged labels for every timeslot but the last, Mon/Tue/Wed/Thur for the last timeslot only, Fri for every timeslot |
| Assembly.Block | optimize.py:128-153 | defines the rows one pass of the weekday loop appends: the merged slice (weekdays 1, 2), then the last timeslot's own row (weekdays 1-4), then the full slice (weekday 5) |
| Assembly.Rank | optimize.py:157-161 | defines a label's position in the category order Mon & Wed, Mon, Wed, Tue & Thur, Tue, Thur, Fri |
| Assembly.RowLe | optimize.py:157-170 | defines the sort key order: label position first, then timeslot position |
| Formulation.DenominatorUsesLastWeekdayOnly | optimize.py:83-96 | the fairness denominator of department d equals the number of classrooms times the sum over timeslots of d's score on the last weekday (Friday) |
| Formulation.ZeroLastWeekdayScoresZeroDenominator | optimize.py:86-88 | a department with zero Friday scores in every timeslot has a zero denominator, so no instance containing it satisfies the nonzero-denominator precondition |
| Formulation.ExclusiveMeansAtMostOneDepartment | optimize.py:73-76 | the constraint "sum over departments of X ≤ 1" for every (timeslot, weekday, room) holds exactly when no two distinct departments hold the same room at the same time (both directions) |
| Formulation.BigRoomIffBigSession | optimize.py:79-80 | the big-room sum of a department is at least one exactly when the department holds some big room in some timeslot on some weekday |
| Formulation.ObjectiveCountsEveryHeldRoom | optimize.py:62 | within one (department, timeslot, weekday) the objective's room sum equals the number of rooms held times the department's score |
| Formulation.ObjectiveIsAchievedMinusGap | optimize.py:62 | the objective, summed in its own d, t, c, r order, equals the sum over departments of the achieved preference used by the fairness band, minus (U − L) |
| Formulation.FeasibleBandIsOrdered | optimize.py:58-96 | whenever the fairness band holds (so in any feasible answer) with at least one department, L ≤ U and the objective is at most the total achieved preference |
| Formulation.ExclusiveLoadBounded | optimize.py:73-76 | under room exclusivity, the per-department weighted loads summed over departments never exceed the weight summed over all cells |
| Formulation.BigCellsBoundDepartments | optimize.py:73-80 | in any feasible answer the number of departments is at most the number of (timeslot, weekday, big room) cells |
| Formulation.HourCapacityBoundsDemand | optimize.py:73-100 | in any feasible answer with non-negative hours, the total required hours are at most the hours of all cells |
| Assembly.RankIsCategoryPosition | optimize.py:157-161 | a label's rank is the position of its text in the category list, and no other label has that text |
| Assembly.RawCell | optimize.py:117-123 | a cell holds a department d that has X true there and no later department with X true there; it is empty exactly when no department has X true there |
| Assembly.BuildRawTable | optimize.py:117-123 | the table built by the four nested loops has keys only inside the (weekday, timeslot, room) grid, and every cell of the grid equals RawCell |
| Assembly.ExclusiveCellShowsTheOnlyDepartment | optimize.py:117-123 | under room exclusivity a cell shows d exactly when d is a department holding that room then (both directions) |
| Assembly.RawCellMirrored | optimize.py:66-70 | when no department tells weekday c from c + 2 apart in a (timeslot, room), the two raw cells are equal |
| Assembly.MergedRowsShowBothDays | optimize.py:128-135 | under the day-pair constraints the Monday row shown as "Mon & Wed" equals Wednesday's raw row and the Tuesday row shown as "Tue & Thur" equals Thursday's, for every timeslot but the last |
| Assembly.SliceRowsFacts | optimize.py:130 | a block cut from the raw table has one row per timeslot in its range, each carrying its weekday's raw row, with no repeated key |
| Assembly.MergedBlockShape | optimize.py:129-149 | Monday's and Tuesday's blocks have n rows with distinct keys, all displayed rows of that weekday carrying its raw row |
| Assembly.OwnBlockShape | optimize.py:137-149 | Wednesday's and Thursday's blocks are one displayed row of that weekday carrying its raw row |
| Assembly.FridayBlockShape | optimize.py:150-153 | Friday's block has n rows with distinct keys, all displayed Friday rows carrying Friday's raw row |
| Assembly.BlockShape | optimize.py:128-153 | the rows appended for weekday c number n (Mon, Tue), 1 (Wed, Thu) or n (Fri), have distinct keys, are displayed rows whose source weekday is c, and carry that weekday's raw row |
| Assembly.BlockCovers | optimize.py:128-153 | every displayed (label, timeslot) whose source weekday is c is among the rows appended for c |
| Assembly.AppendWeekday | optimize.py:128-153 | one pass of the weekday loop appends exactly weekday c's block to the list |
| Assembly.CollectRows | optimize.py:126-153 | the collected list has 3n + 2 rows with no repeated (label, timeslot); every row is displayed and carries the raw row of its source weekday; every displayed (label, timeslot) occurs |
| Assembly.InsertRow | optimize.py:170 | inserting adds exactly one occurrence of the row (multiset) |
| Assembly.InsertRowSorted | optimize.py:170 | inserting into a list sorted by (label rank, timeslot) keeps it sorted |
| Assembly.SortRows | optimize.py:170 | the sorted list is ordered by label rank, then timeslot, and is a permutation of its input |
| Assembly.PermutationKeepsDistinctKeys | optimize.py:170 | reordering a list with no repeated (label, timeslot) keeps it free of repeats |
| Assembly.SortedDistinctIsStrict | optimize.py:170 | a sorted list with distinct keys is strictly increasing in (label rank, timeslot) |
| Assembly.AssembleSchedule | optimize.py:116-171 | the result is empty (None) exactly when there is no timeslot; otherwise it has 3n + 2 rows strictly ordered by label rank then timeslot; every row is a displayed (label, timeslot) carrying the raw cells of its source weekday, and every displayed pair has its row |

## Left out

- Reading the Excel workbook (lines 24-51): the instance comes in as counts, the big-room flags, and the score, hour and required-hour tables.
- The solver object, variable creation and the solve (lines 54-59, 111-114): only the condition its answer satisfies and the objective it maximises are modelled. Infeasible or non-optimal solver outcomes are not modelled.
- Writing the timetable to Excel (lines 174-176) and the command-line block (lines 178-194).
- The fixed ten-name column rename at line 140: it matches only one particular set of eight classrooms and would fail for any other count. Every row's cells are the classrooms in input order instead.
- The dataframe index and categorical mechanics: only the order they sort by is modelled. The time-slot categories are the timeslot positions.
- Floating point: scores and hours are exact reals, and a solved variable is a boolean rather than the float the code reads at line 122.
- Identifiers: departments, timeslots and rooms are positions. The timetable shows a department's position where the code writes its name.
- Formulation.Feasible: a nonzero fairness denominator is a precondition, because with a zero denominator the fairness constraints would divide by zero.
- Assembly.AssembleSchedule: with no timeslot, `optimize()` stops already in the formulation, at lines 80/88, where the fairness ratio is zero over zero. Lines 116-171 run on their own would stop at line 130 (selecting weekday 1 from an empty table) or, at the latest, at line 138, which reads the last timeslot. The model returns None there.
- Assembly.SortRows: the sort is modelled by its result (sorted by the two keys, a permutation). The dataframe's sorting algorithm and the stability of ties are not modelled; no ties occur because the keys are distinct.
