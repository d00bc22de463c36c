# Primal simplex solver, modelled in Dafny

This project models the computational core of the `SimplexSolver`
component (`src/SimplexSolver.tsx`). The component solves the linear
program "maximise c·x subject to A x <= b, x >= 0" for `n` decision
variables and `m` constraints with the tableau method, and keeps a trace of
every tableau it visits:

- **Tableau construction** (`Build`). The solver makes `m` constraint rows,
  each holding the coefficients, the unit vector of its slack, the
  right-hand side and 0 in the Z column. The objective row follows, holding
  the negated objective coefficients, zero slacks, RHS 0 and Z 1. A
  missing input entry reads as 0.
- **Column layout** (`Columns`). A row's keys are x1..xn, s1..sm, RHS, Z, in
  that order. This is the order in which every traversal of a row visits
  them, so a row is a `seq<real>` indexed by that layout.
- **Pivot choice** (`Selection`):
  - The entering column is the first of the most negative objective-row
    entries among the variable columns.
  - The leaving row is the first constraint row with the smallest
    non-negative ratio RHS / entry among the rows with a positive entry.
- **Reduction** (`Pivoting`). The pivot row is divided by the pivot element.
  Every other row loses a multiple of the normalised pivot row. Every row is
  computed from the tableau as it was before the pass.
- **Trace** (`Trace`). The trace is an append-only list of records numbered
  1, 2, 3, ... . Each record holds a copy of the tableau, the pivot row and
  column when there is one, and a message.
- **The loop** (`Runs`, `Solver`). The loop makes at most 50 pivots. It ends
  with exactly one of three terminal records: optimal, unbounded, or
  iteration cap reached. The solution is produced only on the optimal
  end.
- **Reading the solution** (`Extraction`):
  - A variable whose column is a unit column over the constraint rows (up to
    the tolerance 1e-6) takes the RHS of the row holding the 1.
  - Every other variable takes 0.
  - Z is the RHS of the objective row.
- **Resizing the inputs** (`Resizing`). When the number of variables or
  constraints changes, the arrays keep the entries that still fit and are
  padded with zeros.

Arithmetic is exact (`real`). The solver's `Infinity` starting ratio is an
`Option` ("no row yet"). The loop is a recursion whose fuel is 50 minus the
number of passes made. Messages are a datatype (`Trace.Message`). Their
texts are given by `Trace.Text`, which is injective, so a message is
determined by its text.

`Extraction.ExtractAsWritten` models the source's reading of the solution,
and it is the reading the loop reports. `Extraction.Extract` is a corrected
reading, stated and proved alongside it but not used by the loop (see
"## Findings").

Two consequences of the code that a reader might not expect:

- The ratio test also requires a non-negative ratio, not only a positive
  entry. A problem whose only positive entries have negative ratios is
  reported unbounded (`Scenarios.NegativeRatioIsSkipped`).
- On "maximise 3 x1 + 5 x2 subject to x1 + 2 x2 <= 10" the code reaches
  Z = 30 at x1 = 10, x2 = 0 after two pivots (`Scenarios.OptimalExample`).

## Model

| member | source | states |
|---|---|---|
| Build.InitialTableau | src/SimplexSolver.tsx:239-261 | The initial tableau has m + 1 rows of width n + m + 2, Z column 0 in every constraint row and 1 in the objective row |
| Build.InitialTableauCells | src/SimplexSolver.tsx:239-261 | Constraint row i holds A[i][j] (0 if missing), 1 in s_i and 0 in the other slacks, and b[i] (0 if missing) as RHS; the objective row holds -c_j (0 if missing), zero slacks and RHS 0 |
| Build.InitialTableauReadsOnlyEntries | src/SimplexSolver.tsx:242-254 | Two sets of inputs that read alike under "missing reads as 0", on the positions an n-by-m problem uses, give the same initial tableau |
| Columns.ColumnAt | src/SimplexSolver.tsx:241-260 | Position j of a row is a variable column exactly when j < n + m, the RHS exactly at n + m, and Z exactly at n + m + 1 |
| Columns.IndexOf | src/SimplexSolver.tsx:241-260 | Every column of the layout has a position inside the row, and the column found at that position is the column itself |
| Columns.IndexOfColumnAt | src/SimplexSolver.tsx:241-260 | Position and column identifier are inverse: the position of the column at j is j |
| Columns.ColumnName | src/SimplexSolver.tsx:242-247 | Column keys are `x<k>`, `s<k>`, `RHS`, `Z`, never empty |
| Columns.ColumnNameHasNoComma | src/SimplexSolver.tsx:307 | A column key contains no comma, so the pivot message can be cut at the comma after the column |
| Columns.ColumnNameInjective | src/SimplexSolver.tsx:241-260 | Distinct columns have distinct keys |
| Decimal.Digits | src/SimplexSolver.tsx:307 | The decimal spelling of a number is non-empty, all digits, and has no leading zero |
| Decimal.ParseDigitsInvertsDigits | src/SimplexSolver.tsx:307 | Reading the decimal spelling of k back gives k |
| Decimal.DigitsInjective | src/SimplexSolver.tsx:307 | Distinct numbers have distinct decimal spellings |
| Selection.EnteringIn | src/SimplexSolver.tsx:272-280 | The scan with running minimum 0 finds nothing exactly when no scanned entry is negative; otherwise it finds the first position of the strict minimum, and that position is the only one with this property |
| Selection.Entering | src/SimplexSolver.tsx:271-286 | No entering column exactly when every variable entry of the objective row is >= 0; a chosen column is a variable column (not RHS or Z), negative, <= every variable entry and strictly below every earlier one, and is the unique such column |
| Selection.LeavingIn | src/SimplexSolver.tsx:288-300 | The ratio scan finds no row exactly when no scanned row has a positive entry with a non-negative ratio; otherwise it finds the first row with the smallest such ratio, uniquely |
| Selection.Leaving | src/SimplexSolver.tsx:288-305 | No leaving row exactly when no constraint row qualifies; a chosen row is a constraint row with a positive pivot-column entry, a minimal non-negative ratio, the first on ties, and unique |
| Pivoting.NormalizedRow | src/SimplexSolver.tsx:312-315 | The normalised pivot row has the pivot row's length and 1 in the pivot column, and times the pivot element gives back the old row |
| Pivoting.Pivot | src/SimplexSolver.tsx:309-327 | A pivot keeps the number of rows and every row's length, and puts 1 at the pivot position |
| Pivoting.PivotEntries | src/SimplexSolver.tsx:309-327 | After a pivot, the pivot row times the pivot element is the old pivot row; every other row is its old self less its old pivot-column entry times the new pivot row, so its pivot-column entry is 0 |
| Pivoting.UnpivotRestoresRow | src/SimplexSolver.tsx:317-326 | Each row of the pivoted tableau, scaled or added back with the old pivot-column entry, is the original row |
| Pivoting.PivotIsInvertible | src/SimplexSolver.tsx:309-327 | The tableau before a pivot is recovered from the tableau after it and the old pivot column, so a pivot is an invertible row operation |
| Pivoting.PivotIsIdempotent | src/SimplexSolver.tsx:309-327 | Pivoting again on the same element changes nothing |
| Pivoting.PivotKeepsZColumn | src/SimplexSolver.tsx:309-327 | A pivot on a constraint row keeps the layout, 0 in the Z column of every constraint row and 1 in the objective row |
| Extraction.ScanColumn | src/SimplexSolver.tsx:349-359 | The column scan breaks exactly when some scanned entry is neither about 1 nor about 0; otherwise it counts the near-1 entries and remembers the last such row |
| Extraction.ColumnValueAsWritten | src/SimplexSolver.tsx:347-365 | A column that is a unit column over the constraint rows (one row about 1, the rest about 0) reads that row's RHS; any other column reads 0 |
| Extraction.ExtractAsWritten | src/SimplexSolver.tsx:342-368 | The source's reading: one value per variable column, the RHS of the unit row for unit columns and 0 otherwise, and Z from the objective row's RHS |
| Extraction.ExtractAsWrittenIgnoresObjectiveRow | src/SimplexSolver.tsx:351 | The source's reading never looks at the objective row's variable entries |
| Extraction.ScanFindsUnitRow | src/SimplexSolver.tsx:351-363 | The scan of a unit column over the constraint rows ends with one near-1 row, the unit row |
| Extraction.ColumnValue | src/SimplexSolver.tsx:347-365 | Corrected reading of one column: a column basic in the whole tableau whose row no earlier column took reads that row's RHS; a column basic nowhere, with a non-zero objective-row entry, or whose row an earlier column took, reads 0 |
| Extraction.Extract | src/SimplexSolver.tsx:342-368 | The corrected reading has one value per variable column and Z from the objective row's RHS |
| Extraction.ReadingsAreColumnValues | src/SimplexSolver.tsx:347-365 | The corrected values are read column by column, in the order x1..xn, s1..sm |
| Extraction.ExtractReadsBasis | src/SimplexSolver.tsx:347-366 | The first basic column of a row reads that row's RHS; a column basic nowhere, or with a non-zero objective-row entry, reads 0; of two columns basic in the same row the later one reads 0, so no row's RHS is read twice |
| Extraction.ExtractAgreesOnZeroCostColumns | src/SimplexSolver.tsx:347-365 | The corrected and the as-written readings agree on a column whose objective-row entry is about 0 and whose row no earlier column took; a column with a non-zero objective-row entry reads 0 when corrected |
| Trace.Text | src/SimplexSolver.tsx:263-329 | The texts of the records: "Initial Tableau", "Pivot Column: <key>, Pivot Row: <row + 1>" and the three terminal texts; never empty |
| Trace.CommaAfterColumn | src/SimplexSolver.tsx:307 | In a pivot text, the character right after the column key is the comma of ", Pivot Row: " |
| Trace.PivotTextSplits | src/SimplexSolver.tsx:307 | Two pivot texts with comma-free keys are equal only if their keys and row spellings are equal |
| Trace.TextInjective | src/SimplexSolver.tsx:263-329 | Distinct messages have distinct texts: a record's text identifies the event, and for a pivot the column and the 1-based row |
| Trace.AddIteration | src/SimplexSolver.tsx:332-340 | Appending keeps every earlier record and adds one record numbered length + 1, carrying the given tableau, pivot row, pivot column and message |
| Trace.AddIterationKeepsNumbering | src/SimplexSolver.tsx:332-340 | If records are numbered 1, 2, 3, ..., they still are after an append |
| Solver.Loop | src/SimplexSolver.tsx:268-329 | A pass appends at least one record, and at most one record per remaining pass plus the terminal one; the optimal end carries the source's reading of the final tableau |
| Solver.LoopRunStops | src/SimplexSolver.tsx:282-305 | A pass that finds no entering column, or no leaving row, or no passes left, appends exactly the terminal record, with the source's reading of the tableau as solution only when optimal |
| Solver.LoopRun | src/SimplexSolver.tsx:268-329 | What the loop appends: numbered pivot records, each carrying the pivot the selection rules choose on its own tableau, then one terminal record, carrying the source's reading of its tableau exactly when optimal; capped exactly when all passes pivoted |
| Solver.LoopUnfoldsPivot | src/SimplexSolver.tsx:307-327 | A pivot pass records the pre-pivot tableau with its pivot and continues on the reduced tableau |
| Solver.PivotPassRecord | src/SimplexSolver.tsx:307 | The record of a pivot pass carries the chosen row (0-based), the chosen column and the pivot message, and the reduced tableau follows it |
| Solver.RunExtends | src/SimplexSolver.tsx:307-327 | A pivot record followed by a run from the reduced tableau is a run from the original tableau |
| Solver.LoopRunNext | src/SimplexSolver.tsx:307-329 | After a pivot pass, what the rest of the loop appends is a run from the reduced tableau, with one pass fewer |
| Solver.LoopRunStep | src/SimplexSolver.tsx:288-327 | A pivot pass followed by the rest of the loop meets everything `LoopRun` promises |
| Solver.Start | src/SimplexSolver.tsx:263-329 | A run records the initial tableau, at most 50 pivots and one terminal record: between 2 and 52 records |
| Solver.StartIsRun | src/SimplexSolver.tsx:263-329 | The run from a tableau with the solver's layout has all the properties `LoopRun` promises |
| Solver.RunEnds | src/SimplexSolver.tsx:263-329 | In such a run only the last record is terminal, the first is the initial one, and the cap message appears exactly after 50 pivots |
| Solver.RunRecords | src/SimplexSolver.tsx:263-329 | In such a run records are numbered from 1, every pivot record is chosen by the selection rules and followed by the reduced tableau, and every tableau keeps the Z column |
| Solver.RunSolution | src/SimplexSolver.tsx:282-304 | In such a run a solution exists exactly on the optimal end, where it is `extractOptimalValues`'s reading of the final tableau; an unbounded end has an entering column but no leaving row |
| Solver.StartTerminates | src/SimplexSolver.tsx:263-329 | At most 50 pivots, exactly one terminal record at the end with one of the three end messages, and the cap message exactly after 50 pivots |
| Solver.StartIsFaithful | src/SimplexSolver.tsx:263-329 | The trace starts with the initial tableau, is numbered 1, 2, 3, ..., and each pivot record is appended before its reduction, carrying the pre-pivot tableau, row and column |
| Solver.StartSolutionOnlyWhenOptimal | src/SimplexSolver.tsx:282-304 | A solution is produced exactly when the run ends optimal, and it is the source's reading of the final tableau; unbounded and capped runs carry none |
| Solver.Solve | src/SimplexSolver.tsx:228-329 | Solving is a run of the loop from the initial tableau: between 2 and 52 records, the first the initial tableau, the last terminal |
| Solver.SolveStartsFromInitialTableau | src/SimplexSolver.tsx:239-263 | Solving records the initial tableau first and ends with a terminal record |
| Solver.InitialBasisIsSlack | src/SimplexSolver.tsx:239-261 | The source's reading of the initial tableau gives each slack its b[k] and Z = 0 |
| Resizing.Zeros | src/SimplexSolver.tsx:128 | A fresh array of the new length is all zeros |
| Resizing.ResizedEntries | src/SimplexSolver.tsx:127-133 | Position i of the resized array holds the old entry for i below the old length, and 0 elsewhere |
| Resizing.ResizeVector | src/SimplexSolver.tsx:127-133 | The copy loop returns an array of the new length that keeps the old entries that fit and pads with zeros |
| Resizing.ResizedToSameLength | src/SimplexSolver.tsx:127-133 | Resizing to the current length changes nothing |
| Resizing.ResizeRoundTrip | src/SimplexSolver.tsx:127-133 | Growing an array and shrinking it back restores it |
| Resizing.ResizeTwice | src/SimplexSolver.tsx:159-165 | Resizing to k and then to l <= k is one resize to l |
| Resizing.ResizedMatrix | src/SimplexSolver.tsx:135-143 | The resized matrix has the new number of rows, each of the new width |
| Resizing.ResizedMatrixCells | src/SimplexSolver.tsx:135-143 | Cell (i, j) of the resized matrix holds the old cell where it existed, a missing row counting as empty, and 0 elsewhere |
| Resizing.ResizeMatrix | src/SimplexSolver.tsx:135-143 | The nested copy loop returns the resized matrix |
| Resizing.ResizeMatrixTwice | src/SimplexSolver.tsx:149-157 | Resizing the matrix twice, first to at least the final size, is one resize |
| Resizing.ResizeMatrixRoundTrip | src/SimplexSolver.tsx:135-143 | Growing a rectangular matrix and shrinking it back restores it |
| Resizing.OnNumVariables | src/SimplexSolver.tsx:124-144 | A change in the number of variables gives n objective coefficients and an m-by-n matrix, and leaves the right-hand sides untouched |
| Resizing.OnNumConstraints | src/SimplexSolver.tsx:146-166 | A change in the number of constraints gives m right-hand sides and an m-by-n matrix, and leaves the objective coefficients untouched |
| Resizing.ResizeKeepsSolve | src/SimplexSolver.tsx:124-166 | After both effects the arrays have exactly the problem's shape, and the padding changes neither the initial tableau nor the run |
| Scenarios.InitialTableauOneByOne | src/SimplexSolver.tsx:239-261 | The initial tableau of a one-variable, one-constraint problem, cell by cell |
| Scenarios.UnboundedExample | src/SimplexSolver.tsx:288-304 | Maximising x1 under 0 x1 <= 5 ends unbounded right after the initial record, without a solution |
| Scenarios.NegativeRatioIsSkipped | src/SimplexSolver.tsx:293-304 | A row with a positive entry but a negative ratio does not qualify, and the run ends unbounded |
| Scenarios.ExampleStart | src/SimplexSolver.tsx:239-261 | The initial tableau of the worked example |
| Scenarios.ExampleFirstPivot | src/SimplexSolver.tsx:271-327 | First pass of the worked example: x2 enters, row 1 leaves, and the reduced tableau |
| Scenarios.ExampleSecondPivot | src/SimplexSolver.tsx:271-327 | Second pass: x1 enters, row 1 leaves, and the final tableau |
| Scenarios.OptimalExample | src/SimplexSolver.tsx:263-329 | The worked example ends optimal after two pivots, with four records, Z = 30, x1 = 10, x2 = 0, and the source's reading s1 = 10 |
| Scenarios.ExampleSolution | src/SimplexSolver.tsx:342-368 | The corrected reading of the worked example's final tableau |
| Scenarios.ExtractAsWrittenMisreadsSlack | src/SimplexSolver.tsx:347-366 | The source's reading of that tableau gives s1 = 10, which breaks the constraint row; the corrected reading satisfies it |
| Scenarios.TwinStart | src/SimplexSolver.tsx:239-261 | The initial tableau of "maximise x1 + x2 subject to x1 + x2 <= 10" |
| Scenarios.TwinPivot | src/SimplexSolver.tsx:271-327 | Its only pass: x1 and x2 tie at -1, the first (x1) enters, row 1 leaves, and the reduced tableau |
| Scenarios.TwinColumnsExample | src/SimplexSolver.tsx:263-329 | That run ends optimal after one pivot with Z = 10, and the reported solution gives x1, x2 and s1 all the value 10 |
| Scenarios.TwinReadingsAsWritten | src/SimplexSolver.tsx:347-366 | The source's reading of the final tableau gives all three columns 10, since each is a unit column over the constraint row |
| Scenarios.TwinReadingsCorrected | src/SimplexSolver.tsx:347-366 | The corrected reading gives x1 = 10, x2 = 0, s1 = 0: the constraint row holds and x1 + x2 equals Z |

## Left out

- Browser storage (loading and saving the inputs) and parsing the stored
  JSON: this is I/O and has no solver logic.
- The reactive wiring, event handlers and DOM input parsing. The solver is
  modelled as a pure function of (n, m, c, A, b), and each resize effect as
  a pure function of the arrays and the new dimensions.
- Rendering: the tables, `getTableauHeaders` and number formatting.
- IEEE-754 behaviour. `Infinity`, NaN from parsing and rounding drift are
  not modelled; arithmetic is exact over `real`. A NaN input that the
  source reads as 0 through `|| 0` has no counterpart.
- The extraction tolerance is the source's constant 1e-6, not a parameter.
- Solver.Loop: the record texts are not stored. A record carries a
  `Message`, and `Trace.Text` gives its text; `Trace.TextInjective` shows
  that no information is lost.
- Optimality and feasibility theorems that the code does not promise, such
  as the objective growing at each pivot.

## Findings

| source | as written | input that shows it | evidently intended | confidence | as-written member | corrected member |
|---|---|---|---|---|---|---|
| src/SimplexSolver.tsx:351 | The unit-column test scans only the constraint rows. A non-basic column that happens to be a unit column over them reads as basic, even when its objective-row entry is non-zero. | Maximise 3 x1 + 5 x2 subject to x1 + 2 x2 <= 10. The final tableau has row [1, 2, 1, 10, 0] and objective row [0, 1, 3, 30, 1]. Both x1 and s1 read 10, so x1 + 2 x2 + s1 = 20, not 10. | A basic variable has reduced cost 0, so a column with a non-zero objective-row entry reads 0. Here s1 = 0. | high, not executed | Extraction.ExtractAsWritten (counterexample Scenarios.ExtractAsWrittenMisreadsSlack) | Extraction.Extract (Extraction.ExtractReadsBasis, Scenarios.ExampleSolution) |
| src/SimplexSolver.tsx:347-365 | Each column is tested on its own. Two identical unit columns both read as basic and both take the RHS of the same row. | Maximise x1 + x2 subject to x1 + x2 <= 10. After one pivot the final tableau has row [1, 1, 1, 10, 0] and objective row [0, 0, 1, 10, 1]. x1, x2 and s1 all read 10, so x1 + x2 + s1 = 30, not 10, and x1 + x2 = 20 exceeds Z = 10. | A basis holds one column per row, so a row's RHS goes to one column only, and the others read 0. Here x1 = 10, x2 = 0, s1 = 0. | high, not executed | Extraction.ExtractAsWritten (counterexample Scenarios.TwinColumnsExample, Scenarios.TwinReadingsAsWritten) | Extraction.Extract (Extraction.ExtractReadsBasis, Scenarios.TwinReadingsCorrected) |
