/** Worked runs of the solver on small problems. */
module Scenarios {
  import opened Wrappers
  import opened Columns
  import opened Tableaux
  import opened Build
  import opened Selection
  import opened Pivoting
  import opened Extraction
  import opened Trace
  import opened Runs
  import opened Solver

  /** The initial tableau of a one-variable, one-constraint problem, cell by cell. */
  lemma InitialTableauOneByOne(c: real, a: real, b: real)
    ensures InitialTableau(1, 1, [c], [[a]], [b]) == [[a, 1.0, b, 0.0], [-c, 0.0, 0.0, 1.0]]
  {
    var t := InitialTableau(1, 1, [c], [[a]], [b]);
    InitialTableauCells(1, 1, [c], [[a]], [b]);
    assert t[0] == [a, 1.0, b, 0.0];
    assert t[1] == [-c, 0.0, 0.0, 1.0];
  }

  /** Maximise x1 subject to 0 x1 <= 5: the objective row asks x1 to enter but
      no row limits it, so the run is reported unbounded right after the
      initial record, with no solution. */
  lemma UnboundedExample()
    ensures var o := Solve(1, 1, [1.0], [[0.0]], [5.0]);
      && |o.trace| == 2
      && o.trace[1].message == Unbounded
      && o.solution == None
  {
    var t := InitialTableau(1, 1, [1.0], [[0.0]], [5.0]);
    InitialTableauOneByOne(1.0, 0.0, 5.0);
    assert IsEntering(t[1], 2, 0);
    assert Entering(1, 1, t) == Some(0);
    assert Leaving(1, 1, t, 0) == None;
  }

  /** Maximise x1 subject to x1 <= -5: row 1 has a positive entry in the x1
      column, but its ratio is negative, and the ratio test skips rows with a
      negative ratio; the run is reported unbounded although the problem is
      in fact infeasible. */
  lemma NegativeRatioIsSkipped()
    ensures var o := Solve(1, 1, [1.0], [[1.0]], [-5.0]);
      && |o.trace| == 2
      && o.trace[1].message == Unbounded
      && o.solution == None
  {
    var t := InitialTableau(1, 1, [1.0], [[1.0]], [-5.0]);
    InitialTableauOneByOne(1.0, 1.0, -5.0);
    assert IsEntering(t[1], 2, 0);
    assert Entering(1, 1, t) == Some(0);
    assert !Qualifies(t, 0, RhsIndex(1, 1), 0);
    assert Leaving(1, 1, t, 0) == None;
  }

  // ------------------------------------------------- an optimal run

  /** The tableaux of the run on: maximise 3 x1 + 5 x2 subject to
      x1 + 2 x2 <= 10. */
  const T0: Tableau := [[1.0, 2.0, 1.0, 10.0, 0.0], [-3.0, -5.0, 0.0, 0.0, 1.0]]
  const T1: Tableau := [[0.5, 1.0, 0.5, 5.0, 0.0], [-0.5, 0.0, 2.5, 25.0, 1.0]]
  const T2: Tableau := [[1.0, 2.0, 1.0, 10.0, 0.0], [0.0, 1.0, 3.0, 30.0, 1.0]]

  lemma ExampleStart()
    ensures InitialTableau(2, 1, [3.0, 5.0], [[1.0, 2.0]], [10.0]) == T0
  {
    var t := InitialTableau(2, 1, [3.0, 5.0], [[1.0, 2.0]], [10.0]);
    InitialTableauCells(2, 1, [3.0, 5.0], [[1.0, 2.0]], [10.0]);
    assert t[0] == T0[0];
    assert t[1] == T0[1];
  }

  /** First pass: x2 enters (most negative, -5), row 1 leaves (ratio 5). */
  lemma ExampleFirstPivot()
    ensures WellFormed(2, 1, T0)
    ensures Entering(2, 1, T0) == Some(1) && Leaving(2, 1, T0, 1) == Some(0)
    ensures Pivot(T0, 0, 1) == T1
  {
    assert IsEntering(T0[1], 4, 1);
    assert IsLeaving(T0, 1, 3, 1, 0);
    var p := Pivot(T0, 0, 1);
    PivotEntries(T0, 0, 1);
    assert p[0] == T1[0];
    assert p[1] == T1[1];
  }

  /** Second pass: x1 enters (-0.5), row 1 leaves (ratio 10). */
  lemma ExampleSecondPivot()
    ensures WellFormed(2, 1, T1)
    ensures Entering(2, 1, T1) == Some(0) && Leaving(2, 1, T1, 0) == Some(0)
    ensures Pivot(T1, 0, 0) == T2
  {
    assert IsEntering(T1[1], 4, 0);
    assert IsLeaving(T1, 0, 3, 1, 0);
    var p := Pivot(T1, 0, 0);
    PivotEntries(T1, 0, 0);
    assert p[0] == T2[0];
    assert p[1] == T2[1];
  }

  /** Two pivots, on x2 and then x1 in row 1, reach the optimum Z = 30 with
      x1 = 10 and x2 = 0; the reported solution is the source's reading of the
      final tableau, which also gives the slack the value 10 (see
      ExtractAsWrittenMisreadsSlack). */
  lemma OptimalExample()
    ensures var o := Solve(2, 1, [3.0, 5.0], [[1.0, 2.0]], [10.0]);
      && |o.trace| == 4
      && o.trace[1].message == PivotOn(Decision(1), 0)
      && o.trace[2].message == PivotOn(Decision(0), 0)
      && o.trace[3].message == Optimal
      && o.trace[3].tableau == T2
      && o.solution == Some(ExtractAsWritten(2, 1, T2))
      && o.solution.value.values[0] == 10.0 && o.solution.value.values[1] == 0.0
      && o.solution.value.values[2] == 10.0 && o.solution.value.z == 30.0
  {
    ExampleStart();
    ExampleFirstPivot();
    ExampleSecondPivot();
    var tr0 := AddIteration([], T0, Initial, None, None);
    var tr1 := AddIteration(tr0, T0, PivotOn(Decision(1), 0), Some(0), Some(Decision(1)));
    var tr2 := AddIteration(tr1, T1, PivotOn(Decision(0), 0), Some(0), Some(Decision(0)));
    var o := Loop(2, 1, T0, tr0, MaxIterations);
    LoopUnfoldsPivot(2, 1, T0, tr0, MaxIterations, 1, 0, o);
    LoopUnfoldsPivot(2, 1, T1, tr1, MaxIterations - 1, 0, 0, o);
    assert Entering(2, 1, T2) == None;
    ExtractAsWrittenMisreadsSlack();
  }

  /** The corrected reading of the final tableau. */
  lemma ExampleSolution()
    ensures WellFormed(2, 1, T2)
    ensures var s := Extract(2, 1, T2);
      s.values[0] == 10.0 && s.values[1] == 0.0 && s.values[2] == 0.0 && s.z == 30.0
  {
    ReadingsAreColumnValues(2, 1, T2, 3);
    ExampleReadsX1();
    ExampleReadsX2();
    ExampleReadsS1();
  }

  /** x1 is basic in row 1 and no earlier column took the row. */
  lemma ExampleReadsX1()
    ensures WellFormed(2, 1, T2) && ColumnValue(2, 1, T2, 0) == 10.0
  {
    assert BasicInTableau(2, 1, T2, 0, 0);
  }

  /** x2's column holds 2 in the constraint row: basic nowhere. */
  lemma ExampleReadsX2()
    ensures WellFormed(2, 1, T2) && ColumnValue(2, 1, T2, 1) == 0.0
  {
    assert Stray(T2[0][1]);
    assert forall r: nat :: !BasicInTableau(2, 1, T2, 1, r);
  }

  /** s1's objective-row entry is 3. */
  lemma ExampleReadsS1()
    ensures WellFormed(2, 1, T2) && ColumnValue(2, 1, T2, 2) == 0.0
  {
    assert Abs(T2[1][2]) > Tolerance;
  }

  /** As written, the reading of the same tableau gives the slack s1 the value
      10, because s1's column is a unit column over the constraint rows; but
      x1 = 10 already fills the constraint x1 + 2 x2 + s1 = 10, and the
      non-zero objective-row entry 3 shows s1 is non-basic. The corrected
      reading satisfies the constraint row. */
  lemma ExtractAsWrittenMisreadsSlack()
    ensures WellFormed(2, 1, T2)
    ensures var v := ExtractAsWritten(2, 1, T2).values; v[0] == 10.0 && v[1] == 0.0 && v[2] == 10.0
    ensures var v := ExtractAsWritten(2, 1, T2).values; v[0] + 2.0 * v[1] + v[2] != 10.0
    ensures var v := Extract(2, 1, T2).values; v[0] + 2.0 * v[1] + v[2] == 10.0
  {
    assert BasicIn(T2, 1, 0, 0);
    assert BasicIn(T2, 1, 2, 0);
    assert Stray(T2[0][1]);
    assert forall r: nat :: !BasicIn(T2, 1, 1, r);
    ExampleSolution();
  }

  // ------------------------------------------- two identical columns

  /** The tableaux of the run on: maximise x1 + x2 subject to x1 + x2 <= 10. */
  const U0: Tableau := [[1.0, 1.0, 1.0, 10.0, 0.0], [-1.0, -1.0, 0.0, 0.0, 1.0]]
  const U1: Tableau := [[1.0, 1.0, 1.0, 10.0, 0.0], [0.0, 0.0, 1.0, 10.0, 1.0]]

  lemma TwinStart()
    ensures InitialTableau(2, 1, [1.0, 1.0], [[1.0, 1.0]], [10.0]) == U0
  {
    var t := InitialTableau(2, 1, [1.0, 1.0], [[1.0, 1.0]], [10.0]);
    InitialTableauCells(2, 1, [1.0, 1.0], [[1.0, 1.0]], [10.0]);
    assert t[0] == U0[0];
    assert t[1] == U0[1];
  }

  /** The only pass: x1 and x2 tie at -1 and the first, x1, enters; row 1 leaves. */
  lemma TwinPivot()
    ensures WellFormed(2, 1, U0)
    ensures Entering(2, 1, U0) == Some(0) && Leaving(2, 1, U0, 0) == Some(0)
    ensures Pivot(U0, 0, 0) == U1
  {
    assert IsEntering(U0[1], 4, 0);
    assert IsLeaving(U0, 0, 3, 1, 0);
    var p := Pivot(U0, 0, 0);
    PivotEntries(U0, 0, 0);
    assert p[0] == U1[0];
    assert p[1] == U1[1];
  }

  /** After one pivot the run is optimal with Z = 10. x1 and x2 still have
      identical unit columns, and the slack's column is a unit column too, so
      the source's reading gives all three the value 10: x1 + x2 = 20 exceeds
      Z, and x1 + x2 + s1 = 30 breaks the constraint row. */
  lemma TwinColumnsExample()
    ensures var o := Solve(2, 1, [1.0, 1.0], [[1.0, 1.0]], [10.0]);
      && |o.trace| == 3
      && o.trace[1].message == PivotOn(Decision(0), 0)
      && o.trace[2].message == Optimal
      && o.trace[2].tableau == U1
      && o.solution == Some(ExtractAsWritten(2, 1, U1))
      && o.solution.value.values[0] == 10.0 && o.solution.value.values[1] == 10.0
      && o.solution.value.values[2] == 10.0 && o.solution.value.z == 10.0
  {
    TwinStart();
    TwinPivot();
    var tr0 := AddIteration([], U0, Initial, None, None);
    var o := Loop(2, 1, U0, tr0, MaxIterations);
    LoopUnfoldsPivot(2, 1, U0, tr0, MaxIterations, 0, 0, o);
    assert Entering(2, 1, U1) == None;
    TwinReadingsAsWritten();
  }

  /** As written, every column of the final tableau reads 10: x1, x2 and s1
      all have unit columns over the constraint row. */
  lemma TwinReadingsAsWritten()
    ensures WellFormed(2, 1, U1)
    ensures var v := ExtractAsWritten(2, 1, U1).values; v[0] == 10.0 && v[1] == 10.0 && v[2] == 10.0
  {
    assert BasicIn(U1, 1, 0, 0);
    assert BasicIn(U1, 1, 1, 0);
    assert BasicIn(U1, 1, 2, 0);
  }

  /** Corrected, x2 reads 0 because x1 already took row 1, and s1 reads 0
      because of its objective-row entry 1, so the constraint row holds and
      the objective x1 + x2 equals Z. */
  lemma TwinReadingsCorrected()
    ensures WellFormed(2, 1, U1)
    ensures var s := Extract(2, 1, U1);
      && s.values[0] == 10.0 && s.values[1] == 0.0 && s.values[2] == 0.0
      && s.values[0] + s.values[1] + s.values[2] == 10.0
      && s.values[0] + s.values[1] == s.z
  {
    ReadingsAreColumnValues(2, 1, U1, 3);
    TwinReadsX1();
    TwinReadsX2();
    TwinReadsS1();
  }

  /** x1 is basic in row 1 and no earlier column took the row. */
  lemma TwinReadsX1()
    ensures WellFormed(2, 1, U1) && ColumnValue(2, 1, U1, 0) == 10.0
  {
    assert BasicInTableau(2, 1, U1, 0, 0);
  }

  /** x2 is basic in row 1 too, but x1 took that row first. */
  lemma TwinReadsX2()
    ensures WellFormed(2, 1, U1) && ColumnValue(2, 1, U1, 1) == 0.0
  {
    assert BasicInTableau(2, 1, U1, 0, 0);
    assert Claimed(2, 1, U1, 1, 0);
    assert BasicInTableau(2, 1, U1, 1, 0);
  }

  /** s1's objective-row entry is 1. */
  lemma TwinReadsS1()
    ensures WellFormed(2, 1, U1) && ColumnValue(2, 1, U1, 2) == 0.0
  {
    assert Abs(U1[1][2]) > Tolerance;
  }
}
