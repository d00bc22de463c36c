/** The audit trail of a solve: an append-only list of iteration records
    (src/SimplexSolver.tsx, `addIteration`). Tableaux are values here, so the
    record's copy of the tableau can never change after it is appended. */
module Trace {
  import opened Wrappers
  import opened Decimal
  import opened Columns
  import opened Tableaux

  /** What a record says happened: the start, a pivot on column `col` and
      (0-based) row `row`, or one of the three ends of a run. */
  datatype Message = Initial | PivotOn(col: Column, row: nat) | Optimal | Unbounded | MaxIterationsReached
  {
    /** The three messages that end a run. */
    predicate IsTerminal() {
      Optimal? || Unbounded? || MaxIterationsReached?
    }
  }

  datatype Iteration = Iteration(
    number: nat,
    tableau: Tableau,
    pivotRow: Option<nat>,
    pivotCol: Option<Column>,
    message: Message)

  const PivotColumnLabel: string := "Pivot Column: "
  const PivotRowLabel: string := ", Pivot Row: "

  /** The text shown for a message; a pivot row is shown 1-based. */
  function Text(msg: Message): (s: string)
    ensures |s| >= 1
  {
    match msg
    case Initial => "Initial Tableau"
    case PivotOn(col, row) => PivotColumnLabel + ColumnName(col) + PivotRowLabel + Digits(row + 1)
    case Optimal => "Optimal solution found."
    case Unbounded => "Unbounded solution."
    case MaxIterationsReached => "Max iterations reached."
  }

  /** The first character after the column field of a pivot text is a comma. */
  lemma CommaAfterColumn(a: string, d: string)
    ensures (PivotColumnLabel + a + PivotRowLabel + d)[|PivotColumnLabel| + |a|] == ','
  {
  }

  /** Two comma-free fields between the same labels can be read back apart. */
  lemma {:induction false} PivotTextSplits(a: string, a': string, d: string, d': string)
    requires forall i :: 0 <= i < |a| ==> a[i] != ','
    requires forall i :: 0 <= i < |a'| ==> a'[i] != ','
    requires PivotColumnLabel + a + PivotRowLabel + d == PivotColumnLabel + a' + PivotRowLabel + d'
    ensures a == a' && d == d'
  {
    var s := PivotColumnLabel + a + PivotRowLabel + d;
    var s' := PivotColumnLabel + a' + PivotRowLabel + d';
    var p := |PivotColumnLabel|;
    assert |a| == |a'| by {
      if |a| < |a'| {
        CommaAfterColumn(a, d);
        assert false;
      } else if |a'| < |a| {
        CommaAfterColumn(a', d');
        assert false;
      }
    }
    assert a == s[p..p + |a|];
    assert a' == s'[p..p + |a'|];
    var q := p + |a| + |PivotRowLabel|;
    assert d == s[q..];
    assert d' == s'[q..];
  }

  /** Distinct messages have distinct texts: the text of a record tells which
      event it records, and for a pivot, which column and row. */
  lemma TextInjective(x: Message, y: Message)
    ensures Text(x) == Text(y) ==> x == y
  {
    if Text(x) == Text(y) {
      assert Text(x)[0] == Text(y)[0];
      if x.PivotOn? && y.PivotOn? {
        ColumnNameHasNoComma(x.col);
        ColumnNameHasNoComma(y.col);
        PivotTextSplits(ColumnName(x.col), ColumnName(y.col), Digits(x.row + 1), Digits(y.row + 1));
        ColumnNameInjective(x.col, y.col);
        DigitsInjective(x.row + 1, y.row + 1);
      }
    }
  }

  /** Records are numbered 1, 2, 3, ... in order. */
  predicate Numbered(trace: seq<Iteration>) {
    forall i :: 0 <= i < |trace| ==> trace[i].number == i + 1
  }

  /** Appends one record whose number is one more than the current length. */
  function AddIteration(trace: seq<Iteration>, t: Tableau, message: Message,
                        pivotRow: Option<nat>, pivotCol: Option<Column>): (r: seq<Iteration>)
    ensures |r| == |trace| + 1
    ensures r[..|trace|] == trace
    ensures r[|trace|].number == |trace| + 1
    ensures r[|trace|].tableau == t && r[|trace|].message == message
    ensures r[|trace|].pivotRow == pivotRow && r[|trace|].pivotCol == pivotCol
  {
    trace + [Iteration(|trace| + 1, t, pivotRow, pivotCol, message)]
  }

  /** Appending keeps the numbering gap-free. */
  lemma AddIterationKeepsNumbering(trace: seq<Iteration>, t: Tableau, message: Message,
                                   pivotRow: Option<nat>, pivotCol: Option<Column>)
    requires Numbered(trace)
    ensures Numbered(AddIteration(trace, t, message, pivotRow, pivotCol))
  {
    var r := AddIteration(trace, t, message, pivotRow, pivotCol);
    forall i | 0 <= i < |trace|
      ensures r[i].number == i + 1
    {
      assert r[i] == r[..|trace|][i];
    }
  }
}
