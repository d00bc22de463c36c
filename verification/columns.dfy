/** Column identifiers of a tableau and their fixed layout. A row of a
    problem with n decision variables and m constraints has n + m + 2 cells,
    in the order x1..xn, s1..sm, RHS, Z (the insertion order of the row's keys,
    which is the order every traversal of a row follows). Indices are 0-based:
    `Decision(0)` is x1 and `Slack(0)` is s1. */
module Columns {
  import opened Decimal

  datatype Column = Decision(k: nat) | Slack(k: nat) | Rhs | Z

  function Width(n: nat, m: nat): nat { n + m + 2 }

  function RhsIndex(n: nat, m: nat): nat { n + m }

  function ZIndex(n: nat, m: nat): nat { n + m + 1 }

  /** The columns that exist in a tableau with n decision variables and m constraints. */
  predicate InLayout(n: nat, m: nat, col: Column) {
    match col
    case Decision(k) => k < n
    case Slack(k) => k < m
    case _ => true
  }

  /** Variable columns are the ones that may enter the basis: everything but RHS and Z. */
  predicate IsVariable(col: Column) {
    col.Decision? || col.Slack?
  }

  /** The identifier of the cell at position `j` of a row. */
  function ColumnAt(n: nat, m: nat, j: nat): (col: Column)
    requires j < Width(n, m)
    ensures InLayout(n, m, col)
    ensures IsVariable(col) <==> j < n + m
    ensures col == Rhs <==> j == RhsIndex(n, m)
    ensures col == Z <==> j == ZIndex(n, m)
  {
    if j < n then Decision(j)
    else if j < n + m then Slack(j - n)
    else if j == n + m then Rhs
    else Z
  }

  /** The position of a column within a row; inverse of `ColumnAt`. */
  function IndexOf(n: nat, m: nat, col: Column): (j: nat)
    requires InLayout(n, m, col)
    ensures j < Width(n, m)
    ensures ColumnAt(n, m, j) == col
  {
    match col
    case Decision(k) => k
    case Slack(k) => n + k
    case Rhs => n + m
    case Z => n + m + 1
  }

  /** Every position is the position of the column found there. */
  lemma IndexOfColumnAt(n: nat, m: nat, j: nat)
    requires j < Width(n, m)
    ensures IndexOf(n, m, ColumnAt(n, m, j)) == j
  {
  }

  /** The key under which a column is stored: `x<k+1>`, `s<k+1>`, `RHS`, `Z`. */
  function ColumnName(col: Column): (name: string)
    ensures |name| >= 1
  {
    match col
    case Decision(k) => "x" + Digits(k + 1)
    case Slack(k) => "s" + Digits(k + 1)
    case Rhs => "RHS"
    case Z => "Z"
  }

  /** A column key never contains a comma, so it can be cut out of a message. */
  lemma ColumnNameHasNoComma(col: Column)
    ensures forall i :: 0 <= i < |ColumnName(col)| ==> ColumnName(col)[i] != ','
  {
    if col.Decision? || col.Slack? {
      assert forall i :: 1 <= i < |ColumnName(col)| ==> ColumnName(col)[i] == Digits(col.k + 1)[i - 1];
    }
  }

  /** Column keys are unique: two columns with the same key are the same column. */
  lemma ColumnNameInjective(a: Column, b: Column)
    ensures ColumnName(a) == ColumnName(b) ==> a == b
  {
    if ColumnName(a) == ColumnName(b) {
      assert ColumnName(a)[0] == ColumnName(b)[0];
      if a.Decision? || a.Slack? {
        assert ColumnName(a)[1..] == Digits(a.k + 1);
        assert ColumnName(b)[1..] == Digits(b.k + 1);
        DigitsInjective(a.k + 1, b.k + 1);
      }
    }
  }
}
