/** Gauss-Jordan reduction around a pivot element (src/SimplexSolver.tsx,
    the body of the solve loop after the pivot has been chosen). Every row is
    computed from the tableau as it was before the pass, so no row ever reads
    a half-updated neighbour. */
module Pivoting {
  import opened Columns
  import opened Tableaux

  /** The pivot row divided by the pivot element. */
  function NormalizedRow(t: Tableau, r: nat, c: nat): (row: Row)
    requires r < |t| && c < |t[r]| && t[r][c] != 0.0
    ensures |row| == |t[r]|
    ensures row[c] == 1.0
    ensures forall j :: 0 <= j < |row| ==> row[j] * t[r][c] == t[r][j]
  {
    seq(|t[r]|, j requires 0 <= j < |t[r]| => t[r][j] / t[r][c])
  }

  /** Row `i` after the pivot: the normalised pivot row itself, or row i
      less `t[i][c]` times the normalised pivot row. */
  function PivotedRow(t: Tableau, r: nat, c: nat, i: nat): (row: Row)
    requires r < |t| && c < |t[r]| && t[r][c] != 0.0
    requires i < |t| && |t[i]| == |t[r]|
    ensures |row| == |t[i]|
  {
    var pivotRow := NormalizedRow(t, r, c);
    if i == r then pivotRow
    else seq(|t[i]|, j requires 0 <= j < |t[i]| => t[i][j] - t[i][c] * pivotRow[j])
  }

  /** The first `k` rows of the pivoted tableau; every row is computed from
      the tableau as it was before the pass. */
  function PivotRows(t: Tableau, r: nat, c: nat, k: nat): (rows: Tableau)
    requires r < |t| && c < |t[r]| && t[r][c] != 0.0
    requires Rectangular(t) && k <= |t|
    ensures |rows| == k
    ensures forall i :: 0 <= i < k ==> |rows[i]| == |t[i]|
  {
    if k == 0 then [] else PivotRows(t, r, c, k - 1) + [PivotedRow(t, r, c, k - 1)]
  }

  lemma {:induction false} PivotRowsAreRows(t: Tableau, r: nat, c: nat, k: nat)
    requires r < |t| && c < |t[r]| && t[r][c] != 0.0
    requires Rectangular(t) && k <= |t|
    ensures forall i :: 0 <= i < k ==> PivotRows(t, r, c, k)[i] == PivotedRow(t, r, c, i)
  {
    if k > 0 {
      PivotRowsAreRows(t, r, c, k - 1);
    }
  }

  /** Pivot on row `r`, column `c`: the pivot row is normalised, and every
      other row i loses `t[i][c]` times the normalised pivot row (the cell
      by cell statement is `PivotEntries`). */
  function Pivot(t: Tableau, r: nat, c: nat): (t': Tableau)
    requires r < |t| && c < |t[r]| && t[r][c] != 0.0
    requires Rectangular(t)
    ensures |t'| == |t|
    ensures forall i :: 0 <= i < |t| ==> |t'[i]| == |t[i]|
    ensures Rectangular(t')
    ensures t'[r][c] == 1.0
  {
    PivotRowsAreRows(t, r, c, |t|);
    PivotRows(t, r, c, |t|)
  }

  /** The cells of a pivoted tableau. */
  lemma PivotEntries(t: Tableau, r: nat, c: nat)
    requires r < |t| && c < |t[r]| && t[r][c] != 0.0
    requires Rectangular(t)
    // the rest of the pivot column becomes zero
    ensures forall i :: 0 <= i < |t| && i != r ==> Pivot(t, r, c)[i][c] == 0.0
    // pivot row: old row = pivot element * new row
    ensures forall j :: 0 <= j < |t[r]| ==> Pivot(t, r, c)[r][j] * t[r][c] == t[r][j]
    // other rows: new row = old row - (old pivot-column entry) * new pivot row
    ensures forall i, j :: 0 <= i < |t| && i != r && 0 <= j < |t[i]| ==>
      Pivot(t, r, c)[i][j] == t[i][j] - t[i][c] * Pivot(t, r, c)[r][j]
  {
    PivotRowsAreRows(t, r, c, |t|);
  }

  /** Column `c` of a tableau, top to bottom. */
  function ColumnValues(t: Tableau, c: nat): (col: seq<real>)
    requires forall i :: 0 <= i < |t| ==> c < |t[i]|
    ensures |col| == |t|
    ensures forall i :: 0 <= i < |t| ==> col[i] == t[i][c]
  {
    seq(|t|, i requires 0 <= i < |t| => t[i][c])
  }

  /** Undoes a pivot on row `r`, given the pivot column as it was before the
      pivot: scales the pivot row back and adds the multiples back in. */
  function Unpivot(t': Tableau, r: nat, col: seq<real>): (t: Tableau)
    requires r < |t'| && |col| == |t'|
    requires Rectangular(t')
    ensures |t| == |t'|
  {
    seq(|t'|, i requires 0 <= i < |t'| =>
      if i == r then seq(|t'[r]|, j requires 0 <= j < |t'[r]| => col[r] * t'[r][j])
      else seq(|t'[i]|, j requires 0 <= j < |t'[i]| => t'[i][j] + col[i] * t'[r][j]))
  }

  /** The cells of an undone pivot. */
  lemma UnpivotEntries(t': Tableau, r: nat, col: seq<real>, i: nat)
    requires r < |t'| && |col| == |t'|
    requires Rectangular(t')
    requires i < |t'|
    ensures |Unpivot(t', r, col)[i]| == |t'[i]|
    ensures i == r ==> forall j :: 0 <= j < |t'[i]| ==> Unpivot(t', r, col)[i][j] == col[r] * t'[r][j]
    ensures i != r ==> forall j :: 0 <= j < |t'[i]| ==> Unpivot(t', r, col)[i][j] == t'[i][j] + col[i] * t'[r][j]
  {
  }

  /** Row `i` of the undone pivot is row `i` of the original tableau. */
  lemma UnpivotRestoresRow(t: Tableau, r: nat, c: nat, i: nat)
    requires r < |t| && c < |t[r]| && t[r][c] != 0.0
    requires Rectangular(t)
    requires i < |t|
    ensures Unpivot(Pivot(t, r, c), r, ColumnValues(t, c))[i] == t[i]
  {
    var t' := Pivot(t, r, c);
    var col := ColumnValues(t, c);
    UnpivotEntries(t', r, col, i);
    PivotEntries(t, r, c);
    var row := Unpivot(t', r, col)[i];
    forall j | 0 <= j < |t[i]|
      ensures row[j] == t[i][j]
    {
      if i == r {
        calc {
          row[j];
          t[r][c] * t'[r][j];
          t'[r][j] * t[r][c];
          t[r][j];
        }
      } else {
        assert row[j] == t'[i][j] + t[i][c] * t'[r][j];
      }
    }
  }

  /** A pivot loses no information: the old tableau is recovered from the new
      one and the old pivot column, so each pivot is an invertible row operation
      and the reduced tableau describes the same system of equations. */
  lemma PivotIsInvertible(t: Tableau, r: nat, c: nat)
    requires r < |t| && c < |t[r]| && t[r][c] != 0.0
    requires Rectangular(t)
    ensures Unpivot(Pivot(t, r, c), r, ColumnValues(t, c)) == t
  {
    var u := Unpivot(Pivot(t, r, c), r, ColumnValues(t, c));
    forall i | 0 <= i < |t|
      ensures u[i] == t[i]
    {
      UnpivotRestoresRow(t, r, c, i);
    }
  }

  /** Pivoting twice on the same element changes nothing the second time:
      the pivot column is already a unit vector with 1 in the pivot row. */
  lemma PivotIsIdempotent(t: Tableau, r: nat, c: nat)
    requires r < |t| && c < |t[r]| && t[r][c] != 0.0
    requires Rectangular(t)
    ensures Pivot(Pivot(t, r, c), r, c) == Pivot(t, r, c)
  {
    var t' := Pivot(t, r, c);
    var t'' := Pivot(t', r, c);
    PivotEntries(t, r, c);
    PivotEntries(t', r, c);
    forall i | 0 <= i < |t|
      ensures t''[i] == t'[i]
    {
      forall j | 0 <= j < |t[i]|
        ensures t''[i][j] == t'[i][j]
      {
        if i != r {
          assert t''[i][j] == t'[i][j] - t'[i][c] * t''[r][j];
        }
      }
    }
  }

  /** A pivot on a constraint row keeps the tableau's shape and its Z column
      (0 in constraint rows, 1 in the objective row). */
  lemma PivotKeepsZColumn(n: nat, m: nat, t: Tableau, r: nat, c: nat)
    requires ZColumnIntact(n, m, t)
    requires r < m && c < Width(n, m) && t[r][c] != 0.0
    ensures Rectangular(t)
    ensures ZColumnIntact(n, m, Pivot(t, r, c))
  {
    var z := ZIndex(n, m);
    var t' := Pivot(t, r, c);
    PivotEntries(t, r, c);
    assert t'[r][z] * t[r][c] == 0.0;
    forall i | 0 <= i < m + 1 && i != r
      ensures t'[i][z] == t[i][z]
    {
      assert t'[i][z] == t[i][z] - t[i][c] * t'[r][z];
    }
  }
}
