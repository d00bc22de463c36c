/** Construction of the initial tableau from the problem data
    (src/SimplexSolver.tsx, the first part of `solve`). Inputs may be shorter
    than the declared dimensions: a missing coefficient reads as 0. */
module Build {
  import opened Columns
  import opened Tableaux

  /** `s[i]`, or 0 when the entry is missing. */
  function Entry(s: seq<real>, i: nat): real {
    if i < |s| then s[i] else 0.0
  }

  /** `A[i][j]`, or 0 when the row or the entry is missing. */
  function Cell(a: seq<seq<real>>, i: nat, j: nat): real {
    if i < |a| then Entry(a[i], j) else 0.0
  }

  /** Constraint row i: coefficients, the i-th unit slack vector, b[i], and Z = 0. */
  function ConstraintRow(n: nat, m: nat, a: seq<seq<real>>, b: seq<real>, i: nat): (row: Row)
    ensures |row| == Width(n, m)
  {
    seq(n, j requires 0 <= j < n => Cell(a, i, j)) + seq(m, k => if k == i then 1.0 else 0.0) + [Entry(b, i), 0.0]
  }

  /** The first `k` constraint rows. */
  function ConstraintRows(n: nat, m: nat, a: seq<seq<real>>, b: seq<real>, k: nat): (rows: Tableau)
    ensures |rows| == k
    ensures forall i :: 0 <= i < k ==> rows[i] == ConstraintRow(n, m, a, b, i)
  {
    if k == 0 then [] else ConstraintRows(n, m, a, b, k - 1) + [ConstraintRow(n, m, a, b, k - 1)]
  }

  /** Objective row: negated objective coefficients, zero slacks, RHS = 0, Z = 1. */
  function ObjectiveRowOf(n: nat, m: nat, c: seq<real>): (row: Row)
    ensures |row| == Width(n, m)
  {
    seq(n, j requires 0 <= j < n => -Entry(c, j)) + seq(m, k => 0.0) + [0.0, 1.0]
  }

  /** The tableau the solver starts from, for n variables and m constraints
      (its cells are stated by `InitialTableauCells`). */
  function InitialTableau(n: nat, m: nat, c: seq<real>, a: seq<seq<real>>, b: seq<real>): (t: Tableau)
    ensures WellFormed(n, m, t)
    ensures ZColumnIntact(n, m, t)
  {
    var t := ConstraintRows(n, m, a, b, m) + [ObjectiveRowOf(n, m, c)];
    assert forall i :: 0 <= i < m ==> t[i] == ConstraintRow(n, m, a, b, i);
    t
  }

  /** The cells of the initial tableau: the coefficients, an identity block
      for the slacks and b in the constraint rows; the negated objective, zero
      slacks and RHS 0 in the objective row. */
  lemma InitialTableauCells(n: nat, m: nat, c: seq<real>, a: seq<seq<real>>, b: seq<real>)
    ensures var t := InitialTableau(n, m, c, a, b);
      // constraint rows: coefficients, identity slack block, right-hand side
      && (forall i, j :: 0 <= i < m && 0 <= j < n ==> t[i][j] == Cell(a, i, j))
      && (forall i, j :: 0 <= i < m && n <= j < n + m ==> t[i][j] == (if j == n + i then 1.0 else 0.0))
      && (forall i :: 0 <= i < m ==> t[i][RhsIndex(n, m)] == Entry(b, i))
      // objective row: negated objective, zero slacks, RHS = 0
      && (forall j :: 0 <= j < n ==> t[m][j] == -Entry(c, j))
      && (forall j :: n <= j < n + m ==> t[m][j] == 0.0)
      && t[m][RhsIndex(n, m)] == 0.0
  {
    var t := InitialTableau(n, m, c, a, b);
    assert forall i :: 0 <= i < m ==> t[i] == ConstraintRow(n, m, a, b, i);
  }

  /** The tableau depends on the inputs only through what `Entry` and `Cell`
      read, on the positions an n-by-m problem uses. */
  lemma InitialTableauReadsOnlyEntries(n: nat, m: nat, c: seq<real>, a: seq<seq<real>>, b: seq<real>,
                                       c': seq<real>, a': seq<seq<real>>, b': seq<real>)
    requires forall j :: 0 <= j < n ==> Entry(c, j) == Entry(c', j)
    requires forall i, j :: 0 <= i < m && 0 <= j < n ==> Cell(a, i, j) == Cell(a', i, j)
    requires forall i :: 0 <= i < m ==> Entry(b, i) == Entry(b', i)
    ensures InitialTableau(n, m, c, a, b) == InitialTableau(n, m, c', a', b')
  {
    var t := InitialTableau(n, m, c, a, b);
    var t' := InitialTableau(n, m, c', a', b');
    InitialTableauCells(n, m, c, a, b);
    InitialTableauCells(n, m, c', a', b');
    forall i | 0 <= i < m + 1
      ensures t[i] == t'[i]
    {
      assert t[i][Width(n, m) - 1] == t'[i][Width(n, m) - 1];
    }
  }
}
