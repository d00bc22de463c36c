/** Choice of the pivot: the entering column (most negative objective-row
    coefficient, first on ties) and the leaving row (minimum ratio test, first
    on ties). Both are modelled as left-to-right folds, the way the source
    scans the row keys and the constraint rows. */
module Selection {
  import opened Wrappers
  import opened Columns
  import opened Tableaux

  // ---------------------------------------------------------------- entering

  /** `j` is the first position among the first `k` cells holding their
      minimum, and that minimum is negative. */
  predicate IsEntering(row: Row, k: nat, j: nat) {
    && j < k <= |row|
    && row[j] < 0.0
    && (forall i :: 0 <= i < k ==> row[j] <= row[i])
    && (forall i :: 0 <= i < j ==> row[j] < row[i])
  }

  /** Scan of the first `k` cells keeping the running minimum (starting at 0)
      and replacing the candidate only on a strictly smaller value. */
  function EnteringIn(row: Row, k: nat): (r: Option<nat>)
    requires k <= |row|
    ensures r.None? <==> (forall i :: 0 <= i < k ==> row[i] >= 0.0)
    ensures r.Some? ==> IsEntering(row, k, r.value)
    ensures forall j: nat {:trigger IsEntering(row, k, j)} :: IsEntering(row, k, j) ==> r == Some(j)
  {
    if k == 0 then None
    else
      var prev := EnteringIn(row, k - 1);
      var best := if prev.Some? then row[prev.value] else 0.0;
      if row[k - 1] < best then Some(k - 1) else prev
  }

  /** The entering column: scans the objective row over the variable columns
      (RHS and Z excluded); None means the tableau is optimal. */
  function Entering(n: nat, m: nat, t: Tableau): (r: Option<nat>)
    requires WellFormed(n, m, t)
    ensures r.None? <==> (forall j :: 0 <= j < n + m ==> t[m][j] >= 0.0)
    ensures r.Some? ==> r.value < n + m && IsVariable(ColumnAt(n, m, r.value))
    ensures r.Some? ==> IsEntering(t[m], n + m, r.value)
    ensures forall j: nat {:trigger IsEntering(t[m], n + m, j)} :: IsEntering(t[m], n + m, j) ==> r == Some(j)
  {
    EnteringIn(t[m], n + m)
  }

  // ----------------------------------------------------------------- leaving

  /** Row i takes part in the ratio test: positive entry in the pivot column
      and a non-negative ratio. */
  predicate Qualifies(t: Tableau, col: nat, rhs: nat, i: nat) {
    && i < |t|
    && col < |t[i]|
    && rhs < |t[i]|
    && t[i][col] > 0.0
    && t[i][rhs] / t[i][col] >= 0.0
  }

  function Ratio(t: Tableau, col: nat, rhs: nat, i: nat): real
    requires Qualifies(t, col, rhs, i)
  {
    t[i][rhs] / t[i][col]
  }

  /** `r` is the first of the first `k` rows with the smallest qualifying ratio. */
  predicate IsLeaving(t: Tableau, col: nat, rhs: nat, k: nat, r: nat) {
    && r < k
    && Qualifies(t, col, rhs, r)
    && (forall i :: 0 <= i < k && Qualifies(t, col, rhs, i) ==> Ratio(t, col, rhs, r) <= Ratio(t, col, rhs, i))
    && (forall i :: 0 <= i < r && Qualifies(t, col, rhs, i) ==> Ratio(t, col, rhs, r) < Ratio(t, col, rhs, i))
  }

  /** Scan of the first `k` rows keeping the row with the smallest ratio so
      far, replacing it only on a strictly smaller ratio. */
  function LeavingIn(t: Tableau, col: nat, rhs: nat, k: nat): (r: Option<nat>)
    requires k <= |t|
    ensures r.None? <==> (forall i :: 0 <= i < k ==> !Qualifies(t, col, rhs, i))
    ensures r.Some? ==> IsLeaving(t, col, rhs, k, r.value)
    ensures forall i: nat {:trigger IsLeaving(t, col, rhs, k, i)} :: IsLeaving(t, col, rhs, k, i) ==> r == Some(i)
  {
    if k == 0 then None
    else
      var prev := LeavingIn(t, col, rhs, k - 1);
      var i := k - 1;
      if Qualifies(t, col, rhs, i) && (prev.None? || Ratio(t, col, rhs, i) < Ratio(t, col, rhs, prev.value))
      then Some(i)
      else prev
  }

  /** The leaving row for entering column `col`: scans the constraint rows
      only; None means the problem is reported unbounded. */
  function Leaving(n: nat, m: nat, t: Tableau, col: nat): (r: Option<nat>)
    requires WellFormed(n, m, t)
    requires col < Width(n, m)
    ensures r.None? <==> (forall i :: 0 <= i < m ==> !Qualifies(t, col, RhsIndex(n, m), i))
    ensures r.Some? ==> r.value < m && t[r.value][col] > 0.0
    ensures r.Some? ==> IsLeaving(t, col, RhsIndex(n, m), m, r.value)
    ensures forall i: nat {:trigger IsLeaving(t, col, RhsIndex(n, m), m, i)} :: IsLeaving(t, col, RhsIndex(n, m), m, i) ==> r == Some(i)
  {
    LeavingIn(t, col, RhsIndex(n, m), m)
  }
}
