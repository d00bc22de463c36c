/** Reading the solution off a final tableau (src/SimplexSolver.tsx,
    `extractOptimalValues`). A variable is basic when its column is a unit
    column over the constraint rows, up to the tolerance; its value is then
    the RHS of the row holding the 1, and 0 otherwise. */
module Extraction {
  import opened Columns
  import opened Tableaux

  /** The comparison tolerance, 1e-6. */
  const Tolerance: real := 0.000001

  function Abs(x: real): (a: real)
    ensures a >= 0.0
    ensures a == x || a == -x
  {
    if x < 0.0 then -x else x
  }

  /** An entry that counts as 1. */
  predicate NearOne(v: real) {
    Abs(v - 1.0) < Tolerance
  }

  /** An entry that is neither near 1 nor near 0: it ends the scan of the column. */
  predicate Stray(v: real) {
    !NearOne(v) && Abs(v) > Tolerance
  }

  /** State of the scan down one column: the number of near-1 rows seen so far
      with the last such row (-1 when none), or `Broken` once a stray entry
      was met. */
  datatype Scan = Counting(ones: nat, lastOne: int) | Broken

  /** Scans rows 0..k-1 of column `col` top to bottom. */
  function ScanColumn(t: Tableau, col: nat, k: nat): (s: Scan)
    requires k <= |t|
    requires forall i :: 0 <= i < k ==> col < |t[i]|
    ensures s.Broken? <==> (exists i :: 0 <= i < k && Stray(t[i][col]))
    ensures s.Counting? && s.ones == 0 ==> s.lastOne == -1 && forall i :: 0 <= i < k ==> !NearOne(t[i][col])
    ensures s.Counting? && s.ones >= 1 ==> 0 <= s.lastOne < k && NearOne(t[s.lastOne][col])
    ensures s.Counting? && s.ones == 1 ==>
      forall i :: 0 <= i < k && i != s.lastOne ==> !NearOne(t[i][col])
    ensures s.Counting? && s.ones >= 2 ==>
      exists i :: 0 <= i < s.lastOne && NearOne(t[i][col])
  {
    if k == 0 then Counting(0, -1)
    else
      match ScanColumn(t, col, k - 1)
      case Broken => Broken
      case Counting(ones, last) =>
        var v := t[k - 1][col];
        if NearOne(v) then Counting(ones + 1, k - 1)
        else if Abs(v) > Tolerance then Broken
        else Counting(ones, last)
  }

  /** Row `r` is the one row holding (about) 1 in column `col`, and every
      other constraint row holds (about) 0. */
  predicate BasicIn(t: Tableau, m: nat, col: nat, r: nat)
    requires m <= |t|
    requires forall i :: 0 <= i < m ==> col < |t[i]|
  {
    && r < m
    && NearOne(t[r][col])
    && forall i :: 0 <= i < m && i != r ==> Abs(t[i][col]) <= Tolerance
  }

  /** The value the source reads off for the variable in column `col`: only
      the constraint rows are scanned. */
  function ColumnValueAsWritten(n: nat, m: nat, t: Tableau, col: nat): (v: real)
    requires WellFormed(n, m, t)
    requires col < n + m
    ensures forall r: nat :: BasicIn(t, m, col, r) ==> v == t[r][RhsIndex(n, m)]
    ensures (forall r: nat :: !BasicIn(t, m, col, r)) ==> v == 0.0
  {
    var s := ScanColumn(t, col, m);
    if s.Counting? && s.ones == 1 then
      assert forall i :: 0 <= i < m ==> !Stray(t[i][col]);
      assert BasicIn(t, m, col, s.lastOne);
      t[s.lastOne][RhsIndex(n, m)]
    else
      0.0
  }

  /** The extracted solution: one value per variable column, in column order
      x1..xn, s1..sm, and the objective value Z. */
  datatype Solution = Solution(values: seq<real>, z: real)

  /** Extraction as the source performs it. */
  function ExtractAsWritten(n: nat, m: nat, t: Tableau): (s: Solution)
    requires WellFormed(n, m, t)
    ensures |s.values| == n + m
    ensures s.z == t[m][RhsIndex(n, m)]
    ensures forall j, r: nat :: 0 <= j < n + m && BasicIn(t, m, j, r) ==> s.values[j] == t[r][RhsIndex(n, m)]
    ensures forall j :: 0 <= j < n + m && (forall r: nat :: !BasicIn(t, m, j, r)) ==> s.values[j] == 0.0
  {
    ReadingsAsWrittenAreColumnValues(n, m, t, n + m);
    Solution(ReadingsAsWritten(n, m, t, n + m), t[m][RhsIndex(n, m)])
  }

  /** The source's readings of the first `k` variable columns. */
  function ReadingsAsWritten(n: nat, m: nat, t: Tableau, k: nat): (vs: seq<real>)
    requires WellFormed(n, m, t)
    requires k <= n + m
    ensures |vs| == k
  {
    if k == 0 then [] else ReadingsAsWritten(n, m, t, k - 1) + [ColumnValueAsWritten(n, m, t, k - 1)]
  }

  lemma {:induction false} ReadingsAsWrittenAreColumnValues(n: nat, m: nat, t: Tableau, k: nat)
    requires WellFormed(n, m, t)
    requires k <= n + m
    ensures forall j :: 0 <= j < k ==> ReadingsAsWritten(n, m, t, k)[j] == ColumnValueAsWritten(n, m, t, j)
  {
    if k > 0 {
      ReadingsAsWrittenAreColumnValues(n, m, t, k - 1);
      var prev := ReadingsAsWritten(n, m, t, k - 1);
      forall j | 0 <= j < k - 1
        ensures ReadingsAsWritten(n, m, t, k)[j] == ColumnValueAsWritten(n, m, t, j)
      {
        assert ReadingsAsWritten(n, m, t, k)[j] == prev[j];
      }
    }
  }

  /** Column `col` is basic in row `r` of the whole tableau: the unit-column
      test over the constraint rows, and (about) 0 in the objective row too,
      since a basic variable has no reduced cost. */
  predicate BasicInTableau(n: nat, m: nat, t: Tableau, col: nat, r: nat)
    requires WellFormed(n, m, t)
    requires col < n + m
  {
    BasicIn(t, m, col, r) && Abs(t[m][col]) <= Tolerance
  }

  /** Row `r` is already taken by a column before `col`: a basis holds one
      column per row, so a later identical unit column is not basic. */
  predicate Claimed(n: nat, m: nat, t: Tableau, col: nat, r: nat)
    requires WellFormed(n, m, t)
    requires col < n + m
  {
    exists j :: 0 <= j < col && BasicInTableau(n, m, t, j, r)
  }

  /** A unit column over the constraint rows is found by the scan, at its row. */
  lemma ScanFindsUnitRow(t: Tableau, m: nat, col: nat, r: nat)
    requires m <= |t|
    requires forall i :: 0 <= i < m ==> col < |t[i]|
    requires BasicIn(t, m, col, r)
    ensures var s := ScanColumn(t, col, m); s.Counting? && s.ones == 1 && s.lastOne == r
  {
    var s := ScanColumn(t, col, m);
    assert forall i :: 0 <= i < m ==> !Stray(t[i][col]);
    if s.Counting? && s.ones >= 2 {
      assert false;
    }
  }

  /** The corrected reading of one variable: a column with a non-zero
      objective-row entry is non-basic and reads 0, and so is a unit column
      whose row an earlier column has already taken. */
  function ColumnValue(n: nat, m: nat, t: Tableau, col: nat): (v: real)
    requires WellFormed(n, m, t)
    requires col < n + m
    ensures forall r: nat :: BasicInTableau(n, m, t, col, r) && !Claimed(n, m, t, col, r) ==> v == t[r][RhsIndex(n, m)]
    ensures forall r: nat :: BasicInTableau(n, m, t, col, r) && Claimed(n, m, t, col, r) ==> v == 0.0
    ensures (forall r: nat :: !BasicInTableau(n, m, t, col, r)) ==> v == 0.0
    ensures Abs(t[m][col]) > Tolerance ==> v == 0.0
  {
    if Abs(t[m][col]) > Tolerance then 0.0
    else
      var s := ScanColumn(t, col, m);
      if s.Counting? && s.ones == 1 && !Claimed(n, m, t, col, s.lastOne) then
        assert forall i :: 0 <= i < m ==> !Stray(t[i][col]);
        assert BasicInTableau(n, m, t, col, s.lastOne);
        assert forall r: nat :: BasicInTableau(n, m, t, col, r) ==> r == s.lastOne by {
          forall r: nat | BasicInTableau(n, m, t, col, r)
            ensures r == s.lastOne
          {
            ScanFindsUnitRow(t, m, col, r);
          }
        }
        t[s.lastOne][RhsIndex(n, m)]
      else
        assert forall r: nat :: BasicInTableau(n, m, t, col, r) ==> Claimed(n, m, t, col, r) by {
          forall r: nat | BasicInTableau(n, m, t, col, r)
            ensures Claimed(n, m, t, col, r)
          {
            ScanFindsUnitRow(t, m, col, r);
          }
        }
        0.0
  }

  /** The corrected readings of the first `k` variable columns. */
  function Readings(n: nat, m: nat, t: Tableau, k: nat): (vs: seq<real>)
    requires WellFormed(n, m, t)
    requires k <= n + m
    ensures |vs| == k
  {
    if k == 0 then [] else Readings(n, m, t, k - 1) + [ColumnValue(n, m, t, k - 1)]
  }

  lemma {:induction false} ReadingsAreColumnValues(n: nat, m: nat, t: Tableau, k: nat)
    requires WellFormed(n, m, t)
    requires k <= n + m
    ensures forall j :: 0 <= j < k ==> Readings(n, m, t, k)[j] == ColumnValue(n, m, t, j)
  {
    if k > 0 {
      ReadingsAreColumnValues(n, m, t, k - 1);
    }
  }

  /** Corrected extraction: each constraint row gives its RHS to at most one
      basic column (what it reads is stated by `ExtractReadsBasis`). */
  function Extract(n: nat, m: nat, t: Tableau): (s: Solution)
    requires WellFormed(n, m, t)
    ensures |s.values| == n + m
    ensures s.z == t[m][RhsIndex(n, m)]
  {
    Solution(Readings(n, m, t, n + m), t[m][RhsIndex(n, m)])
  }

  /** The first basic column of a row reads the row's RHS; a column basic
      nowhere, one with a non-zero objective-row entry, and one whose row an
      earlier column took, read 0. So no row's RHS is read twice. */
  lemma ExtractReadsBasis(n: nat, m: nat, t: Tableau)
    requires WellFormed(n, m, t)
    ensures var s := Extract(n, m, t);
      && (forall j, r: nat :: 0 <= j < n + m && BasicInTableau(n, m, t, j, r) && !Claimed(n, m, t, j, r) ==>
            s.values[j] == t[r][RhsIndex(n, m)])
      && (forall j :: 0 <= j < n + m && (forall r: nat :: !BasicInTableau(n, m, t, j, r)) ==> s.values[j] == 0.0)
      && (forall j :: 0 <= j < n + m && Abs(t[m][j]) > Tolerance ==> s.values[j] == 0.0)
      && (forall j: nat, j': nat, r: nat :: j < j' < n + m && BasicInTableau(n, m, t, j, r) && BasicInTableau(n, m, t, j', r) ==>
            s.values[j'] == 0.0)
  {
    ReadingsAreColumnValues(n, m, t, n + m);
    forall j: nat, j': nat, r: nat | j < j' < n + m && BasicInTableau(n, m, t, j, r) && BasicInTableau(n, m, t, j', r)
      ensures Extract(n, m, t).values[j'] == 0.0
    {
      assert Claimed(n, m, t, j', r);
    }
  }

  /** The correction only changes the reading of a column whose
      objective-row entry is not (about) 0, or whose row an earlier column
      took; everywhere else both readings agree. */
  lemma ExtractAgreesOnZeroCostColumns(n: nat, m: nat, t: Tableau, j: nat)
    requires WellFormed(n, m, t)
    requires j < n + m
    ensures Abs(t[m][j]) <= Tolerance && (forall r: nat :: !Claimed(n, m, t, j, r)) ==>
      Extract(n, m, t).values[j] == ExtractAsWritten(n, m, t).values[j]
    ensures Abs(t[m][j]) > Tolerance ==> Extract(n, m, t).values[j] == 0.0
  {
    ReadingsAreColumnValues(n, m, t, n + m);
  }

  /** One column's reading depends only on the constraint rows. */
  lemma ColumnValueAsWrittenIgnoresObjectiveRow(n: nat, m: nat, t: Tableau, t': Tableau, j: nat)
    requires WellFormed(n, m, t) && WellFormed(n, m, t')
    requires forall i :: 0 <= i < m ==> t[i] == t'[i]
    requires j < n + m
    ensures ColumnValueAsWritten(n, m, t, j) == ColumnValueAsWritten(n, m, t', j)
  {
    forall r: nat
      ensures BasicIn(t, m, j, r) == BasicIn(t', m, j, r)
    {
    }
  }

  /** The first `k` readings depend only on the constraint rows. */
  lemma {:induction false} ReadingsAsWrittenIgnoreObjectiveRow(n: nat, m: nat, t: Tableau, t': Tableau, k: nat)
    requires WellFormed(n, m, t) && WellFormed(n, m, t')
    requires forall i :: 0 <= i < m ==> t[i] == t'[i]
    requires k <= n + m
    ensures ReadingsAsWritten(n, m, t, k) == ReadingsAsWritten(n, m, t', k)
  {
    if k > 0 {
      ReadingsAsWrittenIgnoreObjectiveRow(n, m, t, t', k - 1);
      ColumnValueAsWrittenIgnoresObjectiveRow(n, m, t, t', k - 1);
    }
  }

  /** The source never inspects the objective row's variable entries: two tableaux
      that agree on the constraint rows and on the objective value give the
      same solution. */
  lemma ExtractAsWrittenIgnoresObjectiveRow(n: nat, m: nat, t: Tableau, t': Tableau)
    requires WellFormed(n, m, t) && WellFormed(n, m, t')
    requires t[..m] == t'[..m]
    requires t[m][RhsIndex(n, m)] == t'[m][RhsIndex(n, m)]
    ensures ExtractAsWritten(n, m, t) == ExtractAsWritten(n, m, t')
  {
    forall i | 0 <= i < m
      ensures t[i] == t'[i]
    {
      assert t[..m][i] == t'[..m][i];
    }
    ReadingsAsWrittenIgnoreObjectiveRow(n, m, t, t', n + m);
  }
}
