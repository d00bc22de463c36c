/** Keeping the input arrays in step with the problem's dimensions
    (src/SimplexSolver.tsx, the effects that run when the number of variables
    or constraints changes). A resized array keeps the entries that still fit
    and pads with zeros. */
module Resizing {
  import opened Tableaux
  import opened Build
  import opened Solver

  /** `k` zeros. */
  function Zeros(k: nat): (z: seq<real>)
    ensures |z| == k
    ensures forall i :: 0 <= i < k ==> z[i] == 0.0
  {
    if k == 0 then [] else Zeros(k - 1) + [0.0]
  }

  /** `prev` cut or zero-padded to length `len`. */
  function Resized(prev: seq<real>, len: nat): (next: seq<real>)
    ensures |next| == len
  {
    if len <= |prev| then prev[..len] else prev + Zeros(len - |prev|)
  }

  /** Every position of the resized vector reads what the old one reads, a
      missing entry reading 0. */
  lemma ResizedEntries(prev: seq<real>, len: nat)
    ensures forall i :: 0 <= i < len ==> Resized(prev, len)[i] == Entry(prev, i)
  {
  }

  /** The copy loop: start from zeros and copy the entries that fit. */
  method ResizeVector(prev: seq<real>, len: nat) returns (next: seq<real>)
    ensures |next| == len
    ensures forall i :: 0 <= i < len ==> next[i] == Entry(prev, i)
    ensures next == Resized(prev, len)
  {
    next := Zeros(len);
    var keep := if |prev| < len then |prev| else len;
    var i := 0;
    while i < keep
      invariant 0 <= i <= keep
      invariant |next| == len
      invariant forall k :: 0 <= k < i ==> next[k] == prev[k]
      invariant forall k :: i <= k < len ==> next[k] == 0.0
    {
      next := next[i := prev[i]];
      i := i + 1;
    }
    ResizedEntries(prev, len);
  }

  /** Resizing to the current length changes nothing. */
  lemma ResizedToSameLength(prev: seq<real>)
    ensures Resized(prev, |prev|) == prev
  {
  }

  /** Growing and then shrinking back restores the vector. */
  lemma ResizeRoundTrip(prev: seq<real>, len: nat)
    requires |prev| <= len
    ensures Resized(Resized(prev, len), |prev|) == prev
  {
    assert Resized(prev, len)[..|prev|] == prev;
  }

  /** Two resizes, the first no shorter than the second, are one resize. */
  lemma ResizeTwice(prev: seq<real>, k: nat, l: nat)
    requires l <= k
    ensures Resized(Resized(prev, k), l) == Resized(prev, l)
  {
    ResizedEntries(prev, k);
    ResizedEntries(prev, l);
    ResizedEntries(Resized(prev, k), l);
  }

  /** Row `i` of a matrix, empty when the row is missing. */
  function RowOf(a: seq<seq<real>>, i: nat): seq<real> {
    if i < |a| then a[i] else []
  }

  /** The matrix resized to `rows` rows of `cols` entries each. */
  function ResizedMatrix(prev: seq<seq<real>>, rows: nat, cols: nat): (next: seq<seq<real>>)
    ensures |next| == rows
    ensures forall i :: 0 <= i < rows ==> |next[i]| == cols
  {
    seq(rows, i requires 0 <= i < rows => Resized(RowOf(prev, i), cols))
  }

  /** Every cell of the resized matrix reads what the old matrix reads. */
  lemma ResizedMatrixCells(prev: seq<seq<real>>, rows: nat, cols: nat)
    ensures forall i, j :: 0 <= i < rows && 0 <= j < cols ==> ResizedMatrix(prev, rows, cols)[i][j] == Cell(prev, i, j)
  {
    forall i | 0 <= i < rows
      ensures forall j :: 0 <= j < cols ==> ResizedMatrix(prev, rows, cols)[i][j] == Cell(prev, i, j)
    {
      ResizedEntries(RowOf(prev, i), cols);
    }
  }

  /** The nested copy loop over the rows and columns that fit. */
  method ResizeMatrix(prev: seq<seq<real>>, rows: nat, cols: nat) returns (next: seq<seq<real>>)
    ensures |next| == rows
    ensures forall i :: 0 <= i < rows ==> |next[i]| == cols
    ensures forall i, j :: 0 <= i < rows && 0 <= j < cols ==> next[i][j] == Cell(prev, i, j)
    ensures next == ResizedMatrix(prev, rows, cols)
  {
    next := seq(rows, _ => Zeros(cols));
    var keep := if |prev| < rows then |prev| else rows;
    var i := 0;
    while i < keep
      invariant 0 <= i <= keep
      invariant |next| == rows
      invariant forall k :: 0 <= k < rows ==> |next[k]| == cols
      invariant forall k :: 0 <= k < i ==> next[k] == Resized(prev[k], cols)
      invariant forall k :: i <= k < rows ==> next[k] == Zeros(cols)
    {
      var row := ResizeVector(prev[i], cols);
      next := next[i := row];
      i := i + 1;
    }
    forall k | keep <= k < rows
      ensures next[k] == Resized(RowOf(prev, k), cols)
    {
      assert RowOf(prev, k) == [];
    }
    ResizedMatrixCells(prev, rows, cols);
  }

  /** Resizing twice, the first time to at least the final size, is one resize. */
  lemma ResizeMatrixTwice(prev: seq<seq<real>>, rows: nat, cols: nat, rows': nat, cols': nat)
    requires rows' <= rows && cols' <= cols
    ensures ResizedMatrix(ResizedMatrix(prev, rows, cols), rows', cols') == ResizedMatrix(prev, rows', cols')
  {
    var once := ResizedMatrix(prev, rows, cols);
    forall i | 0 <= i < rows'
      ensures ResizedMatrix(once, rows', cols')[i] == ResizedMatrix(prev, rows', cols')[i]
    {
      ResizeTwice(RowOf(prev, i), cols, cols');
    }
  }

  /** A matrix whose every row has `cols` entries. */
  predicate RowsOfWidth(a: seq<seq<real>>, cols: nat) {
    forall i :: 0 <= i < |a| ==> |a[i]| == cols
  }

  /** Growing a rectangular matrix and shrinking it back restores it. */
  lemma ResizeMatrixRoundTrip(prev: seq<seq<real>>, cols: nat, rows': nat, cols': nat)
    requires RowsOfWidth(prev, cols)
    requires |prev| <= rows' && cols <= cols'
    ensures ResizedMatrix(ResizedMatrix(prev, rows', cols'), |prev|, cols) == prev
  {
    var back := ResizedMatrix(ResizedMatrix(prev, rows', cols'), |prev|, cols);
    forall i | 0 <= i < |prev|
      ensures back[i] == prev[i]
    {
      ResizeRoundTrip(prev[i], cols');
    }
  }

  // ------------------------------------------------------------ the inputs

  /** The three input arrays of the form: objective coefficients, constraint
      coefficients (one row per constraint) and right-hand sides. */
  datatype Inputs = Inputs(c: seq<real>, a: seq<seq<real>>, b: seq<real>)

  /** The arrays have exactly the shape n variables and m constraints ask for. */
  predicate Fits(p: Inputs, n: nat, m: nat) {
    && |p.c| == n
    && |p.a| == m && RowsOfWidth(p.a, n)
    && |p.b| == m
  }

  /** The effect run when the number of variables becomes `n`. */
  function OnNumVariables(p: Inputs, n: nat, m: nat): (p': Inputs)
    ensures |p'.c| == n && |p'.a| == m && RowsOfWidth(p'.a, n)
    ensures p'.b == p.b
  {
    Inputs(Resized(p.c, n), ResizedMatrix(p.a, m, n), p.b)
  }

  /** The effect run when the number of constraints becomes `m`. */
  function OnNumConstraints(p: Inputs, n: nat, m: nat): (p': Inputs)
    ensures |p'.b| == m && |p'.a| == m && RowsOfWidth(p'.a, n)
    ensures p'.c == p.c
  {
    Inputs(p.c, ResizedMatrix(p.a, m, n), Resized(p.b, m))
  }

  /** Two sets of arrays that read alike on every position an n-by-m problem uses. */
  predicate ReadAlike(p: Inputs, q: Inputs, n: nat, m: nat) {
    && (forall j :: 0 <= j < n ==> Entry(p.c, j) == Entry(q.c, j))
    && (forall i, j :: 0 <= i < m && 0 <= j < n ==> Cell(p.a, i, j) == Cell(q.a, i, j))
    && (forall i :: 0 <= i < m ==> Entry(p.b, i) == Entry(q.b, i))
  }

  /** After both effects have run the arrays fit the dimensions, and the
      padding is invisible to the solver: it reads missing entries as 0, so
      the resized arrays give the same tableau and the same run. */
  lemma ResizeKeepsSolve(p: Inputs, n: nat, m: nat)
    ensures var q := OnNumConstraints(OnNumVariables(p, n, m), n, m);
      && Fits(q, n, m)
      && InitialTableau(n, m, q.c, q.a, q.b) == InitialTableau(n, m, p.c, p.a, p.b)
      && Solve(n, m, q.c, q.a, q.b) == Solve(n, m, p.c, p.a, p.b)
  {
    var v := OnNumVariables(p, n, m);
    var q := OnNumConstraints(v, n, m);
    ResizedEntries(p.c, n);
    ResizedEntries(p.b, m);
    ResizedMatrixCells(p.a, m, n);
    ResizedMatrixCells(v.a, m, n);
    assert ReadAlike(q, p, n, m);
    InitialTableauReadsOnlyEntries(n, m, q.c, q.a, q.b, p.c, p.a, p.b);
  }
}
