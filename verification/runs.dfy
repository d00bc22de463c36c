/** What a run of the solve loop leaves in its trace: pivot records, each
    carrying the pivot the selection rules choose on its tableau, then one
    terminal record. */
module Runs {
  import opened Wrappers
  import opened Columns
  import opened Tableaux
  import opened Selection
  import opened Pivoting
  import opened Extraction
  import opened Trace

  /** The loop's bound on pivots. */
  const MaxIterations: nat := 50

  /** The trace of a solve and the solution, present only on optimal termination. */
  datatype Outcome = Outcome(trace: seq<Iteration>, solution: Option<Solution>)

  /** `rec` records a pivot chosen by the selection rules on its (pre-pivot)
      tableau, and `next` is that tableau after the reduction. */
  predicate IsPivotRecord(n: nat, m: nat, rec: Iteration, next: Tableau) {
    && WellFormed(n, m, rec.tableau)
    && var e := Entering(n, m, rec.tableau);
    && e.Some?
    && var l := Leaving(n, m, rec.tableau, e.value);
    && l.Some?
    && rec.pivotRow == Some(l.value)
    && rec.pivotCol == Some(ColumnAt(n, m, e.value))
    && rec.message == PivotOn(ColumnAt(n, m, e.value), l.value)
    && next == Pivot(rec.tableau, l.value, e.value)
  }

  /** Record `k` of `trace` is a pivot record leading to the tableau of record k + 1. */
  predicate PivotStepAt(n: nat, m: nat, trace: seq<Iteration>, k: int) {
    && 0 <= k && k + 1 < |trace|
    && IsPivotRecord(n, m, trace[k], trace[k + 1].tableau)
  }

  /** `rec` ends a run that made `pivots` pivots, with the solution `sol`. */
  predicate IsTerminalRecord(n: nat, m: nat, rec: Iteration, sol: Option<Solution>, pivots: nat) {
    && WellFormed(n, m, rec.tableau)
    && rec.pivotRow.None? && rec.pivotCol.None?
    && rec.message.IsTerminal()
    && (sol.Some? <==> rec.message == Optimal)
    && (rec.message == Optimal ==>
          && Entering(n, m, rec.tableau).None?
          && sol == Some(ExtractAsWritten(n, m, rec.tableau))
          && pivots < MaxIterations)
    && (rec.message == Unbounded ==>
          && Entering(n, m, rec.tableau).Some?
          && Leaving(n, m, rec.tableau, Entering(n, m, rec.tableau).value).None?
          && pivots < MaxIterations)
    && (rec.message == MaxIterationsReached <==> pivots == MaxIterations)
  }

  /** The loop stops at fuel `fuel` on tableau `t` without pivoting. */
  predicate Stops(n: nat, m: nat, t: Tableau, fuel: nat)
    requires WellFormed(n, m, t)
  {
    fuel == 0 || Entering(n, m, t).None? || Leaving(n, m, t, Entering(n, m, t).value).None?
  }

  /** What a run of the loop from tableau `t` with `fuel` passes left appends
      to `trace`: pivot records, then one terminal record. */
  predicate RunFrom(n: nat, m: nat, t: Tableau, trace: seq<Iteration>, fuel: nat, o: Outcome) {
    && |trace| + 1 <= |o.trace| <= |trace| + fuel + 1
    && o.trace[..|trace|] == trace
    && Numbered(o.trace)
    && o.trace[|trace|].tableau == t
    && (forall k :: |trace| <= k < |o.trace| - 1 ==> PivotStepAt(n, m, o.trace, k))
    && (forall k :: |trace| <= k < |o.trace| ==> ZColumnIntact(n, m, o.trace[k].tableau))
    && fuel <= MaxIterations
    && IsTerminalRecord(n, m, o.trace[|o.trace| - 1], o.solution, MaxIterations - fuel + (|o.trace| - |trace| - 1))
  }

}
