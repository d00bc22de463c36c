/** The solve loop (src/SimplexSolver.tsx, `solve`): build the tableau,
    record it, then repeatedly choose a pivot and reduce, for at most 50
    pivots, ending with exactly one terminal record. The loop counter of the
    source is the fuel here: fuel = 50 - iterations done. */
module Solver {
  import opened Wrappers
  import opened Columns
  import opened Tableaux
  import opened Build
  import opened Selection
  import opened Pivoting
  import opened Extraction
  import opened Trace
  import opened Runs

  /** One pass of the while loop and the passes after it. */
  function Loop(n: nat, m: nat, t: Tableau, trace: seq<Iteration>, fuel: nat): (o: Outcome)
    requires WellFormed(n, m, t)
    ensures |trace| < |o.trace| <= |trace| + fuel + 1
    decreases fuel
  {
    if fuel == 0 then
      Outcome(AddIteration(trace, t, MaxIterationsReached, None, None), None)
    else
      match Entering(n, m, t)
      case None =>
        Outcome(AddIteration(trace, t, Optimal, None, None), Some(ExtractAsWritten(n, m, t)))
      case Some(c) =>
        match Leaving(n, m, t, c)
        case None =>
          Outcome(AddIteration(trace, t, Unbounded, None, None), None)
        case Some(r) =>
          var col := ColumnAt(n, m, c);
          var trace' := AddIteration(trace, t, PivotOn(col, r), Some(r), Some(col));
          Loop(n, m, Pivot(t, r, c), trace', fuel - 1)
  }

  /** Solves "maximise c.x subject to A x <= b, x >= 0" for n variables and
      m constraints: a run of the loop from the initial tableau, whose first
      record is that tableau and whose last record is terminal. */
  function Solve(n: nat, m: nat, c: seq<real>, a: seq<seq<real>>, b: seq<real>): (o: Outcome)
    ensures StartRun(n, m, InitialTableau(n, m, c, a, b), o)
    ensures 2 <= |o.trace| <= MaxIterations + 2
    ensures o.trace[0] == Iteration(1, InitialTableau(n, m, c, a, b), None, None, Initial)
    ensures o.trace[|o.trace| - 1].message.IsTerminal()
  {
    var t := InitialTableau(n, m, c, a, b);
    var o := Start(n, m, t);
    StartIsRun(n, m, t);
    SolveFacts(n, m, t, o);
    o
  }

  /** What a run from the initial tableau records first and last. */
  lemma SolveFacts(n: nat, m: nat, t: Tableau, o: Outcome)
    requires StartRun(n, m, t, o)
    ensures 2 <= |o.trace| <= MaxIterations + 2
    ensures o.trace[0] == Iteration(1, t, None, None, Initial)
    ensures o.trace[|o.trace| - 1].message.IsTerminal()
  {
    RunEnds(n, m, t, o);
    RunRecords(n, m, t, o);
  }

  /** A pass that ends the loop appends exactly the terminal record. */
  lemma LoopRunStops(n: nat, m: nat, t: Tableau, trace: seq<Iteration>, fuel: nat, o: Outcome)
    requires ZColumnIntact(n, m, t)
    requires Numbered(trace)
    requires fuel <= MaxIterations
    requires Stops(n, m, t, fuel)
    requires o == Loop(n, m, t, trace, fuel)
    ensures RunFrom(n, m, t, trace, fuel, o)
  {
    assert |o.trace| == |trace| + 1;
    AddIterationKeepsNumbering(trace, t, o.trace[|trace|].message, None, None);
  }

  /** Everything the loop promises about the records it appends to `trace`. */
  lemma {:induction false} LoopRun(n: nat, m: nat, t: Tableau, trace: seq<Iteration>, fuel: nat, o: Outcome)
    requires ZColumnIntact(n, m, t)
    requires Numbered(trace)
    requires fuel <= MaxIterations
    requires o == Loop(n, m, t, trace, fuel)
    ensures RunFrom(n, m, t, trace, fuel, o)
    decreases fuel, 2
  {
    if Stops(n, m, t, fuel) {
      LoopRunStops(n, m, t, trace, fuel, o);
    } else {
      var c := Entering(n, m, t).value;
      LoopRunStep(n, m, t, trace, fuel, c, Leaving(n, m, t, c).value, o);
    }
  }

  /** A pivot pass appends the pivot record and continues on the reduced tableau. */
  lemma LoopUnfoldsPivot(n: nat, m: nat, t: Tableau, trace: seq<Iteration>, fuel: nat, c: nat, r: nat, o: Outcome)
    requires WellFormed(n, m, t)
    requires fuel > 0
    requires Entering(n, m, t) == Some(c) && Leaving(n, m, t, c) == Some(r)
    requires o == Loop(n, m, t, trace, fuel)
    ensures o == Loop(n, m, Pivot(t, r, c), AddIteration(trace, t, PivotOn(ColumnAt(n, m, c), r), Some(r), Some(ColumnAt(n, m, c))), fuel - 1)
  {
  }

  /** A sequence extending `trace'`, itself `trace` plus one record, extends `trace`. */
  lemma PrefixOfPrefix(trace: seq<Iteration>, trace': seq<Iteration>, full: seq<Iteration>)
    requires |trace'| == |trace| + 1 && trace'[..|trace|] == trace
    requires |trace'| <= |full| && full[..|trace'|] == trace'
    ensures full[..|trace|] == trace
    ensures full[|trace|] == trace'[|trace|]
  {
    assert full[..|trace|] == full[..|trace'|][..|trace|];
  }

  /** The record a pivot pass appends is a pivot record leading to the reduced tableau. */
  lemma PivotPassRecord(n: nat, m: nat, t: Tableau, trace: seq<Iteration>, c: nat, r: nat)
    requires ZColumnIntact(n, m, t)
    requires Entering(n, m, t) == Some(c) && Leaving(n, m, t, c) == Some(r)
    ensures var col := ColumnAt(n, m, c);
      IsPivotRecord(n, m, AddIteration(trace, t, PivotOn(col, r), Some(r), Some(col))[|trace|], Pivot(t, r, c))
  {
  }

  /** A run from the reduced tableau, after the pivot record of `t`, is a run from `t`. */
  lemma RunExtends(n: nat, m: nat, t: Tableau, trace: seq<Iteration>, fuel: nat, next: Tableau, trace': seq<Iteration>, o: Outcome)
    requires ZColumnIntact(n, m, t)
    requires 0 < fuel <= MaxIterations
    requires |trace'| == |trace| + 1 && trace'[..|trace|] == trace && trace'[|trace|].tableau == t
    requires IsPivotRecord(n, m, trace'[|trace|], next)
    requires RunFrom(n, m, next, trace', fuel - 1, o)
    ensures RunFrom(n, m, t, trace, fuel, o)
  {
    PrefixOfPrefix(trace, trace', o.trace);
    assert PivotStepAt(n, m, o.trace, |trace|);
  }

  /** The rest of the loop after a pivot pass is a run from the reduced tableau. */
  lemma {:induction false} LoopRunNext(n: nat, m: nat, t: Tableau, trace: seq<Iteration>, fuel: nat, c: nat, r: nat, o: Outcome)
    requires ZColumnIntact(n, m, t)
    requires Numbered(trace)
    requires 0 < fuel <= MaxIterations
    requires Entering(n, m, t) == Some(c) && Leaving(n, m, t, c) == Some(r)
    requires o == Loop(n, m, t, trace, fuel)
    ensures RunFrom(n, m, Pivot(t, r, c), AddIteration(trace, t, PivotOn(ColumnAt(n, m, c), r), Some(r), Some(ColumnAt(n, m, c))), fuel - 1, o)
    decreases fuel, 0
  {
    var col := ColumnAt(n, m, c);
    AddIterationKeepsNumbering(trace, t, PivotOn(col, r), Some(r), Some(col));
    PivotKeepsZColumn(n, m, t, r, c);
    LoopUnfoldsPivot(n, m, t, trace, fuel, c, r, o);
    LoopRun(n, m, Pivot(t, r, c), AddIteration(trace, t, PivotOn(col, r), Some(r), Some(col)), fuel - 1, o);
  }

  /** One pivot pass: the record it appends, followed by what the rest of the run appends. */
  lemma {:induction false} LoopRunStep(n: nat, m: nat, t: Tableau, trace: seq<Iteration>, fuel: nat, c: nat, r: nat, o: Outcome)
    requires ZColumnIntact(n, m, t)
    requires Numbered(trace)
    requires 0 < fuel <= MaxIterations
    requires Entering(n, m, t) == Some(c) && Leaving(n, m, t, c) == Some(r)
    requires o == Loop(n, m, t, trace, fuel)
    ensures RunFrom(n, m, t, trace, fuel, o)
    decreases fuel, 1
  {
    var col := ColumnAt(n, m, c);
    LoopRunNext(n, m, t, trace, fuel, c, r, o);
    PivotPassRecord(n, m, t, trace, c, r);
    RunExtends(n, m, t, trace, fuel, Pivot(t, r, c), AddIteration(trace, t, PivotOn(col, r), Some(r), Some(col)), o);
  }

  /** A run of the loop from tableau `t`, after the "Initial Tableau" record. */
  function Start(n: nat, m: nat, t: Tableau): (o: Outcome)
    requires WellFormed(n, m, t)
    ensures 2 <= |o.trace| <= MaxIterations + 2
  {
    Loop(n, m, t, AddIteration([], t, Initial, None, None), MaxIterations)
  }

  /** The run of the loop started after the "Initial Tableau" record of `t`. */
  predicate StartRun(n: nat, m: nat, t: Tableau, o: Outcome) {
    RunFrom(n, m, t, AddIteration([], t, Initial, None, None), MaxIterations, o)
  }

  lemma StartIsRun(n: nat, m: nat, t: Tableau)
    requires ZColumnIntact(n, m, t)
    ensures StartRun(n, m, t, Start(n, m, t))
  {
    LoopRun(n, m, t, AddIteration([], t, Initial, None, None), MaxIterations, Start(n, m, t));
  }

  lemma RunEnds(n: nat, m: nat, t: Tableau, o: Outcome)
    requires StartRun(n, m, t, o)
    ensures && 2 <= |o.trace| <= MaxIterations + 2
      && o.trace[0].message == Initial
      && o.trace[|o.trace| - 1].message.IsTerminal()
      && (forall k :: 0 <= k < |o.trace| - 1 ==> !o.trace[k].message.IsTerminal())
      && (o.trace[|o.trace| - 1].message == MaxIterationsReached <==> |o.trace| == MaxIterations + 2)
  {
    assert o.trace[0] == o.trace[..1][0];
    forall k | 0 <= k < |o.trace| - 1
      ensures !o.trace[k].message.IsTerminal()
    {
      if k > 0 {
        assert PivotStepAt(n, m, o.trace, k);
      }
    }
  }

  lemma RunRecords(n: nat, m: nat, t: Tableau, o: Outcome)
    requires StartRun(n, m, t, o)
    ensures && |o.trace| >= 2
      && Numbered(o.trace)
      && o.trace[0] == Iteration(1, t, None, None, Initial)
      && o.trace[1].tableau == t
      && (forall k :: 1 <= k < |o.trace| - 1 ==> PivotStepAt(n, m, o.trace, k))
      && (forall k :: 0 <= k < |o.trace| ==> ZColumnIntact(n, m, o.trace[k].tableau))
  {
    assert o.trace[0] == o.trace[..1][0];
  }

  lemma RunSolution(n: nat, m: nat, t: Tableau, o: Outcome)
    requires StartRun(n, m, t, o)
    ensures var last := o.trace[|o.trace| - 1];
      && (o.solution.Some? <==> last.message == Optimal)
      && (o.solution.Some? ==>
            && WellFormed(n, m, last.tableau)
            && Entering(n, m, last.tableau).None?
            && o.solution == Some(ExtractAsWritten(n, m, last.tableau)))
      && (last.message == Unbounded ==>
            && WellFormed(n, m, last.tableau)
            && Entering(n, m, last.tableau).Some?
            && Leaving(n, m, last.tableau, Entering(n, m, last.tableau).value).None?)
  {
  }

  /** A run from any tableau with the solver's layout: an initial record, at
      most 50 pivot records, and exactly one terminal record carrying one of
      the three end messages, the capped one exactly after 50 pivots. */
  lemma StartTerminates(n: nat, m: nat, t: Tableau)
    requires ZColumnIntact(n, m, t)
    ensures var o := Start(n, m, t);
      && 2 <= |o.trace| <= MaxIterations + 2
      && o.trace[0].message == Initial
      && o.trace[|o.trace| - 1].message.IsTerminal()
      && (forall k :: 0 <= k < |o.trace| - 1 ==> !o.trace[k].message.IsTerminal())
      && (o.trace[|o.trace| - 1].message == MaxIterationsReached <==> |o.trace| == MaxIterations + 2)
  {
    StartIsRun(n, m, t);
    RunEnds(n, m, t, Start(n, m, t));
  }

  /** The trace starts with `t`, is numbered 1, 2, 3, ... and every pivot
      record carries the pivot chosen by the selection rules on its own
      tableau, the next record carrying the reduced tableau; every recorded
      tableau keeps the layout and the Z column. */
  lemma StartIsFaithful(n: nat, m: nat, t: Tableau)
    requires ZColumnIntact(n, m, t)
    ensures var o := Start(n, m, t);
      && |o.trace| >= 2
      && Numbered(o.trace)
      && o.trace[0] == Iteration(1, t, None, None, Initial)
      && o.trace[1].tableau == t
      && (forall k :: 1 <= k < |o.trace| - 1 ==> PivotStepAt(n, m, o.trace, k))
      && (forall k :: 0 <= k < |o.trace| ==> ZColumnIntact(n, m, o.trace[k].tableau))
  {
    StartIsRun(n, m, t);
    RunRecords(n, m, t, Start(n, m, t));
  }

  /** A solution is produced exactly when the run ends optimal, and it is the
      source's reading of the final tableau; unbounded and capped runs carry none. */
  lemma StartSolutionOnlyWhenOptimal(n: nat, m: nat, t: Tableau)
    requires ZColumnIntact(n, m, t)
    ensures var o := Start(n, m, t);
      var last := o.trace[|o.trace| - 1];
      && (o.solution.Some? <==> last.message == Optimal)
      && (o.solution.Some? ==>
            && WellFormed(n, m, last.tableau)
            && Entering(n, m, last.tableau).None?
            && o.solution == Some(ExtractAsWritten(n, m, last.tableau)))
      && (last.message == Unbounded ==>
            && WellFormed(n, m, last.tableau)
            && Entering(n, m, last.tableau).Some?
            && Leaving(n, m, last.tableau, Entering(n, m, last.tableau).value).None?)
  {
    StartIsRun(n, m, t);
    RunSolution(n, m, t, Start(n, m, t));
  }

  /** `Solve` is a run started from the initial tableau. */
  lemma SolveStartsFromInitialTableau(n: nat, m: nat, c: seq<real>, a: seq<seq<real>>, b: seq<real>)
    ensures var o := Solve(n, m, c, a, b);
      && o == Start(n, m, InitialTableau(n, m, c, a, b))
      && 2 <= |o.trace| <= MaxIterations + 2
      && o.trace[0] == Iteration(1, InitialTableau(n, m, c, a, b), None, None, Initial)
      && o.trace[|o.trace| - 1].message.IsTerminal()
  {
    var t := InitialTableau(n, m, c, a, b);
    StartTerminates(n, m, t);
    StartIsFaithful(n, m, t);
  }

  // -------------------------------------------------------- initial basis

  /** The initial tableau's basis is the slack basis: reading it off gives
      s_k = b[k] for every constraint and Z = 0. */
  lemma InitialBasisIsSlack(n: nat, m: nat, c: seq<real>, a: seq<seq<real>>, b: seq<real>)
    ensures var s := ExtractAsWritten(n, m, InitialTableau(n, m, c, a, b));
      && s.z == 0.0
      && forall k :: 0 <= k < m ==> s.values[n + k] == Entry(b, k)
  {
    var t := InitialTableau(n, m, c, a, b);
    InitialTableauCells(n, m, c, a, b);
    forall k | 0 <= k < m
      ensures ExtractAsWritten(n, m, t).values[n + k] == Entry(b, k)
    {
      assert t[k][n + k] == 1.0;
      assert BasicIn(t, m, n + k, k);
    }
  }
}
