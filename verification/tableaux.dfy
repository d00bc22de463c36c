/** The tableau: one row per constraint followed by the objective row, every
    row laid out as described in `Columns`. */
module Tableaux {
  import opened Columns

  type Row = seq<real>

  type Tableau = seq<Row>

  /** m constraint rows plus the objective row, all of the full width. */
  predicate WellFormed(n: nat, m: nat, t: Tableau) {
    && |t| == m + 1
    && forall i :: 0 <= i < |t| ==> |t[i]| == Width(n, m)
  }

  /** Every row has the width of row 0 (the shape a pivot needs). */
  predicate Rectangular(t: Tableau) {
    forall i :: 0 <= i < |t| ==> |t[i]| == |t[0]|
  }

  /** The Z column holds 0 in every constraint row and 1 in the objective row. */
  predicate ZColumnIntact(n: nat, m: nat, t: Tableau) {
    && WellFormed(n, m, t)
    && t[m][ZIndex(n, m)] == 1.0
    && forall i :: 0 <= i < m ==> t[i][ZIndex(n, m)] == 0.0
  }

}
