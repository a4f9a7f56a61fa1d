/** The 2×2 cross tabulation of an outcome against exposure:
    rows are the exposure and control groups, columns outcome 1 and outcome 0. */
module Reporting {
  import opened Frames

  function OutcomeIs(col: string, v: int): Row -> bool
  {
    (r: Row) => NumEq(Cell(r, col), v)
  }

  /** `len(group[group[col] == v])` */
  function OutcomeCount(rows: seq<Row>, col: string, v: int): (n: nat)
    ensures n <= |rows|
    ensures (forall i :: 0 <= i < |rows| ==> Cell(rows[i], col) == Null) ==> n == 0
  {
    MissingNeverCounted(rows, col, v);
    |Filter(rows, OutcomeIs(col, v))|
  }

  lemma MissingNeverCounted(rows: seq<Row>, col: string, v: int)
    ensures (forall i :: 0 <= i < |rows| ==> Cell(rows[i], col) == Null) ==> Filter(rows, OutcomeIs(col, v)) == []
  {
    if forall i :: 0 <= i < |rows| ==> Cell(rows[i], col) == Null {
      FilterKeepsNone(rows, OutcomeIs(col, v));
    }
  }

  /** The four counts, in the layout of the array. */
  datatype Counts = Counts(exposedYes: nat, exposedNo: nat, controlYes: nat, controlNo: nat)

  /** What `make_crosstab` tabulates, or the `KeyError` the first lookup of a
      missing outcome column raises. */
  function Crosstab(exposure: Table, control: Table, col: string): (r: Result<Counts>)
    ensures r.Err? <==> col !in exposure.columns || col !in control.columns
    ensures r.Err? ==> r.error == KeyError([col])
  {
    if col !in exposure.columns || col !in control.columns then Err(KeyError([col]))
    else Ok(Counts(OutcomeCount(exposure.rows, col, 1), OutcomeCount(exposure.rows, col, 0),
                   OutcomeCount(control.rows, col, 1), OutcomeCount(control.rows, col, 0)))
  }

  /** `make_crosstab`: a zeroed 2×2 array whose four cells are then counted in. */
  method MakeCrosstab(exposure: Table, control: Table, col: string := "outcome") returns (r: Result<array2<int>>)
    ensures r.Err? <==> Crosstab(exposure, control, col).Err?
    ensures r.Err? ==> r.error == Crosstab(exposure, control, col).error
    ensures r.Ok? ==> fresh(r.value) && r.value.Length0 == 2 && r.value.Length1 == 2
    ensures r.Ok? ==>
              var counts := Crosstab(exposure, control, col).value;
              && r.value[0, 0] == counts.exposedYes && r.value[0, 1] == counts.exposedNo
              && r.value[1, 0] == counts.controlYes && r.value[1, 1] == counts.controlNo
  {
    if col !in exposure.columns || col !in control.columns {
      return Err(KeyError([col]));
    }
    var ct := new int[2, 2]((i, j) => 0);
    ct[0, 0] := OutcomeCount(exposure.rows, col, 1);
    ct[0, 1] := OutcomeCount(exposure.rows, col, 0);
    ct[1, 0] := OutcomeCount(control.rows, col, 1);
    ct[1, 1] := OutcomeCount(control.rows, col, 0);
    return Ok(ct);
  }

  /** Exchanging the two groups exchanges the two rows of the table. */
  lemma CrosstabSwap(exposure: Table, control: Table, col: string)
    ensures Crosstab(control, exposure, col).Err? == Crosstab(exposure, control, col).Err?
    ensures Crosstab(exposure, control, col).Ok? ==>
              var a := Crosstab(exposure, control, col).value;
              var b := Crosstab(control, exposure, col).value;
              b == Counts(a.controlYes, a.controlNo, a.exposedYes, a.exposedNo)
  {
  }

  predicate ZeroOrOne(col: string, r: Row)
  {
    NumEq(Cell(r, col), 1) || NumEq(Cell(r, col), 0)
  }

  function Neither(col: string): Row -> bool
  {
    (r: Row) => !ZeroOrOne(col, r)
  }

  /** Every row of a group has outcome 1, outcome 0, or neither (missing or
      another value), so the two counts of a row of the table plus the rows
      with neither make up the group. */
  lemma OutcomeSplit(rows: seq<Row>, col: string)
    ensures OutcomeCount(rows, col, 1) + OutcomeCount(rows, col, 0) + |Filter(rows, Neither(col))| == |rows|
  {
    var one := OutcomeIs(col, 1);
    var notOne := (r: Row) => !one(r);
    var zero := OutcomeIs(col, 0);
    FilterPartition(rows, one, notOne);
    var rest := Filter(rows, notOne);
    FilterPartition(rest, zero, Neither(col));
    var zeroAndNotOne := (r: Row) => notOne(r) && zero(r);
    var neitherAndNotOne := (r: Row) => notOne(r) && Neither(col)(r);
    FilterFilter(rows, notOne, zero, zeroAndNotOne);
    FilterCongruent(rows, zeroAndNotOne, zero);
    FilterFilter(rows, notOne, Neither(col), neitherAndNotOne);
    FilterCongruent(rows, neitherAndNotOne, Neither(col));
  }

  /** Each row of the table sums to at most the group's size, and to exactly
      its size when and only when every outcome in the group is 0 or 1. */
  lemma GroupTotal(rows: seq<Row>, col: string)
    ensures OutcomeCount(rows, col, 1) + OutcomeCount(rows, col, 0) <= |rows|
    ensures OutcomeCount(rows, col, 1) + OutcomeCount(rows, col, 0) == |rows| <==>
              forall i :: 0 <= i < |rows| ==> ZeroOrOne(col, rows[i])
  {
    OutcomeSplit(rows, col);
    if forall i :: 0 <= i < |rows| ==> ZeroOrOne(col, rows[i]) {
      FilterKeepsNone(rows, Neither(col));
    } else {
      var i :| 0 <= i < |rows| && !ZeroOrOne(col, rows[i]);
      FilterMembership(rows, Neither(col));
      assert rows[i] in Filter(rows, Neither(col));
    }
  }

  /** The table of a run that succeeds: two rows that each sum to at most
      their group's size. */
  lemma CrosstabBounds(exposure: Table, control: Table, col: string)
    requires Crosstab(exposure, control, col).Ok?
    ensures var c := Crosstab(exposure, control, col).value;
            c.exposedYes + c.exposedNo <= |exposure.rows| && c.controlYes + c.controlNo <= |control.rows|
  {
    GroupTotal(exposure.rows, col);
    GroupTotal(control.rows, col);
  }
}
