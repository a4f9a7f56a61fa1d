/** The first-pass filter: keep the discharge records whose diagnosis and
    procedure columns hold a code of interest, over many yearly batches. */
module FirstPassFilter {
  import opened Frames
  import opened DataProcessing

  /** The first-listed position of each coding era. */
  const PrimaryDxCols: seq<string> := ["DX1", "I10_DX1"]
  const PrimaryProcCols: seq<string> := ["PR1", "I10_PR1"]

  function InPrimary(primary: seq<string>): string -> bool
  {
    (c: string) => c in primary
  }

  class ParallelFilter {
    const dxCodes: seq<string>
    const dxAsPrimary: bool
    const procCodes: seq<string>
    const procAsPrimary: bool

    /** Every argument may be left out: no codes and all positions consulted. */
    constructor (dxCodes: seq<string> := [], dxAsPrimary: bool := false,
                 procCodes: seq<string> := [], procAsPrimary: bool := false)
      ensures this.dxCodes == dxCodes && this.dxAsPrimary == dxAsPrimary
      ensures this.procCodes == procCodes && this.procAsPrimary == procAsPrimary
    {
      this.dxCodes := dxCodes;
      this.dxAsPrimary := dxAsPrimary;
      this.procCodes := procCodes;
      this.procAsPrimary := procAsPrimary;
    }

    /** `__find_in_cols`: the rows in which some of `cols` holds one of `vals`. */
    static function FindInCols(t: Table, cols: seq<string>, vals: seq<string>): (r: Table)
      ensures r.columns == t.columns
      ensures Selects(r.rows, t.rows, InCols(cols, vals))
    {
      FilterSelects(t.rows, InCols(cols, vals));
      Where(t, InCols(cols, vals))
    }

    /** The diagnosis columns consulted: all of them, or only the first-listed ones. */
    function DxColsUsed(columns: seq<string>): (r: seq<string>)
      ensures forall c :: c in r <==> c in columns && IsDxColumn(c) && (dxAsPrimary ==> c in PrimaryDxCols)
    {
      var all := GetDxCols(columns);
      forall c ensures c in all <==> c in columns && IsDxColumn(c) {
        GetDxColsMultiplicity(columns, c);
      }
      var r := if dxAsPrimary then Filter(all, InPrimary(PrimaryDxCols)) else all;
      FilterMembership(all, InPrimary(PrimaryDxCols));
      r
    }

    function ProcColsUsed(columns: seq<string>): (r: seq<string>)
      ensures forall c :: c in r <==> c in columns && IsProcColumn(c) && (procAsPrimary ==> c in PrimaryProcCols)
    {
      var all := GetProcCols(columns);
      forall c ensures c in all <==> c in columns && IsProcColumn(c) {
        GetProcColsMultiplicity(columns, c);
      }
      var r := if procAsPrimary then Filter(all, InPrimary(PrimaryProcCols)) else all;
      FilterMembership(all, InPrimary(PrimaryProcCols));
      r
    }

    /** Whether a row survives the diagnosis stage of a table with these columns. */
    predicate DxKeeps(row: Row, columns: seq<string>)
    {
      |dxCodes| == 0 || IsInAny(row, DxColsUsed(columns), dxCodes)
    }

    predicate ProcKeeps(row: Row, columns: seq<string>)
    {
      |procCodes| == 0 || IsInAny(row, ProcColsUsed(columns), procCodes)
    }

    function DxStage(columns: seq<string>): Row -> bool
    {
      (row: Row) => DxKeeps(row, columns)
    }

    function ProcStage(columns: seq<string>): Row -> bool
    {
      (row: Row) => ProcKeeps(row, columns)
    }

    function BothStages(columns: seq<string>): Row -> bool
    {
      (row: Row) => DxKeeps(row, columns) && ProcKeeps(row, columns)
    }

    /** `_get_relevant_dx` */
    function GetRelevantDx(t: Table): (r: Table)
      ensures r.columns == t.columns
      ensures |dxCodes| == 0 ==> r == t
      ensures Selects(r.rows, t.rows, DxStage(t.columns))
    {
      if |dxCodes| == 0 then
        FilterKeepsAll(t.rows, DxStage(t.columns));
        FilterSelects(t.rows, DxStage(t.columns));
        t
      else
        var r := FindInCols(t, DxColsUsed(t.columns), dxCodes);
        FilterCongruent(t.rows, InCols(DxColsUsed(t.columns), dxCodes), DxStage(t.columns));
        FilterSelects(t.rows, DxStage(t.columns));
        r
    }

    /** `_get_relevant_proc` */
    function GetRelevantProc(t: Table): (r: Table)
      ensures r.columns == t.columns
      ensures |procCodes| == 0 ==> r == t
      ensures Selects(r.rows, t.rows, ProcStage(t.columns))
    {
      if |procCodes| == 0 then
        FilterKeepsAll(t.rows, ProcStage(t.columns));
        FilterSelects(t.rows, ProcStage(t.columns));
        t
      else
        var r := FindInCols(t, ProcColsUsed(t.columns), procCodes);
        FilterCongruent(t.rows, InCols(ProcColsUsed(t.columns), procCodes), ProcStage(t.columns));
        FilterSelects(t.rows, ProcStage(t.columns));
        r
    }

    /** `single_file_filter` after the read: the diagnosis stage, then the
        procedure stage on its survivors. */
    function SingleFileFilter(t: Table): (r: Table)
      ensures r.columns == t.columns
      ensures Selects(r.rows, t.rows, BothStages(t.columns))
    {
      var relevant := GetRelevantDx(t);
      var r := GetRelevantProc(relevant);
      RelevantDxIsFilter(t);
      RelevantProcIsFilter(relevant);
      FilterFilter(t.rows, DxStage(t.columns), ProcStage(t.columns), BothStages(t.columns));
      FilterSelects(t.rows, BothStages(t.columns));
      r
    }

    lemma RelevantDxIsFilter(t: Table)
      ensures GetRelevantDx(t).rows == Filter(t.rows, DxStage(t.columns))
    {
      if |dxCodes| == 0 {
        FilterKeepsAll(t.rows, DxStage(t.columns));
      } else {
        FilterCongruent(t.rows, InCols(DxColsUsed(t.columns), dxCodes), DxStage(t.columns));
      }
    }

    lemma RelevantProcIsFilter(t: Table)
      ensures GetRelevantProc(t).rows == Filter(t.rows, ProcStage(t.columns))
    {
      if |procCodes| == 0 {
        FilterKeepsAll(t.rows, ProcStage(t.columns));
      } else {
        FilterCongruent(t.rows, InCols(ProcColsUsed(t.columns), procCodes), ProcStage(t.columns));
      }
    }

    // -------------------------------------------------------------------
    // What the stages keep.

    /** A row survives the diagnosis stage iff the code list is empty or some
        consulted diagnosis column holds, as text, exactly one of the codes. */
    lemma DxSurvivorIff(t: Table, row: Row)
      ensures row in GetRelevantDx(t).rows <==>
        row in t.rows &&
        (|dxCodes| == 0 ||
         exists c :: c in t.columns && IsDxColumn(c) && (dxAsPrimary ==> c in PrimaryDxCols) && IsIn(Cell(row, c), dxCodes))
    {
      RelevantDxIsFilter(t);
      FilterMembership(t.rows, DxStage(t.columns));
      IsInAnyIff(row, DxColsUsed(t.columns), dxCodes);
    }

    lemma ProcSurvivorIff(t: Table, row: Row)
      ensures row in GetRelevantProc(t).rows <==>
        row in t.rows &&
        (|procCodes| == 0 ||
         exists c :: c in t.columns && IsProcColumn(c) && (procAsPrimary ==> c in PrimaryProcCols) && IsIn(Cell(row, c), procCodes))
    {
      RelevantProcIsFilter(t);
      FilterMembership(t.rows, ProcStage(t.columns));
      IsInAnyIff(row, ProcColsUsed(t.columns), procCodes);
    }

    /** With `dx_as_primary`, only `DX1` and `I10_DX1` are consulted. */
    lemma PrimaryDxConsultsFirstPosition(columns: seq<string>, row: Row)
      requires dxAsPrimary && |dxCodes| > 0
      ensures DxKeeps(row, columns) <==>
        ("DX1" in columns && IsIn(Cell(row, "DX1"), dxCodes)) ||
        ("I10_DX1" in columns && IsIn(Cell(row, "I10_DX1"), dxCodes))
    {
      FirstPositionsAreDx();
      IsInAnyIff(row, DxColsUsed(columns), dxCodes);
      if DxKeeps(row, columns) {
        var c :| c in DxColsUsed(columns) && IsIn(Cell(row, c), dxCodes);
        assert c == "DX1" || c == "I10_DX1";
      }
      if "DX1" in columns && IsIn(Cell(row, "DX1"), dxCodes) {
        assert "DX1" in DxColsUsed(columns);
      }
      if "I10_DX1" in columns && IsIn(Cell(row, "I10_DX1"), dxCodes) {
        assert "I10_DX1" in DxColsUsed(columns);
      }
    }

    /** With `proc_as_primary`, only `PR1` and `I10_PR1` are consulted. */
    lemma PrimaryProcConsultsFirstPosition(columns: seq<string>, row: Row)
      requires procAsPrimary && |procCodes| > 0
      ensures ProcKeeps(row, columns) <==>
        ("PR1" in columns && IsIn(Cell(row, "PR1"), procCodes)) ||
        ("I10_PR1" in columns && IsIn(Cell(row, "I10_PR1"), procCodes))
    {
      FirstPositionsAreProc();
      IsInAnyIff(row, ProcColsUsed(columns), procCodes);
      if ProcKeeps(row, columns) {
        var c :| c in ProcColsUsed(columns) && IsIn(Cell(row, c), procCodes);
        assert c == "PR1" || c == "I10_PR1";
      }
      if "PR1" in columns && IsIn(Cell(row, "PR1"), procCodes) {
        assert "PR1" in ProcColsUsed(columns);
      }
      if "I10_PR1" in columns && IsIn(Cell(row, "I10_PR1"), procCodes) {
        assert "I10_PR1" in ProcColsUsed(columns);
      }
    }

    /** With `dx_as_primary` and neither first-position column present, no row survives. */
    lemma PrimaryDxWithoutFirstPosition(t: Table)
      requires dxAsPrimary && |dxCodes| > 0
      requires "DX1" !in t.columns && "I10_DX1" !in t.columns
      ensures GetRelevantDx(t).rows == []
    {
      forall i | 0 <= i < |t.rows| ensures !DxStage(t.columns)(t.rows[i]) {
        PrimaryDxConsultsFirstPosition(t.columns, t.rows[i]);
      }
      RelevantDxIsFilter(t);
      FilterKeepsNone(t.rows, DxStage(t.columns));
    }

    /** A row whose consulted diagnosis cells hold no text never survives a non-empty code list. */
    lemma NullNeverMatches(t: Table, row: Row)
      requires |dxCodes| > 0
      requires forall c :: c in t.columns ==> !Cell(row, c).Str?
      ensures row !in GetRelevantDx(t).rows
    {
      DxSurvivorIff(t, row);
    }

    /** Both stages must hold: a row survives `single_file_filter` iff it
        survives the diagnosis stage and the procedure stage. */
    lemma SingleFileFilterIff(t: Table, row: Row)
      ensures row in SingleFileFilter(t).rows <==>
        row in t.rows && DxKeeps(row, t.columns) && ProcKeeps(row, t.columns)
    {
      RelevantDxIsFilter(t);
      RelevantProcIsFilter(GetRelevantDx(t));
      FilterFilter(t.rows, DxStage(t.columns), ProcStage(t.columns), BothStages(t.columns));
      FilterMembership(t.rows, BothStages(t.columns));
    }

    /** Filtering a batch a second time changes nothing. */
    lemma SingleFileFilterIdempotent(t: Table)
      ensures SingleFileFilter(SingleFileFilter(t)) == SingleFileFilter(t)
    {
      var once := SingleFileFilter(t);
      var both := BothStages(t.columns);
      RelevantDxIsFilter(t);
      RelevantProcIsFilter(GetRelevantDx(t));
      FilterFilter(t.rows, DxStage(t.columns), ProcStage(t.columns), both);
      RelevantDxIsFilter(once);
      RelevantProcIsFilter(GetRelevantDx(once));
      FilterFilter(once.rows, DxStage(t.columns), ProcStage(t.columns), both);
      FilterIdempotent(t.rows, both);
    }

    lemma GetRelevantDxIdempotent(t: Table)
      ensures GetRelevantDx(GetRelevantDx(t)) == GetRelevantDx(t)
    {
      RelevantDxIsFilter(t);
      RelevantDxIsFilter(GetRelevantDx(t));
      FilterIdempotent(t.rows, DxStage(t.columns));
    }

    // -------------------------------------------------------------------
    // Many batches.

    /** The per-batch results, in the order of the input batches (`executor.map`). */
    function Results(batches: seq<Table>): (rs: seq<Table>)
      ensures |rs| == |batches|
      ensures forall k :: 0 <= k < |batches| ==> rs[k] == SingleFileFilter(batches[k])
    {
      MapSeq(batches, SingleFileFilter)
    }

    /** The sum of the per-batch result sizes. */
    function FilteredCount(batches: seq<Table>): nat
    {
      if batches == [] then 0
      else FilteredCount(batches[..|batches| - 1]) + |SingleFileFilter(batches[|batches| - 1]).rows|
    }

    /** The results' sizes add up to the filtered count. */
    lemma {:induction false} CountsAddUp(batches: seq<Table>)
      ensures TotalRows(Results(batches)) == FilteredCount(batches)
    {
      if batches != [] {
        var init := batches[..|batches| - 1];
        CountsAddUp(init);
        assert Results(batches)[..|batches| - 1] == Results(init);
      }
    }

    /** `parallel_file_filter` without the process pool, the progress bar and the
        write: filter every batch, concatenate the results in input order, and
        return the table with the final count that is logged. */
    method ParallelFileFilter(batches: seq<Table>) returns (r: Result<Table>, finalCount: nat)
      ensures r.Ok? <==> |batches| > 0
      ensures r.Err? ==> r.error == NoObjectsToConcatenate
      ensures r.Ok? ==> r.value.rows == ConcatRows(Results(batches))
      ensures r.Ok? ==> finalCount == |r.value.rows| == FilteredCount(batches)
      ensures r.Ok? ==> forall c :: c in r.value.columns <==> exists k :: 0 <= k < |batches| && c in batches[k].columns
    {
      var res := Results(batches);
      CountsAddUp(batches);
      r := ConcatTables(res);
      finalCount := 0;
      if r.Ok? {
        ConcatRowsLength(res);
        finalCount := |r.value.rows|;
        forall c ensures c in r.value.columns <==> exists k :: 0 <= k < |batches| && c in batches[k].columns {
          ResultColumns(batches, c);
        }
      }
    }

    /** Filtering keeps each batch's labels, so a label is on some result
        exactly when it is on some batch. */
    lemma ResultColumns(batches: seq<Table>, c: string)
      ensures (exists k :: 0 <= k < |batches| && c in Results(batches)[k].columns) <==>
              (exists k :: 0 <= k < |batches| && c in batches[k].columns)
    {
      var res := Results(batches);
      if exists k :: 0 <= k < |batches| && c in res[k].columns {
        var k :| 0 <= k < |batches| && c in res[k].columns;
        assert c in batches[k].columns;
      }
      if exists k :: 0 <= k < |batches| && c in batches[k].columns {
        var k :| 0 <= k < |batches| && c in batches[k].columns;
        assert c in res[k].columns;
      }
    }
  }

  // ---------------------------------------------------------------------
  // `pd.concat` of the per-batch results.

  function TotalRows(ts: seq<Table>): nat
  {
    if ts == [] then 0 else TotalRows(ts[..|ts| - 1]) + |ts[|ts| - 1].rows|
  }

  /** The rows of every table, table after table. */
  function ConcatRows(ts: seq<Table>): seq<Row>
  {
    if ts == [] then [] else ConcatRows(ts[..|ts| - 1]) + ts[|ts| - 1].rows
  }

  lemma {:induction false} ConcatRowsLength(ts: seq<Table>)
    ensures |ConcatRows(ts)| == TotalRows(ts)
  {
    if ts != [] {
      ConcatRowsLength(ts[..|ts| - 1]);
    }
  }

  /** The `k`-th table's rows follow, in order, right after those of the
      tables before it. */
  lemma {:induction false} ConcatRowsBlock(ts: seq<Table>, k: nat)
    requires k < |ts|
    ensures ConcatRows(ts[..k]) + ts[k].rows <= ConcatRows(ts)
  {
    var init := ts[..|ts| - 1];
    if k == |ts| - 1 {
      assert init == ts[..k];
    } else {
      ConcatRowsBlock(init, k);
      assert init[..k] == ts[..k];
      assert init[k] == ts[k];
    }
  }

  /** The union of the column labels, each kept at its first appearance. */
  function UnionColumns(a: seq<string>, b: seq<string>): (r: seq<string>)
    ensures forall c :: c in r <==> c in a || c in b
    decreases |b|
  {
    if b == [] then a
    else UnionColumns(if b[0] in a then a else a + [b[0]], b[1..])
  }

  function ConcatColumns(ts: seq<Table>): (r: seq<string>)
    ensures forall c :: c in r <==> exists k :: 0 <= k < |ts| && c in ts[k].columns
  {
    if ts == [] then []
    else
      var init := ts[..|ts| - 1];
      var r := UnionColumns(ConcatColumns(init), ts[|ts| - 1].columns);
      assert forall k :: 0 <= k < |init| ==> init[k] == ts[k];
      r
  }

  /** `pd.concat(res)`: an empty list is an error. */
  function ConcatTables(ts: seq<Table>): (r: Result<Table>)
    ensures r.Ok? <==> ts != []
    ensures r.Err? ==> r.error == NoObjectsToConcatenate
    ensures r.Ok? ==> r.value.rows == ConcatRows(ts)
    ensures r.Ok? ==> forall c :: c in r.value.columns <==> exists k :: 0 <= k < |ts| && c in ts[k].columns
  {
    if ts == [] then Err(NoObjectsToConcatenate)
    else Ok(Table(ConcatColumns(ts), ConcatRows(ts)))
  }
}
