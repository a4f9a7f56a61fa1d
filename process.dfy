/** The diabetes flag: a row has diabetes when one of its diagnosis codes
    starts with one of the diabetes code prefixes. */
module Process {
  import opened Frames
  import opened DataProcessing

  predicate HasPrefix(s: string, prefix: string)
  {
    |prefix| <= |s| && s[..|prefix|] == prefix
  }

  /** `row.str.startswith(prefix)` for one cell: a text cell starting with the
      prefix; anything else (a missing entry, a number) is never a match. */
  predicate CellStartsWith(v: Value, prefix: string)
  {
    v.Str? && HasPrefix(v.s, prefix)
  }

  /** `row.str.startswith(prefix).any()` over the row's cells in `cols`. */
  predicate AnyStartsWith(r: Row, cols: seq<string>, prefix: string)
    ensures AnyStartsWith(r, cols, prefix) ==> cols != []
  {
    exists j :: 0 <= j < |cols| && CellStartsWith(Cell(r, cols[j]), prefix)
  }

  predicate MatchesSomePrefix(r: Row, cols: seq<string>, prefixes: seq<string>)
  {
    exists k :: 0 <= k < |prefixes| && AnyStartsWith(r, cols, prefixes[k])
  }

  /** The row has a diagnosis code with a diabetes prefix. */
  predicate HasDm(r: Row, dxCols: seq<string>)
    ensures HasDm(r, dxCols) ==> dxCols != []
  {
    MatchesSomePrefix(r, dxCols, DmStartswithCodes)
  }

  /** `get_dm(row)`: tries the prefixes in catalog order and stops at the first hit. */
  method GetDm(row: Row, dxCols: seq<string>) returns (flag: bool)
    ensures flag == HasDm(row, dxCols)
  {
    var i := 0;
    while i < |DmStartswithCodes|
      invariant 0 <= i <= |DmStartswithCodes|
      invariant forall k :: 0 <= k < i ==> !AnyStartsWith(row, dxCols, DmStartswithCodes[k])
    {
      if AnyStartsWith(row, dxCols, DmStartswithCodes[i]) {
        return true;
      }
      i := i + 1;
    }
    return false;
  }

  /** Flagged exactly when some non-missing diagnosis code, in one of the
      listed columns, starts with one of the diabetes prefixes. */
  lemma HasDmIff(r: Row, dxCols: seq<string>)
    ensures HasDm(r, dxCols) <==>
              exists c, p :: c in dxCols && p in DmStartswithCodes &&
                             Cell(r, c) != Null && Cell(r, c).Str? && HasPrefix(Cell(r, c).s, p)
  {
    if HasDm(r, dxCols) {
      var k :| 0 <= k < |DmStartswithCodes| && AnyStartsWith(r, dxCols, DmStartswithCodes[k]);
      var j :| 0 <= j < |dxCols| && CellStartsWith(Cell(r, dxCols[j]), DmStartswithCodes[k]);
      assert dxCols[j] in dxCols && DmStartswithCodes[k] in DmStartswithCodes;
    }
    if exists c, p :: c in dxCols && p in DmStartswithCodes &&
                      Cell(r, c) != Null && Cell(r, c).Str? && HasPrefix(Cell(r, c).s, p) {
      var c, p :| c in dxCols && p in DmStartswithCodes &&
                  Cell(r, c) != Null && Cell(r, c).Str? && HasPrefix(Cell(r, c).s, p);
      var j :| 0 <= j < |dxCols| && dxCols[j] == c;
      var k :| 0 <= k < |DmStartswithCodes| && DmStartswithCodes[k] == p;
      assert AnyStartsWith(r, dxCols, DmStartswithCodes[k]);
    }
  }

  /** A row whose diagnosis cells are all missing, or hold no text starting
      with a diabetes prefix, is not flagged. */
  lemma NoMatchNoDm(r: Row, dxCols: seq<string>)
    requires (forall j :: 0 <= j < |dxCols| ==> Cell(r, dxCols[j]) == Null) ||
             (forall j, k :: 0 <= j < |dxCols| && 0 <= k < |DmStartswithCodes| ==>
                !CellStartsWith(Cell(r, dxCols[j]), DmStartswithCodes[k]))
    ensures !HasDm(r, dxCols)
  {
  }

  /** Prefix matching is reflexive: a code that is itself a prefix is flagged. */
  lemma PrefixCodeFlagged(r: Row, dxCols: seq<string>, c: string, k: nat)
    requires c in dxCols && k < |DmStartswithCodes|
    requires Cell(r, c) == Str(DmStartswithCodes[k])
    ensures HasDm(r, dxCols)
  {
    var j :| 0 <= j < |dxCols| && dxCols[j] == c;
    assert CellStartsWith(Cell(r, dxCols[j]), DmStartswithCodes[k]);
  }

  /** For instance, a diagnosis code "250" or "25000" is flagged. */
  lemma Code250Flagged(r: Row, dxCols: seq<string>, c: string)
    requires c in dxCols && (Cell(r, c) == Str("250") || Cell(r, c) == Str("25000"))
    ensures HasDm(r, dxCols)
  {
    var j :| 0 <= j < |dxCols| && dxCols[j] == c;
    assert Cell(r, c).s[..3] == "250";
    assert CellStartsWith(Cell(r, dxCols[j]), DmStartswithCodes[2]);
  }

  /** The order in which the prefixes are tried does not matter; the early
      return only stops the search. */
  lemma PrefixOrderIrrelevant(r: Row, cols: seq<string>, a: seq<string>, b: seq<string>)
    requires forall p :: p in a <==> p in b
    ensures MatchesSomePrefix(r, cols, a) == MatchesSomePrefix(r, cols, b)
  {
    if MatchesSomePrefix(r, cols, a) {
      var k :| 0 <= k < |a| && AnyStartsWith(r, cols, a[k]);
      assert a[k] in b;
      var l :| 0 <= l < |b| && b[l] == a[k];
    }
    if MatchesSomePrefix(r, cols, b) {
      var k :| 0 <= k < |b| && AnyStartsWith(r, cols, b[k]);
      assert b[k] in a;
      var l :| 0 <= l < |a| && a[l] == b[k];
    }
  }

  const HasDmColumn := "has_DM"

  /** The new column is not a diagnosis column, so adding it leaves the
      diagnosis columns, and hence the flag, as they were. */
  lemma HasDmColumnNotDx(columns: seq<string>)
    ensures !IsDxColumn(HasDmColumn)
    ensures GetDxCols(AddLabel(columns, HasDmColumn)) == GetDxCols(columns)
  {
    assert !IsDxColumn(HasDmColumn) by {
      assert BeforeFinalNewline(HasDmColumn) == HasDmColumn;
    }
    if HasDmColumn !in columns {
      assert Filter([HasDmColumn], Matcher(Icd9Dx)) == [] && Filter([HasDmColumn], Matcher(Icd10Dx)) == [] by {
        assert !Matcher(Icd9Dx)(HasDmColumn) && !Matcher(Icd10Dx)(HasDmColumn);
      }
      FilterAppend(columns, [HasDmColumn], Matcher(Icd9Dx));
      FilterAppend(columns, [HasDmColumn], Matcher(Icd10Dx));
    }
  }

  /** `df["has_DM"] = df[dx_cols].apply(get_dm, axis=1)`, with `dx_cols` taken
      from the frame's labels before the column is added. */
  method AddHasDm(df: Frame)
    modifies df
    ensures df.columns == AddLabel(old(df.columns), HasDmColumn)
    ensures |df.rows| == |old(df.rows)|
    ensures forall i :: 0 <= i < |df.rows| ==>
              df.rows[i] == old(df.rows)[i][HasDmColumn := Bool(HasDm(old(df.rows)[i], GetDxCols(old(df.columns))))]
    ensures forall i, c :: 0 <= i < |df.rows| && c != HasDmColumn ==> Cell(df.rows[i], c) == Cell(old(df.rows)[i], c)
  {
    var dxCols := GetDxCols(df.columns);
    var flags: seq<Value> := [];
    var i := 0;
    while i < |df.rows|
      invariant unchanged(df)
      invariant 0 <= i <= |df.rows|
      invariant |flags| == i
      invariant forall k :: 0 <= k < i ==> flags[k] == Bool(HasDm(df.rows[k], dxCols))
    {
      var flag := GetDm(df.rows[i], dxCols);
      flags := flags + [Bool(flag)];
      i := i + 1;
    }
    df.SetColumn(HasDmColumn, flags);
  }
}
