/** The exploration script: it drops transfers, derives the outcome and
    comorbidity flags, splits the cohort by payer and by complicated
    diabetes, and cross-tabulates the composite outcome against payer. */
module Exploration {
  import opened Frames
  import opened DataProcessing
  import opened Reporting

  /** The input columns the script reads, in the order it first reads them. */
  const ReadColumns: seq<string> :=
    ["TRAN_OUT", "I10_NPR", "NPR", "LOS", "DIED",
     "CM_DM", "CMR_DIAB_UNCX", "CM_DMCX", "CMR_DIAB_CX", "CM_PERIVASC", "CMR_PERIVASC",
     "CM_ALCOHOL", "CMR_ALCOHOL", "CM_DRUG", "CMR_DRUG_ABUSE", "PAY1"]

  /** The columns the script adds, in the order it adds them. */
  const DerivedNames: seq<string> := OutcomeNames + ComorbidityNames
  const OutcomeNames: seq<string> := ["ssi", "or_return", "extended_los", "composite_outcome"]
  const ComorbidityNames: seq<string> :=
    ["composite_DM", "composite_DMCX", "composite_VASC", "composite_ALCOHOL", "composite_DRUG"]

  const OutcomeColumn := "composite_outcome"
  const ComorbidityColumn := "composite_DMCX"
  const SelfPay := 4
  const PrivatePay := 2

  /** The first of `wanted` that is not a label of the frame: the lookup that
      raises `KeyError`. */
  function FirstMissing(columns: seq<string>, wanted: seq<string>): (r: Option<string>)
    ensures r.None? <==> forall k :: 0 <= k < |wanted| ==> wanted[k] in columns
    ensures r.Some? ==> exists k :: 0 <= k < |wanted| && wanted[k] == r.value && r.value !in columns &&
                                  forall j :: 0 <= j < k ==> wanted[j] in columns
  {
    if wanted == [] then None
    else if wanted[0] !in columns then Some(wanted[0])
    else
      var rest := FirstMissing(columns, wanted[1..]);
      assert rest.Some? ==> exists k :: 1 <= k < |wanted| && wanted[k] == rest.value && rest.value !in columns &&
                                        forall j :: 0 <= j < k ==> wanted[j] in columns by {
        if rest.Some? {
          var k :| 0 <= k < |wanted[1..]| && wanted[1..][k] == rest.value && rest.value !in columns &&
                   forall j :: 0 <= j < k ==> wanted[1..][j] in columns;
          assert wanted[k + 1] == rest.value;
          assert forall j :: 1 <= j < k + 1 ==> wanted[j] == wanted[1..][j - 1];
        }
      }
      assert rest.None? ==> forall k :: 0 <= k < |wanted| ==> wanted[k] in columns by {
        if rest.None? {
          assert forall k :: 1 <= k < |wanted| ==> wanted[k] == wanted[1..][k - 1];
        }
      }
      rest
  }

  predicate NotTransferred(r: Row)
    ensures NotTransferred(r) ==> "TRAN_OUT" in r && (r["TRAN_OUT"] == Int(0) || r["TRAN_OUT"] == Bool(false))
  {
    NumEq(Cell(r, "TRAN_OUT"), 0)
  }

  /** `df[dx_cols].isin(ssi_codes).any("columns")` */
  function SsiFlag(dxCols: seq<string>): Row -> Value
  {
    (r: Row) => Bool(IsInAny(r, dxCols, SsiCodes))
  }

  /** More than one procedure across the two procedure counts. */
  predicate OrReturn(r: Row)
    ensures OrReturn(r) ==> Num(Cell(r, "I10_NPR")).Some? || Num(Cell(r, "NPR")).Some?
  {
    FillZero(Cell(r, "I10_NPR")) + FillZero(Cell(r, "NPR")) > 1
  }

  function OrReturnFlag(): Row -> Value
  {
    (r: Row) => Bool(OrReturn(r))
  }

  /** `LOS > 4`, false where the stay is missing. */
  predicate ExtendedLos(r: Row)
    ensures ExtendedLos(r) ==> Num(Cell(r, "LOS")).Some?
  {
    match Num(Cell(r, "LOS"))
    case Some(n) => n > 4
    case None => false
  }

  function LosFlag(): Row -> Value
  {
    (r: Row) => Bool(ExtendedLos(r))
  }

  /** `(ssi + DIED + or_return) > 0`: a missing term makes the sum NaN, and NaN is never above 0. */
  predicate SumAboveZero(r: Row)
    ensures SumAboveZero(r) ==> Num(Cell(r, "ssi")).Some? && Num(Cell(r, "DIED")).Some? && Num(Cell(r, "or_return")).Some?
  {
    match (Num(Cell(r, "ssi")), Num(Cell(r, "DIED")), Num(Cell(r, "or_return")))
    case (Some(a), Some(b), Some(c)) => a + b + c > 0
    case _ => false
  }

  function CompositeFlag(): Row -> Value
  {
    (r: Row) => Bool(SumAboveZero(r))
  }

  /** `(a.fillna(0) + b.fillna(0)) > 0` */
  predicate EitherSource(r: Row, a: string, b: string)
    ensures EitherSource(r, a, b) ==> Num(Cell(r, a)).Some? || Num(Cell(r, b)).Some?
  {
    FillZero(Cell(r, a)) + FillZero(Cell(r, b)) > 0
  }

  function EitherFlag(a: string, b: string): Row -> Value
  {
    (r: Row) => Bool(EitherSource(r, a, b))
  }

  /** The rows once the nine columns are added. */
  function Derive(rows: seq<Row>, dxCols: seq<string>): (r: seq<Row>)
    ensures |r| == |rows|
    ensures forall i :: 0 <= i < |rows| ==> r[i] == DeriveRow(rows[i], dxCols)
  {
    MapSeq(rows, (row: Row) => DeriveRow(row, dxCols))
  }

  /** The labels after the nine columns are added. */
  function DeriveColumns(columns: seq<string>): (r: seq<string>)
    ensures forall c :: c in r <==> c in columns || c in DerivedNames
    ensures columns <= r
  {
    var c1 := AddLabel(columns, "ssi");
    var c2 := AddLabel(c1, "or_return");
    var c3 := AddLabel(c2, "extended_los");
    var c4 := AddLabel(c3, "composite_outcome");
    var c5 := AddLabel(c4, "composite_DM");
    var c6 := AddLabel(c5, "composite_DMCX");
    var c7 := AddLabel(c6, "composite_VASC");
    var c8 := AddLabel(c7, "composite_ALCOHOL");
    AddLabel(c8, "composite_DRUG")
  }

  /** The nine assignments add the derived labels one after another, in their order. */
  lemma DeriveColumnsInOrder(columns: seq<string>)
    ensures DeriveColumns(columns) == AddLabels(columns, DerivedNames)
  {
    var n0, n1, n2, n3, n4, n5, n6, n7, n8 :=
      "ssi", "or_return", "extended_los", "composite_outcome",
      "composite_DM", "composite_DMCX", "composite_VASC", "composite_ALCOHOL", "composite_DRUG";
    assert DerivedNames == [n0] + ([n1] + ([n2] + ([n3] + ([n4] + ([n5] + ([n6] + ([n7] + [n8])))))));
    var c1 := AddLabel(columns, n0);
    var c2 := AddLabel(c1, n1);
    var c3 := AddLabel(c2, n2);
    var c4 := AddLabel(c3, n3);
    var c5 := AddLabel(c4, n4);
    var c6 := AddLabel(c5, n5);
    var c7 := AddLabel(c6, n6);
    var c8 := AddLabel(c7, n7);
    AddLabelsCons(columns, n0, [n1] + ([n2] + ([n3] + ([n4] + ([n5] + ([n6] + ([n7] + [n8])))))));
    AddLabelsCons(c1, n1, [n2] + ([n3] + ([n4] + ([n5] + ([n6] + ([n7] + [n8]))))));
    AddLabelsCons(c2, n2, [n3] + ([n4] + ([n5] + ([n6] + ([n7] + [n8])))));
    AddLabelsCons(c3, n3, [n4] + ([n5] + ([n6] + ([n7] + [n8]))));
    AddLabelsCons(c4, n4, [n5] + ([n6] + ([n7] + [n8])));
    AddLabelsCons(c5, n5, [n6] + ([n7] + [n8]));
    AddLabelsCons(c6, n6, [n7] + [n8]);
    AddLabelsCons(c7, n7, [n8]);
    AddLabelsCons(c8, n8, []);
  }

  lemma DerivedNamesDistinct()
    ensures Distinct(DerivedNames)
  {
    assert DerivedNames == ["ssi", "or_return", "extended_los", "composite_outcome",
                            "composite_DM", "composite_DMCX", "composite_VASC", "composite_ALCOHOL", "composite_DRUG"];
  }

  /** On a frame with none of the nine labels, they are appended in the order
      the script adds them. */
  lemma DeriveColumnsAppends(columns: seq<string>)
    requires forall c :: c in DerivedNames ==> c !in columns
    ensures DeriveColumns(columns) == columns + DerivedNames
  {
    DerivedNamesDistinct();
    DeriveColumnsInOrder(columns);
    AddLabelsFresh(columns, DerivedNames);
  }

  /** The frame after the transfer filter and the added columns. */
  function Prepared(t: Table): (p: Table)
    ensures forall c :: c in p.columns <==> c in t.columns || c in DerivedNames
    ensures |p.rows| <= |t.rows|
  {
    Table(DeriveColumns(t.columns), Derive(Filter(t.rows, NotTransferred), GetDxCols(t.columns)))
  }

  function PayerIs(code: int): Row -> bool
  {
    (r: Row) => NumEq(Cell(r, "PAY1"), code)
  }

  function ComorbidityIs(v: int): Row -> bool
  {
    (r: Row) => NumEq(Cell(r, ComorbidityColumn), v)
  }

  /** The three tables: uninsured against privately insured among patients
      without complicated diabetes, among those with it, and overall. */
  datatype Cohorts = Cohorts(noDm: Counts, dm: Counts, everyone: Counts)

  /** The payer groups of a prepared frame, split by complicated diabetes and
      cross-tabulated; `KeyError` when the frame has no outcome column. */
  function Tabulated(d: Table): (r: Result<Cohorts>)
    ensures r.Err? <==> OutcomeColumn !in d.columns
    ensures r.Err? ==> r.error == KeyError([OutcomeColumn])
  {
    var selfpay := Where(d, PayerIs(SelfPay));
    var privatepay := Where(d, PayerIs(PrivatePay));
    var noDm := Crosstab(Where(selfpay, ComorbidityIs(0)), Where(privatepay, ComorbidityIs(0)), OutcomeColumn);
    if noDm.Err? then Err(noDm.error)
    else
      Ok(Cohorts(noDm.value,
                 Crosstab(Where(selfpay, ComorbidityIs(1)), Where(privatepay, ComorbidityIs(1)), OutcomeColumn).value,
                 Crosstab(selfpay, privatepay, OutcomeColumn).value))
  }

  /** What the script computes from the processed cohort, or the `KeyError`
      of the first column it reads that is absent. */
  function Exploration(t: Table): (r: Result<Cohorts>)
    ensures r.Err? <==> exists k :: 0 <= k < |ReadColumns| && ReadColumns[k] !in t.columns
    ensures r.Err? ==> r.error.KeyError? && |r.error.keys| == 1 && r.error.keys[0] in ReadColumns &&
                       r.error.keys[0] !in t.columns
  {
    match FirstMissing(t.columns, ReadColumns)
    case Some(c) => Err(KeyError([c]))
    case None =>
      assert OutcomeColumn in DerivedNames;
      Tabulated(Prepared(t))
  }

  /** The script from the transfer filter to the three cross tabulations. */
  method Exploration1(processed: Table) returns (r: Result<Cohorts>)
    ensures r == Exploration(processed)
  {
    var missing := FirstMissing(processed.columns, ReadColumns);
    if missing.Some? {
      return Err(KeyError([missing.value]));
    }
    var df := new Frame(Where(processed, NotTransferred));
    var dxCols := GetDxCols(df.columns);
    df.Assign("ssi", SsiFlag(dxCols));
    df.Assign("or_return", OrReturnFlag());
    df.Assign("extended_los", LosFlag());
    df.Assign("composite_outcome", CompositeFlag());
    df.Assign("composite_DM", EitherFlag("CM_DM", "CMR_DIAB_UNCX"));
    df.Assign("composite_DMCX", EitherFlag("CM_DMCX", "CMR_DIAB_CX"));
    df.Assign("composite_VASC", EitherFlag("CM_PERIVASC", "CMR_PERIVASC"));
    df.Assign("composite_ALCOHOL", EitherFlag("CM_ALCOHOL", "CMR_ALCOHOL"));
    df.Assign("composite_DRUG", EitherFlag("CM_DRUG", "CMR_DRUG_ABUSE"));
    ColumnByColumn(Filter(processed.rows, NotTransferred), dxCols);
    r := Tabulate(df.Snapshot());
  }

  /** The groups and the three `make_crosstab` calls of the script. */
  method Tabulate(d: Table) returns (r: Result<Cohorts>)
    ensures r == Tabulated(d)
  {
    var selfpay := Where(d, PayerIs(SelfPay));
    var privatepay := Where(d, PayerIs(PrivatePay));
    var selfpayDm := Where(selfpay, ComorbidityIs(1));
    var selfpayNoDm := Where(selfpay, ComorbidityIs(0));
    var privatepayDm := Where(privatepay, ComorbidityIs(1));
    var privatepayNoDm := Where(privatepay, ComorbidityIs(0));

    var noDm := MakeCrosstab(selfpayNoDm, privatepayNoDm, OutcomeColumn);
    if noDm.Err? {
      return Err(noDm.error);
    }
    var dm := MakeCrosstab(selfpayDm, privatepayDm, OutcomeColumn);
    var everyone := MakeCrosstab(selfpay, privatepay, OutcomeColumn);
    var a, b, c := noDm.value, dm.value, everyone.value;
    r := Ok(Cohorts(Counts(a[0, 0], a[0, 1], a[1, 0], a[1, 1]),
                    Counts(b[0, 0], b[0, 1], b[1, 0], b[1, 1]),
                    Counts(c[0, 0], c[0, 1], c[1, 0], c[1, 1])));
  }

  // ---------------------------------------------------------------------
  // What the derived columns mean for a row of the input.

  function Indicator(b: bool): int
  {
    if b then 1 else 0
  }

  /** One input row once the nine columns are added. */
  function DeriveRow(r: Row, dxCols: seq<string>): (d: Row)
    ensures forall c :: c in d <==> c in r || c in DerivedNames
  {
    WithComorbidities(WithOutcomes(r, dxCols))
  }

  /** The four outcome columns, each computed from the row as it stands. */
  function WithOutcomes(r: Row, dxCols: seq<string>): Row
  {
    var r1 := r["ssi" := Bool(IsInAny(r, dxCols, SsiCodes))];
    var r2 := r1["or_return" := Bool(OrReturn(r1))];
    var r3 := r2["extended_los" := Bool(ExtendedLos(r2))];
    r3["composite_outcome" := Bool(SumAboveZero(r3))]
  }

  /** The five composite comorbidity columns. */
  function WithComorbidities(r: Row): Row
  {
    var r1 := r["composite_DM" := Bool(EitherSource(r, "CM_DM", "CMR_DIAB_UNCX"))];
    var r2 := r1["composite_DMCX" := Bool(EitherSource(r1, "CM_DMCX", "CMR_DIAB_CX"))];
    var r3 := r2["composite_VASC" := Bool(EitherSource(r2, "CM_PERIVASC", "CMR_PERIVASC"))];
    var r4 := r3["composite_ALCOHOL" := Bool(EitherSource(r3, "CM_ALCOHOL", "CMR_ALCOHOL"))];
    r4["composite_DRUG" := Bool(EitherSource(r4, "CM_DRUG", "CMR_DRUG_ABUSE"))]
  }

  /** Adding the nine columns to the whole frame one after another, as the
      script does, derives each row on its own. */
  lemma ColumnByColumn(rows: seq<Row>, dxCols: seq<string>)
    ensures var s1 := AddColumn(rows, "ssi", SsiFlag(dxCols));
            var s2 := AddColumn(s1, "or_return", OrReturnFlag());
            var s3 := AddColumn(s2, "extended_los", LosFlag());
            var s4 := AddColumn(s3, "composite_outcome", CompositeFlag());
            var s5 := AddColumn(s4, "composite_DM", EitherFlag("CM_DM", "CMR_DIAB_UNCX"));
            var s6 := AddColumn(s5, "composite_DMCX", EitherFlag("CM_DMCX", "CMR_DIAB_CX"));
            var s7 := AddColumn(s6, "composite_VASC", EitherFlag("CM_PERIVASC", "CMR_PERIVASC"));
            var s8 := AddColumn(s7, "composite_ALCOHOL", EitherFlag("CM_ALCOHOL", "CMR_ALCOHOL"));
            AddColumn(s8, "composite_DRUG", EitherFlag("CM_DRUG", "CMR_DRUG_ABUSE")) == Derive(rows, dxCols)
  {
  }

  lemma OutcomesKeep(r: Row, dxCols: seq<string>, c: string)
    requires c !in OutcomeNames
    ensures Cell(WithOutcomes(r, dxCols), c) == Cell(r, c)
  {
  }

  lemma ComorbiditiesKeep(r: Row, c: string)
    requires c !in ComorbidityNames
    ensures Cell(WithComorbidities(r), c) == Cell(r, c)
  {
  }

  /** Every column the script does not add keeps the input's cell. */
  lemma DeriveRowKeeps(r: Row, dxCols: seq<string>, c: string)
    requires c !in DerivedNames
    ensures Cell(DeriveRow(r, dxCols), c) == Cell(r, c)
  {
    OutcomesKeep(r, dxCols, c);
    ComorbiditiesKeep(WithOutcomes(r, dxCols), c);
  }

  /** The infection flag of a derived row: one of its diagnosis codes is an infection code. */
  lemma DeriveRowSsi(r: Row, dxCols: seq<string>)
    ensures Cell(DeriveRow(r, dxCols), "ssi") == Bool(IsInAny(r, dxCols, SsiCodes))
  {
    ComorbiditiesKeep(WithOutcomes(r, dxCols), "ssi");
  }

  /** The return-to-theatre flag of a derived row, from the input's procedure counts. */
  lemma DeriveRowOrReturn(r: Row, dxCols: seq<string>)
    ensures Cell(DeriveRow(r, dxCols), "or_return") == Bool(OrReturn(r))
  {
    ComorbiditiesKeep(WithOutcomes(r, dxCols), "or_return");
    var r1 := r["ssi" := Bool(IsInAny(r, dxCols, SsiCodes))];
    assert OrReturn(r1) == OrReturn(r);
  }

  /** The extended-stay flag of a derived row, from the input's length of stay. */
  lemma DeriveRowLos(r: Row, dxCols: seq<string>)
    ensures Cell(DeriveRow(r, dxCols), "extended_los") == Bool(ExtendedLos(r))
  {
    ComorbiditiesKeep(WithOutcomes(r, dxCols), "extended_los");
    var r1 := r["ssi" := Bool(IsInAny(r, dxCols, SsiCodes))];
    var r2 := r1["or_return" := Bool(OrReturn(r1))];
    assert ExtendedLos(r2) == ExtendedLos(r);
  }

  /** The composite outcome of a derived row, in terms of the input row: the
      sum of the infection flag, `DIED` and the return flag is above zero,
      and a missing `DIED` leaves it unset. */
  lemma DeriveRowOutcome(r: Row, dxCols: seq<string>)
    ensures Cell(DeriveRow(r, dxCols), "composite_outcome") ==
              Bool(match Num(Cell(r, "DIED"))
                   case Some(died) => Indicator(IsInAny(r, dxCols, SsiCodes)) + died + Indicator(OrReturn(r)) > 0
                   case None => false)
  {
    ComorbiditiesKeep(WithOutcomes(r, dxCols), "composite_outcome");
    var r1 := r["ssi" := Bool(IsInAny(r, dxCols, SsiCodes))];
    var r2 := r1["or_return" := Bool(OrReturn(r1))];
    var r3 := r2["extended_los" := Bool(ExtendedLos(r2))];
    assert OrReturn(r1) == OrReturn(r);
    assert Cell(r3, "DIED") == Cell(r, "DIED");
    assert Num(Cell(r3, "ssi")) == Some(Indicator(IsInAny(r, dxCols, SsiCodes)));
    assert Num(Cell(r3, "or_return")) == Some(Indicator(OrReturn(r)));
  }

  /** The comorbidity columns read input columns the outcome columns leave alone. */
  lemma SourcesKept(r: Row, dxCols: seq<string>, a: string, b: string)
    requires a !in OutcomeNames && b !in OutcomeNames
    ensures EitherSource(WithOutcomes(r, dxCols), a, b) == EitherSource(r, a, b)
  {
    OutcomesKeep(r, dxCols, a);
    OutcomesKeep(r, dxCols, b);
  }

  lemma DeriveRowDm(r: Row, dxCols: seq<string>)
    ensures Cell(DeriveRow(r, dxCols), "composite_DM") == Bool(EitherSource(r, "CM_DM", "CMR_DIAB_UNCX"))
  {
    var w := WithOutcomes(r, dxCols);
    assert Cell(WithComorbidities(w), "composite_DM") == Bool(EitherSource(w, "CM_DM", "CMR_DIAB_UNCX"));
    SourcesKept(r, dxCols, "CM_DM", "CMR_DIAB_UNCX");
  }

  lemma DeriveRowDmcx(r: Row, dxCols: seq<string>)
    ensures Cell(DeriveRow(r, dxCols), "composite_DMCX") == Bool(EitherSource(r, "CM_DMCX", "CMR_DIAB_CX"))
  {
    var w := WithOutcomes(r, dxCols);
    assert Cell(WithComorbidities(w), "composite_DMCX") == Bool(EitherSource(w, "CM_DMCX", "CMR_DIAB_CX"));
    SourcesKept(r, dxCols, "CM_DMCX", "CMR_DIAB_CX");
  }

  lemma DeriveRowVasc(r: Row, dxCols: seq<string>)
    ensures Cell(DeriveRow(r, dxCols), "composite_VASC") == Bool(EitherSource(r, "CM_PERIVASC", "CMR_PERIVASC"))
  {
    var w := WithOutcomes(r, dxCols);
    assert Cell(WithComorbidities(w), "composite_VASC") == Bool(EitherSource(w, "CM_PERIVASC", "CMR_PERIVASC"));
    SourcesKept(r, dxCols, "CM_PERIVASC", "CMR_PERIVASC");
  }

  lemma DeriveRowAlcohol(r: Row, dxCols: seq<string>)
    ensures Cell(DeriveRow(r, dxCols), "composite_ALCOHOL") == Bool(EitherSource(r, "CM_ALCOHOL", "CMR_ALCOHOL"))
  {
    var w := WithOutcomes(r, dxCols);
    assert Cell(WithComorbidities(w), "composite_ALCOHOL") == Bool(EitherSource(w, "CM_ALCOHOL", "CMR_ALCOHOL"));
    SourcesKept(r, dxCols, "CM_ALCOHOL", "CMR_ALCOHOL");
  }

  lemma DeriveRowDrug(r: Row, dxCols: seq<string>)
    ensures Cell(DeriveRow(r, dxCols), "composite_DRUG") == Bool(EitherSource(r, "CM_DRUG", "CMR_DRUG_ABUSE"))
  {
    var w := WithOutcomes(r, dxCols);
    assert Cell(WithComorbidities(w), "composite_DRUG") == Bool(EitherSource(w, "CM_DRUG", "CMR_DRUG_ABUSE"));
    SourcesKept(r, dxCols, "CM_DRUG", "CMR_DRUG_ABUSE");
  }

  /** With `DIED` recorded as 0 or 1, the composite outcome is an infection
      code, death, or a return to the operating room; with `DIED` missing it
      is never set. */
  lemma CompositeOutcomeIff(rows: seq<Row>, dxCols: seq<string>, i: nat)
    requires i < |rows|
    ensures |Derive(rows, dxCols)| == |rows|
    ensures NumEq(Cell(rows[i], "DIED"), 0) || NumEq(Cell(rows[i], "DIED"), 1) ==>
              (Cell(Derive(rows, dxCols)[i], OutcomeColumn) == Bool(true) <==>
                 IsInAny(rows[i], dxCols, SsiCodes) || NumEq(Cell(rows[i], "DIED"), 1) || OrReturn(rows[i]))
    ensures Num(Cell(rows[i], "DIED")).None? ==> Cell(Derive(rows, dxCols)[i], OutcomeColumn) == Bool(false)
  {
    DeriveRowOutcome(rows[i], dxCols);
  }

  /** Where neither source holds a negative number, a composite comorbidity
      is set exactly when one of its two sources is positive. */
  lemma EitherSourceIff(r: Row, a: string, b: string)
    requires FillZero(Cell(r, a)) >= 0 && FillZero(Cell(r, b)) >= 0
    ensures EitherSource(r, a, b) <==> FillZero(Cell(r, a)) > 0 || FillZero(Cell(r, b)) > 0
    ensures Cell(r, a) == Null && Cell(r, b) == Null ==> !EitherSource(r, a, b)
  {
  }

  // ---------------------------------------------------------------------
  // The cohort and its groups.

  /** A row that was not transferred out and carries a boolean comorbidity
      flag and a boolean outcome. */
  predicate FlaggedRow(r: Row)
  {
    NotTransferred(r) && Cell(r, ComorbidityColumn).Bool? && Cell(r, OutcomeColumn).Bool?
  }

  predicate Flagged(rows: seq<Row>)
  {
    forall i :: 0 <= i < |rows| ==> FlaggedRow(rows[i])
  }

  /** Deriving a row that was not transferred out flags it. */
  lemma DeriveRowFlagged(r: Row, dxCols: seq<string>)
    requires NotTransferred(r)
    ensures FlaggedRow(DeriveRow(r, dxCols))
  {
    DeriveRowKeeps(r, dxCols, "TRAN_OUT");
    DeriveRowOutcome(r, dxCols);
    DeriveRowDmcx(r, dxCols);
  }

  /** Every prepared row was not transferred out and carries both flags, and
      there is one prepared row per input row that was not transferred. */
  lemma PreparedRows(t: Table)
    ensures Flagged(Prepared(t).rows)
    ensures |Prepared(t).rows| == |Filter(t.rows, NotTransferred)|
  {
    var kept := Filter(t.rows, NotTransferred);
    var dxCols := GetDxCols(t.columns);
    forall i | 0 <= i < |kept| ensures FlaggedRow(DeriveRow(kept[i], dxCols)) {
      DeriveRowFlagged(kept[i], dxCols);
    }
  }

  /** A selection from flagged rows is flagged. */
  lemma SelectionFlagged(rows: seq<Row>, p: Row -> bool)
    requires Flagged(rows)
    ensures Flagged(Filter(rows, p))
  {
    var g := Filter(rows, p);
    FilterMembership(rows, p);
    forall i | 0 <= i < |g| ensures FlaggedRow(g[i]) {
      assert g[i] in rows;
    }
  }

  /** No row is both uninsured and privately insured. */
  lemma PayerGroupsDisjoint(rows: seq<Row>)
    ensures forall x :: x in Filter(rows, PayerIs(SelfPay)) ==> x !in Filter(rows, PayerIs(PrivatePay))
  {
    FilterMembership(rows, PayerIs(SelfPay));
    FilterMembership(rows, PayerIs(PrivatePay));
  }

  /** Splitting flagged rows into comorbidity 1 and comorbidity 0, then
      counting an outcome in each part, counts it in the whole. */
  lemma {:induction false} SplitCounts(rows: seq<Row>, col: string, v: int)
    requires Flagged(rows)
    ensures OutcomeCount(Filter(rows, ComorbidityIs(1)), col, v) + OutcomeCount(Filter(rows, ComorbidityIs(0)), col, v)
            == OutcomeCount(rows, col, v)
    ensures |Filter(rows, ComorbidityIs(1))| + |Filter(rows, ComorbidityIs(0))| == |rows|
  {
    if rows != [] {
      SplitCounts(rows[1..], col, v);
    }
  }

  /** Within each payer group the two diabetes groups make up the group, so
      the overall table is the cell-by-cell sum of the two others. */
  lemma EveryoneIsSum(t: Table)
    requires Exploration(t).Ok?
    ensures var c := Exploration(t).value;
            && c.everyone.exposedYes == c.noDm.exposedYes + c.dm.exposedYes
            && c.everyone.exposedNo == c.noDm.exposedNo + c.dm.exposedNo
            && c.everyone.controlYes == c.noDm.controlYes + c.dm.controlYes
            && c.everyone.controlNo == c.noDm.controlNo + c.dm.controlNo
  {
    var d := Prepared(t).rows;
    PreparedRows(t);
    SelectionFlagged(d, PayerIs(SelfPay));
    SelectionFlagged(d, PayerIs(PrivatePay));
    SplitCounts(Filter(d, PayerIs(SelfPay)), OutcomeColumn, 1);
    SplitCounts(Filter(d, PayerIs(SelfPay)), OutcomeColumn, 0);
    SplitCounts(Filter(d, PayerIs(PrivatePay)), OutcomeColumn, 1);
    SplitCounts(Filter(d, PayerIs(PrivatePay)), OutcomeColumn, 0);
  }

  /** Flagged rows have only 0/1 outcomes, so a table's row adds up to its group's size. */
  lemma FlaggedTotal(rows: seq<Row>)
    requires Flagged(rows)
    ensures OutcomeCount(rows, OutcomeColumn, 1) + OutcomeCount(rows, OutcomeColumn, 0) == |rows|
  {
    GroupTotal(rows, OutcomeColumn);
  }

  /** Each row of the overall table adds up to its payer group's size. */
  lemma EveryoneTotals(t: Table)
    requires Exploration(t).Ok?
    ensures var c := Exploration(t).value.everyone;
            && c.exposedYes + c.exposedNo == |Filter(Prepared(t).rows, PayerIs(SelfPay))|
            && c.controlYes + c.controlNo == |Filter(Prepared(t).rows, PayerIs(PrivatePay))|
  {
    var d := Prepared(t).rows;
    PreparedRows(t);
    SelectionFlagged(d, PayerIs(SelfPay));
    SelectionFlagged(d, PayerIs(PrivatePay));
    FlaggedTotal(Filter(d, PayerIs(SelfPay)));
    FlaggedTotal(Filter(d, PayerIs(PrivatePay)));
  }
}
