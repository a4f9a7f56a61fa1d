/** The study's inclusion criteria: three row rules, found by name in the sorted
    attribute listing of the criteria object and applied one after the other,
    with a before/after count recorded per rule. */
module Inclusion {
  import opened Frames
  import opened PythonDir

  /** The fields a row must have (none may be missing). */
  const RequiredFields: seq<string> :=
    ["AGE", "PAY1", "APRDRG_Severity", "APRDRG_Risk_Mortality", "HOSP_LOCTEACH", "HOSP_REGION", "DIED", "LOS"]

  /** The two income fields; one of them is enough. */
  const IncomeFields: seq<string> := ["ZIPINC", "ZIPINC_QRTL"]

  const TransferField := "TRAN_OUT"

  predicate HasRequiredFields(r: Row)
    ensures HasRequiredFields(r) ==> "AGE" in r && "DIED" in r && "LOS" in r
  {
    assert RequiredFields[0] == "AGE" && RequiredFields[6] == "DIED" && RequiredFields[7] == "LOS";
    forall j :: 0 <= j < |RequiredFields| ==> Cell(r, RequiredFields[j]) != Null
  }

  predicate HasIncome(r: Row)
    ensures HasIncome(r) <==> (Cell(r, "ZIPINC") != Null || Cell(r, "ZIPINC_QRTL") != Null)
  {
    assert IncomeFields[0] == "ZIPINC" && IncomeFields[1] == "ZIPINC_QRTL";
    exists j :: 0 <= j < |IncomeFields| && Cell(r, IncomeFields[j]) != Null
  }

  /** `TRAN_OUT == 0`; a missing entry is not equal to 0. */
  predicate NotTransferred(r: Row)
    ensures NotTransferred(r) ==> TransferField in r && (r[TransferField] == Int(0) || r[TransferField] == Bool(false))
  {
    NumEq(Cell(r, TransferField), 0)
  }

  /** What a row must satisfy to stay in the cohort. */
  predicate Admissible(r: Row)
  {
    HasRequiredFields(r) && HasIncome(r) && NotTransferred(r)
  }

  // ---------------------------------------------------------------------
  // The three rules.

  /** `_ic_dropna`: drop rows missing any required field, then rows missing both
      income fields. `dropna` on labels the table lacks raises a `KeyError`
      listing them. */
  function IcDropna(t: Table): (r: Result<Table>)
    ensures r.Err? <==> Missing(t, RequiredFields + IncomeFields) != []
    ensures r.Err? ==> r.error.KeyError? && r.error.keys != [] &&
                       forall j :: 0 <= j < |r.error.keys| ==> r.error.keys[j] !in t.columns
    ensures r.Ok? ==> r.value.columns == t.columns
    ensures r.Ok? ==> Selects(r.value.rows, t.rows, (row: Row) => HasRequiredFields(row) && HasIncome(row))
  {
    var missingRequired := Missing(t, RequiredFields);
    var missingIncome := Missing(t, IncomeFields);
    var both := (row: Row) => HasRequiredFields(row) && HasIncome(row);
    if missingRequired != [] then
      assert missingRequired[0] in missingRequired;
      Err(KeyError(missingRequired))
    else if missingIncome != [] then
      assert missingIncome[0] in missingIncome;
      assert missingIncome[0] in Missing(t, RequiredFields + IncomeFields);
      Err(KeyError(missingIncome))
    else
      var kept := Where(Where(t, HasRequiredFields), HasIncome);
      FilterFilter(t.rows, HasRequiredFields, HasIncome, both);
      FilterSelects(t.rows, both);
      Ok(kept)
  }

  /** `_ic_age`: the age bounds are switched off, so every row passes. */
  function IcAge(t: Table): (r: Result<Table>)
    ensures r.Ok? && r.value.columns == t.columns
    ensures Selects(r.value.rows, t.rows, (row: Row) => true)
  {
    FilterKeepsAll(t.rows, (row: Row) => true);
    FilterSelects(t.rows, (row: Row) => true);
    Ok(t)
  }

  /** `_ic_tranout`: keep the rows not transferred out; a table without the
      column raises a `KeyError`. */
  function IcTranout(t: Table): (r: Result<Table>)
    ensures r.Err? <==> TransferField !in t.columns
    ensures r.Err? ==> r.error == KeyError([TransferField])
    ensures r.Ok? ==> r.value.columns == t.columns
    ensures r.Ok? ==> Selects(r.value.rows, t.rows, NotTransferred)
  {
    if TransferField !in t.columns then Err(KeyError([TransferField]))
    else
      FilterSelects(t.rows, NotTransferred);
      Ok(Where(t, NotTransferred))
  }

  /** A row of the input survives `_ic_dropna` exactly when none of the eight
      required fields is missing and not both income fields are. */
  lemma DropnaKeepsIff(t: Table, row: Row)
    requires IcDropna(t).Ok? && row in t.rows
    ensures row in IcDropna(t).value.rows <==>
              (forall c :: c in RequiredFields ==> Cell(row, c) != Null) &&
              !(Cell(row, "ZIPINC") == Null && Cell(row, "ZIPINC_QRTL") == Null)
  {
    var both := (r: Row) => HasRequiredFields(r) && HasIncome(r);
    assert multiset(IcDropna(t).value.rows)[row] == if both(row) then multiset(t.rows)[row] else 0;
    if forall c :: c in RequiredFields ==> Cell(row, c) != Null {
      assert HasRequiredFields(row) by {
        forall j | 0 <= j < |RequiredFields| ensures Cell(row, RequiredFields[j]) != Null {
          assert RequiredFields[j] in RequiredFields;
        }
      }
    }
    if HasRequiredFields(row) {
      forall c | c in RequiredFields ensures Cell(row, c) != Null {
        var j :| 0 <= j < |RequiredFields| && RequiredFields[j] == c;
      }
    }
    if Cell(row, "ZIPINC") != Null {
      assert Cell(row, IncomeFields[0]) != Null;
    }
    if Cell(row, "ZIPINC_QRTL") != Null {
      assert Cell(row, IncomeFields[1]) != Null;
    }
  }

  /** A row of the input survives `_ic_tranout` exactly when its `TRAN_OUT` is
      the number 0; a missing `TRAN_OUT` drops the row. */
  lemma TranoutKeepsIff(t: Table, row: Row)
    requires IcTranout(t).Ok? && row in t.rows
    ensures row in IcTranout(t).value.rows <==> Num(Cell(row, TransferField)) == Some(0)
    ensures Cell(row, TransferField) == Null ==> row !in IcTranout(t).value.rows
  {
    assert multiset(IcTranout(t).value.rows)[row] == if NotTransferred(row) then multiset(t.rows)[row] else 0;
  }

  datatype Rule = Age | Dropna | Tranout
  {
    /** The name of the static method implementing the rule. */
    function Name(): string
    {
      match this
      case Age => "_ic_age"
      case Dropna => "_ic_dropna"
      case Tranout => "_ic_tranout"
    }

    /** The columns the rule looks up. */
    function Needs(): seq<string>
    {
      match this
      case Age => []
      case Dropna => RequiredFields + IncomeFields
      case Tranout => [TransferField]
    }

    /** The rows the rule keeps. */
    function Keeps(): Row -> bool
    {
      match this
      case Age => (row: Row) => true
      case Dropna => (row: Row) => HasRequiredFields(row) && HasIncome(row)
      case Tranout => NotTransferred
    }
  }

  function ApplyRule(rule: Rule, t: Table): (r: Result<Table>)
    ensures r.Ok? <==> Missing(t, rule.Needs()) == []
    ensures r.Ok? ==> r.value == Where(t, rule.Keeps())
  {
    match rule
    case Age =>
      FilterKeepsAll(t.rows, rule.Keeps());
      IcAge(t)
    case Dropna =>
      var r := IcDropna(t);
      if r.Ok? then
        FilterFilter(t.rows, HasRequiredFields, HasIncome, rule.Keeps());
        r
      else r
    case Tranout =>
      assert TransferField in [TransferField];
      IcTranout(t)
  }

  /** The rules run in order; the first error ends the run. */
  function RunRules(rules: seq<Rule>, t: Table): (r: Result<Table>)
    ensures r.Ok? ==> r.value.columns == t.columns
  {
    if rules == [] then Ok(t)
    else
      match ApplyRule(rules[0], t)
      case Err(e) => Err(e)
      case Ok(u) => RunRules(rules[1..], u)
  }

  /** A row that every rule of the list keeps. */
  function KeptByAll(rules: seq<Rule>): Row -> bool
  {
    (row: Row) => forall k :: 0 <= k < |rules| ==> rules[k].Keeps()(row)
  }

  /** Every rule finds its columns in the table. */
  predicate ColumnsPresent(rules: seq<Rule>, t: Table)
  {
    forall k :: 0 <= k < |rules| ==> Missing(t, rules[k].Needs()) == []
  }

  lemma KeptByAllCons(rules: seq<Rule>, row: Row)
    requires rules != []
    ensures KeptByAll(rules)(row) == (rules[0].Keeps()(row) && KeptByAll(rules[1..])(row))
  {
    var tail := rules[1..];
    if rules[0].Keeps()(row) && KeptByAll(tail)(row) {
      forall k | 0 <= k < |rules| ensures rules[k].Keeps()(row) {
        if k > 0 {
          assert tail[k - 1] == rules[k];
        }
      }
    }
    if KeptByAll(rules)(row) {
      forall k | 0 <= k < |tail| ensures tail[k].Keeps()(row) {
        assert tail[k] == rules[k + 1];
      }
    }
  }

  /** When every column the rules look up is present, running them keeps
      exactly the rows all of them keep, in order, and the labels stay. */
  lemma {:induction false} RunRulesSelects(rules: seq<Rule>, t: Table)
    requires ColumnsPresent(rules, t)
    ensures RunRules(rules, t) == Ok(Where(t, KeptByAll(rules)))
  {
    if rules == [] {
      FilterKeepsAll(t.rows, KeptByAll(rules));
    } else {
      var u := Where(t, rules[0].Keeps());
      assert ApplyRule(rules[0], t) == Ok(u);
      assert ColumnsPresent(rules[1..], u) by {
        forall k | 0 <= k < |rules[1..]| ensures Missing(u, rules[1..][k].Needs()) == [] {
          assert rules[1..][k] == rules[k + 1];
        }
      }
      RunRulesSelects(rules[1..], u);
      assert forall row :: KeptByAll(rules)(row) == (rules[0].Keeps()(row) && KeptByAll(rules[1..])(row)) by {
        forall row ensures KeptByAll(rules)(row) == (rules[0].Keeps()(row) && KeptByAll(rules[1..])(row)) {
          KeptByAllCons(rules, row);
        }
      }
      FilterFilter(t.rows, rules[0].Keeps(), KeptByAll(rules[1..]), KeptByAll(rules));
    }
  }

  /** The rules filter rows and never change labels, so the order they run in
      does not matter: any arrangement of the same rules keeps the same rows. */
  lemma RulesCommute(rules: seq<Rule>, other: seq<Rule>, t: Table)
    requires ColumnsPresent(rules, t)
    requires multiset(other) == multiset(rules)
    ensures RunRules(other, t) == RunRules(rules, t)
  {
    assert ColumnsPresent(other, t) by {
      forall k | 0 <= k < |other| ensures Missing(t, other[k].Needs()) == [] {
        assert other[k] in multiset(rules);
        var i :| 0 <= i < |rules| && rules[i] == other[k];
      }
    }
    RunRulesSelects(rules, t);
    RunRulesSelects(other, t);
    forall row ensures KeptByAll(other)(row) == KeptByAll(rules)(row) {
      if KeptByAll(rules)(row) {
        forall k | 0 <= k < |other| ensures other[k].Keeps()(row) {
          assert other[k] in multiset(rules);
          var i :| 0 <= i < |rules| && rules[i] == other[k];
        }
      }
      if KeptByAll(other)(row) {
        forall k | 0 <= k < |rules| ensures rules[k].Keeps()(row) {
          assert rules[k] in multiset(other);
          var i :| 0 <= i < |other| && other[i] == rules[k];
        }
      }
    }
    FilterCongruent(t.rows, KeptByAll(other), KeptByAll(rules));
  }

  /** Running a rule list twice keeps nothing more than running it once. */
  lemma RunRulesIdempotent(rules: seq<Rule>, t: Table)
    requires ColumnsPresent(rules, t)
    ensures RunRules(rules, t).Ok?
    ensures RunRules(rules, RunRules(rules, t).value) == RunRules(rules, t)
  {
    RunRulesSelects(rules, t);
    var u := Where(t, KeptByAll(rules));
    assert forall k :: 0 <= k < |rules| ==> Missing(u, rules[k].Needs()) == Missing(t, rules[k].Needs());
    RunRulesSelects(rules, u);
    FilterIdempotent(t.rows, KeptByAll(rules));
  }

  // ---------------------------------------------------------------------
  // Which methods run, and in what order.

  /** The attributes the criteria class declares, in declaration order, with the
      instance attribute `base_df`; what it inherits from `object` are double
      underscore names. */
  const ClassAttributes: seq<string> :=
    ["__init__", "_ic_dropna", "_ic_age", "_ic_tranout", "apply_ic", "base_df"]

  function IsIcName(): string -> bool
  {
    (name: string) => StartsWith(name, "_ic")
  }

  /** `[m for m in dir(self) if m.startswith("_ic")]` */
  function IcMethods(attributes: seq<string>): seq<string>
  {
    Filter(Dir(attributes), IsIcName())
  }

  /** The rule each `_ic` method name refers to. */
  function RuleNamed(name: string): Option<Rule>
  {
    if name == Age.Name() then Some(Age)
    else if name == Dropna.Name() then Some(Dropna)
    else if name == Tranout.Name() then Some(Tranout)
    else None
  }

  const IcRules: seq<Rule> := [Age, Dropna, Tranout]

  /** The rules a list of method names refers to, in list order. */
  function RulesOf(names: seq<string>): (rules: seq<Rule>)
    requires forall k :: 0 <= k < |names| ==> RuleNamed(names[k]).Some?
    ensures |rules| == |names|
    ensures forall k :: 0 <= k < |names| ==> rules[k] == RuleNamed(names[k]).value && names[k] == rules[k].Name()
  {
    seq(|names|, k requires 0 <= k < |names| => RuleNamed(names[k]).value)
  }

  lemma RuleNamedInverse(rule: Rule)
    ensures RuleNamed(rule.Name()) == Some(rule)
  {
    match rule
    case Age =>
    case Dropna =>
      assert Dropna.Name()[4] != Age.Name()[4];
    case Tranout =>
      assert Tranout.Name()[4] != Age.Name()[4];
      assert Tranout.Name()[4] != Dropna.Name()[4];
  }

  lemma {:induction false} FilterAscending(s: seq<string>, p: string -> bool)
    requires Ascending(s)
    ensures Ascending(Filter(s, p))
  {
    if s != [] {
      assert Ascending(s[1..]);
      FilterAscending(s[1..], p);
      if p(s[0]) {
        FilterMembership(s[1..], p);
        var t := Filter(s[1..], p);
        forall j | 0 <= j < |t| ensures !Below(t[j], s[0]) {
          assert t[j] in s[1..];
          var i :| 0 <= i < |s[1..]| && s[1..][i] == t[j];
          assert s[i + 1] == t[j];
        }
        AscendingCons(s[0], t);
      }
    }
  }

  /** Selecting from a sorted listing gives the sorted selection. */
  lemma SortedSelection(attributes: seq<string>, p: string -> bool, target: seq<string>)
    requires Ascending(target)
    requires multiset(Filter(attributes, p)) == multiset(target)
    ensures Filter(Dir(attributes), p) == target
  {
    FilterAscending(Dir(attributes), p);
    forall x ensures multiset(Filter(Dir(attributes), p))[x] == multiset(target)[x] {
      FilterMultiplicity(Dir(attributes), p, x);
      FilterMultiplicity(attributes, p, x);
    }
    assert multiset(Filter(Dir(attributes), p)) == multiset(target);
    AscendingUnique(Filter(Dir(attributes), p), target);
  }

  lemma IcNamesAscending()
    ensures Ascending([Age.Name(), Dropna.Name(), Tranout.Name()])
  {
    BelowAt(Age.Name(), Dropna.Name(), 4);
    BelowAt(Dropna.Name(), Tranout.Name(), 4);
    BelowTransitive(Age.Name(), Dropna.Name(), Tranout.Name());
    BelowAsymmetric(Age.Name(), Dropna.Name());
    BelowAsymmetric(Dropna.Name(), Tranout.Name());
    BelowAsymmetric(Age.Name(), Tranout.Name());
  }

  /** The `_ic` names among the class's attributes, in declaration order. */
  lemma IcAttributesDeclared()
    ensures Filter(ClassAttributes, IsIcName()) == [Dropna.Name(), Age.Name(), Tranout.Name()]
  {
    var p := IsIcName();
    var s := ClassAttributes;
    assert !p(s[0]) by { assert s[0][1] != "_ic"[1]; }
    assert p(s[1]) && p(s[2]) && p(s[3]);
    assert !p(s[4]) by { assert s[4][0] != "_ic"[0]; }
    assert !p(s[5]) by { assert s[5][0] != "_ic"[0]; }
    assert s[1..][1..][1..][1..][1..] == [s[5]];
    assert s[1..][1..][1..][1..] == [s[4], s[5]];
    assert s[1..][1..][1..] == [s[3], s[4], s[5]];
    assert s[1..][1..] == [s[2], s[3], s[4], s[5]];
  }

  /** `apply_ic` runs `_ic_age`, then `_ic_dropna`, then `_ic_tranout`, although
      they are declared in another order: `dir()` sorts the names. */
  lemma IcMethodsOrder()
    ensures IcMethods(ClassAttributes) == [Age.Name(), Dropna.Name(), Tranout.Name()]
  {
    IcAttributesDeclared();
    IcSelectionSorted(ClassAttributes);
  }

  /** Any attribute listing whose `_ic` names are those three, in whatever order. */
  lemma IcSelectionSorted(attributes: seq<string>)
    requires Filter(attributes, IsIcName()) == [Dropna.Name(), Age.Name(), Tranout.Name()]
    ensures IcMethods(attributes) == [Age.Name(), Dropna.Name(), Tranout.Name()]
  {
    IcNamesAscending();
    SwapFirstTwo(Dropna.Name(), Age.Name(), Tranout.Name());
    SortedSelection(attributes, IsIcName(), [Age.Name(), Dropna.Name(), Tranout.Name()]);
  }

  lemma SwapFirstTwo<T>(x: T, y: T, z: T)
    ensures multiset([x, y, z]) == multiset([y, x, z])
  {
  }

  /** Each listed method name is the name of the rule run at that step. */
  lemma IcMethodsNameRules(names: seq<string>)
    requires names == [Age.Name(), Dropna.Name(), Tranout.Name()]
    ensures forall k :: 0 <= k < |names| ==> RuleNamed(names[k]).Some?
    ensures RulesOf(names) == IcRules
  {
    RuleNamedInverse(Age);
    RuleNamedInverse(Dropna);
    RuleNamedInverse(Tranout);
  }

  /** `_ic_age` keeps every row, so the run is decided by the other two rules. */
  lemma AgeFirst(t: Table)
    ensures RunRules(IcRules, t) == RunRules([Dropna, Tranout], t)
  {
    assert IcRules[1..] == [Dropna, Tranout];
    assert ApplyRule(Age, t) == Ok(t);
  }

  /** Two rules in a row: the second runs on what the first returns. */
  lemma RunPair(a: Rule, b: Rule, t: Table)
    ensures ApplyRule(a, t).Err? ==> RunRules([a, b], t) == ApplyRule(a, t)
    ensures ApplyRule(a, t).Ok? ==> RunRules([a, b], t) == ApplyRule(b, ApplyRule(a, t).value)
  {
    assert [a, b][1..] == [b] && [b][1..] == [];
    if ApplyRule(a, t).Ok? {
      var u := ApplyRule(a, t).value;
      assert RunRules([a, b], t) == RunRules([b], u);
      if ApplyRule(b, u).Ok? {
        assert RunRules([b], u) == RunRules([], ApplyRule(b, u).value);
      }
    }
  }

  /** A run stops at `_ic_dropna` when its columns are missing; otherwise
      `_ic_tranout` runs on the rows it keeps. */
  lemma DropnaThenTranout(t: Table)
    ensures Missing(t, RequiredFields + IncomeFields) != [] ==>
              RunRules([Dropna, Tranout], t) == IcDropna(t) && IcDropna(t).Err?
    ensures Missing(t, RequiredFields + IncomeFields) == [] ==>
              RunRules([Dropna, Tranout], t) == ApplyRule(Tranout, Where(t, Dropna.Keeps()))
  {
    RunPair(Dropna, Tranout, t);
    assert ApplyRule(Dropna, t) == IcDropna(t);
  }

  /** With all columns present, the run keeps exactly the admissible rows. */
  lemma AllColumnsAdmissible(t: Table)
    requires Missing(t, RequiredFields + IncomeFields) == [] && TransferField in t.columns
    ensures RunRules(IcRules, t) == Ok(Where(t, Admissible))
  {
    AgeFirst(t);
    DropnaThenTranout(t);
    var u := Where(t, Dropna.Keeps());
    assert Missing(u, Tranout.Needs()) == [] by {
      assert TransferField in [TransferField];
    }
    assert ApplyRule(Tranout, u) == Ok(Where(u, NotTransferred));
    FilterFilter(t.rows, Dropna.Keeps(), NotTransferred, Admissible);
  }

  /** The whole run: errors come from the first rule whose columns are missing,
      in run order; otherwise exactly the admissible rows remain. */
  lemma IcRulesOutcome(t: Table)
    ensures Missing(t, RequiredFields + IncomeFields) != [] ==>
              RunRules(IcRules, t) == IcDropna(t) && RunRules(IcRules, t).Err?
    ensures Missing(t, RequiredFields + IncomeFields) == [] && TransferField !in t.columns ==>
              RunRules(IcRules, t) == Err(KeyError([TransferField]))
    ensures Missing(t, RequiredFields + IncomeFields) == [] && TransferField in t.columns ==>
              RunRules(IcRules, t) == Ok(Where(t, Admissible))
  {
    AgeFirst(t);
    DropnaThenTranout(t);
    if Missing(t, RequiredFields + IncomeFields) == [] && TransferField in t.columns {
      AllColumnsAdmissible(t);
    }
  }

  // ---------------------------------------------------------------------
  // The criteria object and its audit log.

  /** One log line: the rule's name and the row counts before and after it. */
  datatype LogEntry = LogEntry(name: string, before: nat, after: nat)

  /** The sum of the logged diffs. */
  function TotalDiff(log: seq<LogEntry>): int
  {
    if log == [] then 0 else (log[0].before - log[0].after) + TotalDiff(log[1..])
  }

  /** The lines `apply_ic` logs when it runs `rules` on `t`: one per rule that
      returns, none for a rule that raises or any after it. */
  function RunLog(rules: seq<Rule>, t: Table): (log: seq<LogEntry>)
    ensures |log| <= |rules|
  {
    if rules == [] then []
    else
      match ApplyRule(rules[0], t)
      case Err(_) => []
      case Ok(u) => [LogEntry(rules[0].Name(), |t.rows|, |u.rows|)] + RunLog(rules[1..], u)
  }

  /** The log has a line for every rule exactly when the run succeeds, and each
      line is for the rule run at that step. */
  lemma {:induction false} RunLogNames(rules: seq<Rule>, t: Table)
    ensures |RunLog(rules, t)| <= |rules|
    ensures |RunLog(rules, t)| == |rules| <==> RunRules(rules, t).Ok?
    ensures forall k :: 0 <= k < |RunLog(rules, t)| ==> RunLog(rules, t)[k].name == rules[k].Name()
  {
    if rules != [] {
      match ApplyRule(rules[0], t)
      case Err(_) =>
      case Ok(u) =>
        RunLogNames(rules[1..], u);
        var log := RunLog(rules, t);
        forall k | 0 < k < |log| ensures log[k].name == rules[k].Name() {
          assert log[k] == RunLog(rules[1..], u)[k - 1];
          assert rules[1..][k - 1] == rules[k];
        }
    }
  }

  /** The counts chain: the first line starts from the input's size, each line
      starts where the previous one ended, and no step adds rows. */
  lemma {:induction false} RunLogCounts(rules: seq<Rule>, t: Table)
    ensures var log := RunLog(rules, t);
            && (log != [] ==> log[0].before == |t.rows|)
            && (forall k :: 0 < k < |log| ==> log[k].before == log[k - 1].after)
            && (forall k :: 0 <= k < |log| ==> log[k].after <= log[k].before)
  {
    if rules != [] {
      match ApplyRule(rules[0], t)
      case Err(_) =>
      case Ok(u) =>
        RunLogCounts(rules[1..], u);
        var log := RunLog(rules, t);
        var rest := RunLog(rules[1..], u);
        assert log == [log[0]] + rest;
        forall k | 0 < k < |log| ensures log[k].before == log[k - 1].after {
          if k > 1 {
            assert log[k] == rest[k - 1] && log[k - 1] == rest[k - 2];
          }
        }
    }
  }

  /** On success the logged diffs add up to the rows removed in all. */
  lemma {:induction false} RunLogTotal(rules: seq<Rule>, t: Table)
    requires RunRules(rules, t).Ok?
    ensures TotalDiff(RunLog(rules, t)) == |t.rows| - |RunRules(rules, t).value.rows|
  {
    if rules != [] {
      var u := ApplyRule(rules[0], t).value;
      RunLogTotal(rules[1..], u);
      assert RunLog(rules, t)[1..] == RunLog(rules[1..], u);
    }
  }

  /** One step of a run: the first rule either raises, which ends the run with
      nothing logged, or returns a table the rest of the run starts from. */
  lemma RunStep(rules: seq<Rule>, t: Table)
    requires rules != []
    ensures ApplyRule(rules[0], t).Err? ==>
              RunRules(rules, t) == ApplyRule(rules[0], t) && RunLog(rules, t) == []
    ensures ApplyRule(rules[0], t).Ok? ==>
              var u := ApplyRule(rules[0], t).value;
              && RunRules(rules, t) == RunRules(rules[1..], u)
              && RunLog(rules, t) == [LogEntry(rules[0].Name(), |t.rows|, |u.rows|)] + RunLog(rules[1..], u)
  {
  }

  /** The loop's step: with the run so far summed up by `log` and the frame
      `df`, rule `i` either raises, which decides the whole run, or extends
      the log by one entry and hands on its table. */
  lemma RunFrom(rules: seq<Rule>, i: nat, baseDf: Table, df: Table, log: seq<LogEntry>)
    requires i < |rules|
    requires RunRules(rules, baseDf) == RunRules(rules[i..], df)
    requires RunLog(rules, baseDf) == log + RunLog(rules[i..], df)
    ensures ApplyRule(rules[i], df).Err? ==>
              RunRules(rules, baseDf) == ApplyRule(rules[i], df) && RunLog(rules, baseDf) == log
    ensures ApplyRule(rules[i], df).Ok? ==>
              var u := ApplyRule(rules[i], df).value;
              && RunRules(rules, baseDf) == RunRules(rules[i + 1..], u)
              && RunLog(rules, baseDf) == (log + [LogEntry(rules[i].Name(), |df.rows|, |u.rows|)]) + RunLog(rules[i + 1..], u)
  {
    assert rules[i..][0] == rules[i] && rules[i..][1..] == rules[i + 1..];
    RunStep(rules[i..], df);
    if ApplyRule(rules[i], df).Err? {
      assert log + [] == log;
    } else {
      var u := ApplyRule(rules[i], df).value;
      var e := [LogEntry(rules[i].Name(), |df.rows|, |u.rows|)];
      var rest := RunLog(rules[i + 1..], u);
      assert RunRules(rules[i..], df) == RunRules(rules[i + 1..], u);
      assert RunLog(rules[i..], df) == e + rest;
      AppendAssociative(log, e, rest);
      assert RunLog(rules, baseDf) == (log + e) + rest;
    }
  }

  class InclusionCriteria {
    const baseDf: Table

    constructor (baseDf: Table)
      ensures this.baseDf == baseDf
    {
      this.baseDf := baseDf;
    }

    /** `[m for m in dir(self) if m.startswith("_ic")]`: every listed name
        refers to a rule, and in listing order they are the criteria rules. */
    static method IcMethodNames() returns (names: seq<string>)
      ensures forall k :: 0 <= k < |names| ==> RuleNamed(names[k]).Some?
      ensures RulesOf(names) == IcRules
    {
      names := IcMethods(ClassAttributes);
      IcMethodsOrder();
      IcMethodsNameRules(names);
    }

    /** `apply_ic`: runs the `_ic` methods in `dir()` order, logging each step's
        counts; a rule that raises ends the run with nothing logged for it. */
    method ApplyIc() returns (r: Result<Table>, log: seq<LogEntry>)
      ensures r == RunRules(IcRules, baseDf)
      ensures log == RunLog(IcRules, baseDf)
    {
      var names := IcMethodNames();
      r, log := RunIcMethods(names, baseDf);
    }

    /** The loop of `apply_ic`: each named method in turn on the frame the
        previous one returned. */
    static method RunIcMethods(names: seq<string>, baseDf: Table) returns (r: Result<Table>, log: seq<LogEntry>)
      requires forall k :: 0 <= k < |names| ==> RuleNamed(names[k]).Some?
      ensures r == RunRules(RulesOf(names), baseDf)
      ensures log == RunLog(RulesOf(names), baseDf)
    {
      ghost var rules := RulesOf(names);
      var df := baseDf;
      log := [];
      var i := 0;
      while i < |names|
        invariant 0 <= i <= |names| == |rules|
        invariant RunRules(rules, baseDf) == RunRules(rules[i..], df)
        invariant RunLog(rules, baseDf) == log + RunLog(rules[i..], df)
      {
        var rule := RuleNamed(names[i]).value;
        var next := ApplyRule(rule, df);
        RunFrom(rules, i, baseDf, df, log);
        if next.Err? {
          return next, log;
        }
        log := log + [LogEntry(names[i], |df.rows|, |next.value.rows|)];
        df := next.value;
        i := i + 1;
      }
      assert rules[i..] == [];
      assert log + [] == log;
      r := Ok(df);
    }

    /** What the log of a run says, and that the final size is the initial
        size less the logged diffs. */
    lemma ApplyIcLog(r: Result<Table>, log: seq<LogEntry>)
      requires r == RunRules(IcRules, baseDf) && log == RunLog(IcRules, baseDf)
      ensures |log| <= |IcRules|
      ensures r.Ok? <==> |log| == |IcRules|
      ensures forall k :: 0 <= k < |log| ==> log[k].name == IcRules[k].Name() && log[k].after <= log[k].before
      ensures log != [] ==> log[0].before == |baseDf.rows|
      ensures forall k :: 0 < k < |log| ==> log[k].before == log[k - 1].after
      ensures r.Ok? ==> |r.value.rows| == |baseDf.rows| - TotalDiff(log)
    {
      RunLogNames(IcRules, baseDf);
      RunLogCounts(IcRules, baseDf);
      if r.Ok? {
        RunLogTotal(IcRules, baseDf);
      }
    }
  }
}
