# Cohort selection of the NIS appendicitis / insurance study

This project models, in Dafny, the cohort-selection core of the NIS-ICD-Dispar
pipeline. The pipeline works on discharge records of the National Inpatient
Sample, and the core does six things:

- It classifies column names into diagnosis and procedure columns of the two
  coding eras (ICD-9 `DX1`…`DX99`, `PR…`, and ICD-10 `I10_DX…`, `I10_PR…`).
- The first-pass filter keeps the records with a code of interest. It works
  over many yearly batches and concatenates the survivors.
- It applies the study's inclusion criteria, in the order `dir()` lists them,
  with a before/after count for every step.
- It flags diabetes by diagnosis-code prefix and adds that flag as a column.
- It counts a 2×2 cross tabulation of an outcome against exposure.
- The exploration script drops transfers and derives outcome and comorbidity
  flags. It then splits the cohort by payer and complicated diabetes, and
  tabulates the composite outcome for each split.

A record is a `Row`, a map from column label to `Value`
(`Null | Str | Int | Bool`). A label the map lacks reads as `Null`, which is
how pandas fills columns a batch does not have. A data frame is a `Table`: its
labels and its rows in order. Every pandas selection `df[mask]` is
`Filter(rows, p)`: the order-preserving subsequence of the rows that satisfy
`p`, with the rows unchanged. Looking up a missing label raises `KeyError`
(`Err(KeyError(labels))`). `pd.concat([])` raises "No objects to
concatenate" (`Err(NoObjectsToConcatenate)`).

The form of each module follows the source:

- `DataProcessing` (column classifier and code catalogs) is pure functions
  and lemmas.
- In `FirstPassFilter`, `ParallelFilter` is a class that holds the
  configuration its constructor sets. The two pure selection stages are
  functions, and the multi-batch run is a method.
- In `Inclusion`, the three rules are functions. `InclusionCriteria.ApplyIc`
  is a method whose loop looks up each `_ic` method by name and records the
  log. It is proved equal to the functional run `RunRules` / `RunLog`.
- In `Process`, `GetDm` is the loop with an early return. `AddHasDm` adds the
  column to a `Frames.Frame` in place.
- In `Reporting`, `MakeCrosstab` fills a freshly zeroed `array2`.
- In `Exploration`, `Exploration1` is a method that reassigns the frame and
  then adds nine columns to it one after another (`Frame.Assign`). It is
  proved equal to the functional `Exploration`, about which the script's
  promises are lemmas.

Some semantics the model follows from the code:

- **The `$` anchor.** `re.search("^DX[0-9]{1,2}$", name)` also matches a
  name with one final newline, because Python's `$` matches just before it.
  The model keeps that (`FinalNewlineNames`).
- **Input order.** `executor.map` returns its results in input order, not
  completion order. So the batches are concatenated in the order they were
  given.
- **The rule order.** `dir()` sorts attribute names, so the rules run as
  `_ic_age`, `_ic_dropna`, `_ic_tranout`. They are declared in another
  order. `PythonDir` defines Python's string order and the sort, and proves
  that the sorted arrangement is unique.
- **How the stages combine.** The diagnosis stage runs first and the
  procedure stage on its survivors. A record therefore survives only when
  both stages keep it.
- **Numeric comparisons.** pandas compares numerically, so `True == 1` and
  `2.0 == 2`. A missing value equals nothing and is not greater than
  anything. `fillna(0)` turns a missing value into 0.

## Model

| member | source | states |
|---|---|---|
| DataProcessing.CatalogSizes | src/nisicd/dataProcessing/__init__.py:3-23 | the surgical-site-infection catalog is exactly "99859", "T8149XA", "T8141XA"; there are 8 diabetes prefixes and 15 appendicitis codes |
| DataProcessing.BeforeFinalNewline | src/nisicd/dataProcessing/__init__.py:34-35 | the part of a name where `$` can match: the whole name, or the name less its one final newline, which is removed exactly when the name ends in a newline |
| DataProcessing.MatchesNumbered | src/nisicd/dataProcessing/__init__.py:27-35 | a matching name begins with the prefix and is one to three characters longer than it |
| DataProcessing.Classify | src/nisicd/dataProcessing/__init__.py:26-37 | every returned name matches the older or the newer era's pattern |
| DataProcessing.GetDxCols | src/nisicd/dataProcessing/__init__.py:33-37 | every returned name is a diagnosis column name (`DX` or `I10_DX` followed by one or two digits) |
| DataProcessing.GetProcCols | src/nisicd/dataProcessing/__init__.py:26-30 | every returned name is a procedure column name (`PR` or `I10_PR` followed by one or two digits) |
| DataProcessing.MatchesNumberedIff | src/nisicd/dataProcessing/__init__.py:27-35 | for every name, the pattern matches exactly when the name is the prefix, then one or two ASCII digits, then at most one newline |
| DataProcessing.DxNamesClassified | src/nisicd/dataProcessing/__init__.py:34-35 | `DX1`, `DX40`, `I10_DX1` and `I10_DX40` are diagnosis columns |
| DataProcessing.NonDxNamesRejected | src/nisicd/dataProcessing/__init__.py:34-35 | `DX`, `DX123`, `XDX1` and `I10_DX` are not diagnosis columns |
| DataProcessing.FinalNewlineNames | src/nisicd/dataProcessing/__init__.py:34-35 | `$` tolerates one final newline (`"DX1\n"` matches) but not two |
| DataProcessing.ProcNamesClassified | src/nisicd/dataProcessing/__init__.py:27-28 | `PR1` and `I10_PR15` are procedure columns; `NPR` and `I10_NPR`, the procedure counts, are not |
| DataProcessing.FirstPositionsAreDx | src/nisicd/dataProcessing/firstPassFilter.py:59 | the two primary diagnosis positions are diagnosis columns |
| DataProcessing.FirstPositionsAreProc | src/nisicd/dataProcessing/firstPassFilter.py:70 | the two primary procedure positions are procedure columns |
| DataProcessing.PrefixAt | src/nisicd/dataProcessing/__init__.py:27-35 | a matching name agrees with the prefix at every position of the prefix |
| DataProcessing.ClashingPatternsDisjoint | src/nisicd/dataProcessing/__init__.py:27-35 | two prefixes that differ at some position within both never match the same name |
| DataProcessing.PrefixesClash | src/nisicd/dataProcessing/__init__.py:27-35 | helper: each two of the four prefixes `DX`, `I10_DX`, `PR`, `I10_PR` clash |
| DataProcessing.DxProcDisjoint | src/nisicd/dataProcessing/__init__.py:26-37 | no name is both a diagnosis and a procedure column |
| DataProcessing.DxProcColsDisjoint | src/nisicd/dataProcessing/__init__.py:26-37 | `get_dx_cols` and `get_proc_cols` never return a common name, whatever their inputs |
| DataProcessing.ClassifyOrder | src/nisicd/dataProcessing/__init__.py:26-37 | the result splits at some point: before it only older-era names, after it only newer-era names, and each part is an ordered subsequence of the input |
| DataProcessing.GetDxColsOrder | src/nisicd/dataProcessing/__init__.py:34-37 | all `DX*` names come before all `I10_DX*` names, each group in input order |
| DataProcessing.GetProcColsOrder | src/nisicd/dataProcessing/__init__.py:27-30 | all `PR*` names come before all `I10_PR*` names, each group in input order |
| DataProcessing.ClassifyMultiplicity | src/nisicd/dataProcessing/__init__.py:26-37 | each name occurs in the result as often as in the input if it matches either era, and not at all otherwise |
| DataProcessing.GetDxColsMultiplicity | src/nisicd/dataProcessing/__init__.py:33-37 | every occurrence of a diagnosis name in the input is returned once; nothing else is returned |
| DataProcessing.GetProcColsMultiplicity | src/nisicd/dataProcessing/__init__.py:26-30 | every occurrence of a procedure name in the input is returned once; nothing else is returned |
| DataProcessing.ClassifyIdempotent | src/nisicd/dataProcessing/__init__.py:26-37 | classifying the classifier's own output returns it unchanged |
| DataProcessing.GetDxColsIdempotent | src/nisicd/dataProcessing/__init__.py:33-37 | `get_dx_cols(get_dx_cols(cols)) == get_dx_cols(cols)` |
| DataProcessing.GetProcColsIdempotent | src/nisicd/dataProcessing/__init__.py:26-30 | `get_proc_cols(get_proc_cols(cols)) == get_proc_cols(cols)` |
| Frames.IsInAnyIff | src/nisicd/dataProcessing/firstPassFilter.py:48-49 | `isin(vals).any(axis="columns")` holds exactly when some listed column holds one of the values |
| Frames.IsIn | src/nisicd/dataProcessing/firstPassFilter.py:49 | only a text cell can match `isin`, and nothing matches an empty code list |
| Frames.IsInAny | src/nisicd/dataProcessing/firstPassFilter.py:49 | no row matches over an empty column list or an empty code list |
| Frames.Num | src/nisicd/reporting/archive/exploration1.py:26-33 | a missing entry or a text cell is no number (NaN) |
| Frames.NumEq | src/nisicd/reporting/archive/exploration1.py:19 | `cell == n` holds only for a number or a boolean cell, and `cell == 1` on a boolean holds exactly when it is `True` |
| Frames.FillZero | src/nisicd/reporting/archive/exploration1.py:26 | `fillna(0)` keeps a number as it is and reads a missing entry as 0 |
| Frames.Filter | src/nisicd/dataProcessing/firstPassFilter.py:49 | a boolean-mask selection is no longer than its input and keeps only rows that satisfy the mask |
| Frames.FilterIdempotent | src/nisicd/dataProcessing/firstPassFilter.py:49 | selecting twice by the same mask selects nothing more |
| Frames.Missing | src/nisicd/dataProcessing/inclusionCriteria.py:34-37 | the labels a lookup names that the frame lacks; it is empty exactly when all are present |
| Frames.WhereWellFormed | src/nisicd/dataProcessing/firstPassFilter.py:49 | a boolean-mask selection of a table whose rows hold only its labels again holds only its labels |
| Frames.AddColumnWellFormed | src/nisicd/dataProcessing/process.py:22 | assigning a computed column keeps every cell of every row under a label of the table |
| Frames.AddLabel | src/nisicd/dataProcessing/process.py:22 | assigning a column keeps the old labels, in order, and adds the new one, at the end when the frame lacked it |
| Frames.AddLabels | src/nisicd/reporting/archive/exploration1.py:23-49 | assigning several columns in turn keeps the old labels, in order, and the result holds exactly the old and the new labels |
| Frames.AddLabelsFresh | src/nisicd/reporting/archive/exploration1.py:23-49 | distinct labels the frame lacks are appended in the order they are assigned |
| Frames.AddColumn | src/nisicd/reporting/archive/exploration1.py:23-49 | assigning a column computed row by row changes only that column of each row |
| Frames.Frame.SetColumn | src/nisicd/dataProcessing/process.py:22 | assigning a column of values sets that column of each row, in order, keeps the row count, and leaves every other cell unchanged |
| Frames.Frame.Assign | src/nisicd/reporting/archive/exploration1.py:23-49 | assigning a computed column updates the frame's labels and rows as `AddLabel` and `AddColumn` describe |
| FirstPassFilter.ParallelFilter.constructor | src/nisicd/dataProcessing/firstPassFilter.py:15-22 | the filter keeps the code lists and the two primary flags it is given; an omitted argument is an empty code list or `False`, as in the source |
| FirstPassFilter.ParallelFilter.FindInCols | src/nisicd/dataProcessing/firstPassFilter.py:48-49 | keeps the labels and selects, in order and unchanged, exactly the rows in which some of the columns holds one of the values |
| FirstPassFilter.ParallelFilter.DxColsUsed | src/nisicd/dataProcessing/firstPassFilter.py:56-59 | the consulted columns are the diagnosis columns, restricted to `DX1`/`I10_DX1` when diagnosis is primary |
| FirstPassFilter.ParallelFilter.ProcColsUsed | src/nisicd/dataProcessing/firstPassFilter.py:67-70 | the consulted columns are the procedure columns, restricted to `PR1`/`I10_PR1` when procedure is primary |
| FirstPassFilter.ParallelFilter.GetRelevantDx | src/nisicd/dataProcessing/firstPassFilter.py:51-61 | an empty code list returns the table unchanged; otherwise it selects the rows of the diagnosis stage |
| FirstPassFilter.ParallelFilter.GetRelevantProc | src/nisicd/dataProcessing/firstPassFilter.py:63-72 | an empty code list returns the table unchanged; otherwise it selects the rows of the procedure stage |
| FirstPassFilter.ParallelFilter.SingleFileFilter | src/nisicd/dataProcessing/firstPassFilter.py:74-78 | keeps the labels and selects the rows that both stages keep |
| FirstPassFilter.ParallelFilter.RelevantDxIsFilter | src/nisicd/dataProcessing/firstPassFilter.py:51-61 | the diagnosis stage's rows are the order-preserving selection by its predicate |
| FirstPassFilter.ParallelFilter.RelevantProcIsFilter | src/nisicd/dataProcessing/firstPassFilter.py:63-72 | the procedure stage's rows are the order-preserving selection by its predicate |
| FirstPassFilter.ParallelFilter.DxSurvivorIff | src/nisicd/dataProcessing/firstPassFilter.py:48-61 | a row survives exactly when it is an input row and the code list is empty or some consulted diagnosis column holds exactly one of the codes |
| FirstPassFilter.ParallelFilter.ProcSurvivorIff | src/nisicd/dataProcessing/firstPassFilter.py:63-72 | the same for procedure columns and procedure codes |
| FirstPassFilter.ParallelFilter.PrimaryDxConsultsFirstPosition | src/nisicd/dataProcessing/firstPassFilter.py:58-61 | with diagnosis primary, a row is kept exactly when `DX1` or `I10_DX1` is present and holds a code |
| FirstPassFilter.ParallelFilter.PrimaryProcConsultsFirstPosition | src/nisicd/dataProcessing/firstPassFilter.py:69-72 | with procedure primary, a row is kept exactly when `PR1` or `I10_PR1` is present and holds a code |
| FirstPassFilter.ParallelFilter.PrimaryDxWithoutFirstPosition | src/nisicd/dataProcessing/firstPassFilter.py:58-61 | with diagnosis primary and neither first-position column present, no row survives |
| FirstPassFilter.ParallelFilter.NullNeverMatches | src/nisicd/dataProcessing/firstPassFilter.py:48-49 | a row with no text in any column never survives a non-empty diagnosis code list |
| FirstPassFilter.ParallelFilter.SingleFileFilterIff | src/nisicd/dataProcessing/firstPassFilter.py:74-78 | a row survives one batch exactly when it is an input row that both the diagnosis and the procedure stage keep |
| FirstPassFilter.ParallelFilter.SingleFileFilterIdempotent | src/nisicd/dataProcessing/firstPassFilter.py:74-78 | filtering a filtered batch changes nothing |
| FirstPassFilter.ParallelFilter.GetRelevantDxIdempotent | src/nisicd/dataProcessing/firstPassFilter.py:51-61 | the diagnosis stage applied twice equals it applied once |
| FirstPassFilter.ParallelFilter.Results | src/nisicd/dataProcessing/firstPassFilter.py:83-85 | one result per batch, the k-th being the filtered k-th batch |
| FirstPassFilter.ParallelFilter.CountsAddUp | src/nisicd/dataProcessing/firstPassFilter.py:83-92 | the results' sizes add up to the sum of the per-batch filtered counts |
| FirstPassFilter.ParallelFilter.ParallelFileFilter | src/nisicd/dataProcessing/firstPassFilter.py:80-92 | no batches raise "no objects to concatenate"; otherwise the rows are the per-batch results concatenated in input order, the logged final count is the sum of the per-batch counts, and the labels are those of some batch |
| FirstPassFilter.ParallelFilter.ResultColumns | src/nisicd/dataProcessing/firstPassFilter.py:83-87 | a label is on some result exactly when it is on some batch |
| FirstPassFilter.ConcatRowsLength | src/nisicd/dataProcessing/firstPassFilter.py:87 | the concatenation has as many rows as the tables together |
| FirstPassFilter.ConcatRowsBlock | src/nisicd/dataProcessing/firstPassFilter.py:87 | the k-th table's rows follow those of the tables before it |
| FirstPassFilter.UnionColumns | src/nisicd/dataProcessing/firstPassFilter.py:87 | the union of two label lists contains exactly the labels of either |
| FirstPassFilter.ConcatColumns | src/nisicd/dataProcessing/firstPassFilter.py:87 | the concatenation's labels are exactly those of some table |
| FirstPassFilter.ConcatTables | src/nisicd/dataProcessing/firstPassFilter.py:87 | `pd.concat` fails exactly on an empty list; otherwise it puts the rows end to end, with the union of the labels |
| Inclusion.IcDropna | src/nisicd/dataProcessing/inclusionCriteria.py:20-39 | a `KeyError` exactly when a required or income label is absent; otherwise the same labels, and the rows with every required field present and not both income fields missing |
| Inclusion.IcAge | src/nisicd/dataProcessing/inclusionCriteria.py:42-45 | succeeds, and keeps every row and label |
| Inclusion.IcTranout | src/nisicd/dataProcessing/inclusionCriteria.py:48-49 | `KeyError(["TRAN_OUT"])` exactly when the column is absent; otherwise the rows whose `TRAN_OUT` equals 0 |
| Inclusion.HasRequiredFields | src/nisicd/dataProcessing/inclusionCriteria.py:22-34 | a row that passes the required-field test has `AGE`, `DIED` and `LOS` |
| Inclusion.HasIncome | src/nisicd/dataProcessing/inclusionCriteria.py:36-37 | holds exactly when `ZIPINC` or `ZIPINC_QRTL` is not missing |
| Inclusion.NotTransferred | src/nisicd/dataProcessing/inclusionCriteria.py:49 | a kept row has `TRAN_OUT` recorded, as the number 0 or `False` |
| Inclusion.DropnaKeepsIff | src/nisicd/dataProcessing/inclusionCriteria.py:22-37 | an input row is kept exactly when none of the eight required fields is missing and `ZIPINC` and `ZIPINC_QRTL` are not both missing |
| Inclusion.TranoutKeepsIff | src/nisicd/dataProcessing/inclusionCriteria.py:48-49 | an input row is kept exactly when `TRAN_OUT` is numerically 0; a missing `TRAN_OUT` drops the row |
| Inclusion.ApplyRule | src/nisicd/dataProcessing/inclusionCriteria.py:57-58 | a rule succeeds exactly when its labels are present, and then selects the rows it keeps |
| Inclusion.RunRules | src/nisicd/dataProcessing/inclusionCriteria.py:51-65 | a run that returns a frame keeps the base frame's labels |
| Inclusion.RunLog | src/nisicd/dataProcessing/inclusionCriteria.py:55-62 | the log has at most one entry per rule |
| Inclusion.KeptByAllCons | src/nisicd/dataProcessing/inclusionCriteria.py:55-58 | helper: a row passes a list of rules when it passes the first and the rest |
| Inclusion.RunRulesSelects | src/nisicd/dataProcessing/inclusionCriteria.py:51-65 | with every needed label present, the run returns exactly the base rows that satisfy every rule, in order |
| Inclusion.RulesCommute | src/nisicd/dataProcessing/inclusionCriteria.py:55-58 | with every needed label present, any order of the same rules gives the same result |
| Inclusion.RunRulesIdempotent | src/nisicd/dataProcessing/inclusionCriteria.py:55-58 | running the rules on their own result changes nothing |
| Inclusion.RulesOf | src/nisicd/dataProcessing/inclusionCriteria.py:57 | the rule looked up for each method name carries that name |
| Inclusion.RuleNamedInverse | src/nisicd/dataProcessing/inclusionCriteria.py:57 | `getattr(self, name)` finds the rule of that name |
| Inclusion.FilterAscending | src/nisicd/dataProcessing/inclusionCriteria.py:52 | selecting from a sorted listing keeps it sorted |
| Inclusion.SortedSelection | src/nisicd/dataProcessing/inclusionCriteria.py:52 | selecting from the `dir()` listing gives the sorted arrangement of the declared selection |
| Inclusion.IcNamesAscending | src/nisicd/dataProcessing/inclusionCriteria.py:52 | `_ic_age` < `_ic_dropna` < `_ic_tranout` in Python's string order |
| Inclusion.IcAttributesDeclared | src/nisicd/dataProcessing/inclusionCriteria.py:12-52 | in declaration order, the `_ic` attributes of the class are `_ic_dropna`, `_ic_age`, `_ic_tranout` |
| Inclusion.IcSelectionSorted | src/nisicd/dataProcessing/inclusionCriteria.py:52 | any attribute listing with those three `_ic` names yields them sorted from `dir()` |
| Inclusion.IcMethodsOrder | src/nisicd/dataProcessing/inclusionCriteria.py:52 | `ic_methods` is `["_ic_age", "_ic_dropna", "_ic_tranout"]` |
| Inclusion.IcMethodsNameRules | src/nisicd/dataProcessing/inclusionCriteria.py:52-58 | every listed name has a rule, and the rules looked up are age, dropna, tranout |
| Inclusion.AgeFirst | src/nisicd/dataProcessing/inclusionCriteria.py:42-45 | running the age rule first changes nothing |
| Inclusion.RunPair | src/nisicd/dataProcessing/inclusionCriteria.py:55-58 | two rules in a row: the first one's error, or the second applied to the first's result |
| Inclusion.DropnaThenTranout | src/nisicd/dataProcessing/inclusionCriteria.py:20-49 | with a required or income label absent the run is dropna's `KeyError`; otherwise it is tranout on dropna's selection |
| Inclusion.AllColumnsAdmissible | src/nisicd/dataProcessing/inclusionCriteria.py:19-58 | with every needed label present, the run keeps exactly the rows that pass all three rules |
| Inclusion.IcRulesOutcome | src/nisicd/dataProcessing/inclusionCriteria.py:19-65 | all three outcomes of `apply_ic`: dropna's `KeyError`, tranout's `KeyError(["TRAN_OUT"])`, or the base rows that pass all three rules |
| Inclusion.RunLogNames | src/nisicd/dataProcessing/inclusionCriteria.py:55-62 | one log entry per rule that ran, in order and named after the rule; a full log exactly when the run succeeds |
| Inclusion.RunLogCounts | src/nisicd/dataProcessing/inclusionCriteria.py:55-62 | the first "before" is the base size, each "before" is the previous "after", and no diff is negative |
| Inclusion.RunLogTotal | src/nisicd/dataProcessing/inclusionCriteria.py:55-64 | the diffs add up to the base size minus the final size |
| Inclusion.RunStep | src/nisicd/dataProcessing/inclusionCriteria.py:55-62 | helper: one step of the loop: an error ends the run with no entry, a success logs before/after and continues on the result |
| Inclusion.RunFrom | src/nisicd/dataProcessing/inclusionCriteria.py:55-62 | a run resumed in the middle keeps its result and its log so far |
| Inclusion.InclusionCriteria.constructor | src/nisicd/dataProcessing/inclusionCriteria.py:13-14 | keeps the base frame |
| Inclusion.InclusionCriteria.IcMethodNames | src/nisicd/dataProcessing/inclusionCriteria.py:52 | the names found by `dir()` are those of the age, dropna and tranout rules, in that order |
| Inclusion.InclusionCriteria.RunIcMethods | src/nisicd/dataProcessing/inclusionCriteria.py:53-65 | the loop returns the run of the named rules and its log |
| Inclusion.InclusionCriteria.ApplyIc | src/nisicd/dataProcessing/inclusionCriteria.py:51-65 | `apply_ic` returns the run of the rules in `dir()` order and its log |
| Inclusion.InclusionCriteria.ApplyIcLog | src/nisicd/dataProcessing/inclusionCriteria.py:55-64 | the log of `apply_ic`: at most three entries, all three on success, each named after the rule that ran, chained counts with non-negative diffs, and a final size equal to the base size minus the total diff |
| PythonDir.BelowIrreflexive | src/nisicd/dataProcessing/inclusionCriteria.py:52 | no string sorts before itself |
| PythonDir.BelowTransitive | src/nisicd/dataProcessing/inclusionCriteria.py:52 | string order is transitive |
| PythonDir.BelowTotal | src/nisicd/dataProcessing/inclusionCriteria.py:52 | any two different strings are ordered one way or the other |
| PythonDir.BelowAsymmetric | src/nisicd/dataProcessing/inclusionCriteria.py:52 | string order is asymmetric |
| PythonDir.BelowAt | src/nisicd/dataProcessing/inclusionCriteria.py:52 | the first differing character decides the order |
| PythonDir.Below | src/nisicd/dataProcessing/inclusionCriteria.py:52 | a string that sorts strictly before another is different from it |
| PythonDir.Insert | src/nisicd/dataProcessing/inclusionCriteria.py:52 | insertion adds one element, and the result holds exactly the new name and the old ones |
| PythonDir.Sort | src/nisicd/dataProcessing/inclusionCriteria.py:52 | the sorted listing has as many names as the input, and the same names |
| PythonDir.AscendingCons | src/nisicd/dataProcessing/inclusionCriteria.py:52 | a name no greater than every name in a sorted listing can go in front |
| PythonDir.InsertPermutes | src/nisicd/dataProcessing/inclusionCriteria.py:52 | insertion adds exactly the one name |
| PythonDir.InsertAscending | src/nisicd/dataProcessing/inclusionCriteria.py:52 | insertion into a sorted listing keeps it sorted |
| PythonDir.SortFacts | src/nisicd/dataProcessing/inclusionCriteria.py:52 | sorting gives an ascending permutation |
| PythonDir.AscendingUnique | src/nisicd/dataProcessing/inclusionCriteria.py:52 | two ascending permutations of the same names are equal |
| PythonDir.Dir | src/nisicd/dataProcessing/inclusionCriteria.py:52 | `dir()` lists the attribute names as an ascending permutation |
| PythonDir.DirIgnoresDeclarationOrder | src/nisicd/dataProcessing/inclusionCriteria.py:52 | the listing does not depend on the order of declaration |
| Process.GetDm | src/nisicd/dataProcessing/process.py:15-20 | the flag is true exactly when some diabetes prefix starts some diagnosis cell |
| Process.AnyStartsWith | src/nisicd/dataProcessing/process.py:17 | no prefix starts a cell when there are no columns to look at |
| Process.HasDm | src/nisicd/dataProcessing/process.py:15-20 | a row is never flagged when there are no diagnosis columns |
| Process.HasDmIff | src/nisicd/dataProcessing/process.py:15-20 | flagged exactly when some non-missing text in a diagnosis column starts with one of the diabetes prefixes |
| Process.NoMatchNoDm | src/nisicd/dataProcessing/process.py:15-20 | a row whose diagnosis cells are all missing, or none of which starts with a prefix, is not flagged |
| Process.PrefixCodeFlagged | src/nisicd/dataProcessing/process.py:16-17 | a code equal to a prefix is flagged |
| Process.Code250Flagged | src/nisicd/dataProcessing/process.py:16-17 | the codes "250" and "25000" are flagged |
| Process.PrefixOrderIrrelevant | src/nisicd/dataProcessing/process.py:16-20 | any order of the same prefixes gives the same flag |
| Process.HasDmColumnNotDx | src/nisicd/dataProcessing/process.py:13-22 | `has_DM` is not a diagnosis column, so adding it leaves the diagnosis columns as they were |
| Process.AddHasDm | src/nisicd/dataProcessing/process.py:13-22 | adds `has_DM` holding each row's flag, keeps the row count and leaves every other cell unchanged |
| Reporting.Crosstab | src/nisicd/reporting/__init__.py:14-23 | a `KeyError` for the outcome label exactly when a group lacks it |
| Reporting.OutcomeCount | src/nisicd/reporting/__init__.py:20-23 | a count is at most the group size, and 0 when every row lacks the outcome |
| Reporting.MakeCrosstab | src/nisicd/reporting/__init__.py:19-23 | a fresh 2×2 array whose cells count exposure rows with outcome 1 and 0, then control rows with outcome 1 and 0; the `KeyError` otherwise; the outcome label defaults to `outcome` |
| Reporting.CrosstabSwap | src/nisicd/reporting/__init__.py:20-23 | exchanging the groups exchanges the two rows of the table |
| Reporting.OutcomeSplit | src/nisicd/reporting/__init__.py:20-23 | outcome 1, outcome 0 and every other value together account for a group's rows |
| Reporting.GroupTotal | src/nisicd/reporting/__init__.py:20-23 | a row of the table sums to at most the group size, and to exactly that when and only when every outcome is 0 or 1 |
| Reporting.CrosstabBounds | src/nisicd/reporting/__init__.py:19-23 | each row of a computed table sums to at most its group's size |
| Exploration.FirstMissing | src/nisicd/reporting/archive/exploration1.py:19-53 | none exactly when every wanted label is present; otherwise the first missing one |
| Exploration.NotTransferred | src/nisicd/reporting/archive/exploration1.py:19 | a kept row has `TRAN_OUT` recorded, as the number 0 or `False` |
| Exploration.OrReturn | src/nisicd/reporting/archive/exploration1.py:26 | set only when at least one of the two procedure counts is a number |
| Exploration.ExtendedLos | src/nisicd/reporting/archive/exploration1.py:29 | set only when `LOS` is a number |
| Exploration.SumAboveZero | src/nisicd/reporting/archive/exploration1.py:33 | set only when `ssi`, `DIED` and `or_return` are all numbers: a missing term makes the sum NaN |
| Exploration.EitherSource | src/nisicd/reporting/archive/exploration1.py:39-49 | set only when at least one of the two sources is a number |
| Exploration.DeriveRow | src/nisicd/reporting/archive/exploration1.py:22-49 | a derived row holds exactly the input row's labels and the nine derived ones |
| Exploration.Prepared | src/nisicd/reporting/archive/exploration1.py:19-49 | the labels are exactly the input's and the nine derived ones, and there are no more rows than in the input |
| Exploration.Derive | src/nisicd/reporting/archive/exploration1.py:22-49 | one derived row per row, the k-th derived from the k-th |
| Exploration.DeriveColumns | src/nisicd/reporting/archive/exploration1.py:23-49 | the labels afterwards are exactly the old ones and the nine derived ones, with the old ones first and in their order |
| Exploration.DeriveColumnsInOrder | src/nisicd/reporting/archive/exploration1.py:23-49 | the nine assignments add the derived labels one at a time, in the order the script assigns them |
| Exploration.DerivedNamesDistinct | src/nisicd/reporting/archive/exploration1.py:23-49 | the nine derived labels are different from each other |
| Exploration.DeriveColumnsAppends | src/nisicd/reporting/archive/exploration1.py:23-49 | on a frame with none of the nine labels, the labels afterwards are the old ones followed by the nine in assignment order |
| Exploration.ColumnByColumn | src/nisicd/reporting/archive/exploration1.py:23-49 | the nine column assignments one after another equal the row-wise derivation |
| Exploration.OutcomesKeep | src/nisicd/reporting/archive/exploration1.py:23-33 | deriving the outcomes leaves every other column as it was |
| Exploration.ComorbiditiesKeep | src/nisicd/reporting/archive/exploration1.py:39-49 | deriving the comorbidities leaves every other column as it was |
| Exploration.DeriveRowKeeps | src/nisicd/reporting/archive/exploration1.py:23-49 | a column that is not derived keeps its value |
| Exploration.DeriveRowSsi | src/nisicd/reporting/archive/exploration1.py:22-23 | `ssi` is true exactly when some diagnosis column holds exactly one of the infection codes |
| Exploration.DeriveRowOrReturn | src/nisicd/reporting/archive/exploration1.py:26 | `or_return` is true exactly when `I10_NPR` plus `NPR`, each with missing read as 0, exceeds 1 |
| Exploration.DeriveRowLos | src/nisicd/reporting/archive/exploration1.py:29 | `extended_los` is true exactly when `LOS` is a number greater than 4 |
| Exploration.DeriveRowOutcome | src/nisicd/reporting/archive/exploration1.py:33 | `composite_outcome` is `ssi + DIED + or_return > 0`, and false when `DIED` is missing |
| Exploration.CompositeOutcomeIff | src/nisicd/reporting/archive/exploration1.py:33 | with `DIED` 0 or 1, the composite outcome holds exactly when infection, death or return to the operating room does; with `DIED` missing it is false |
| Exploration.SourcesKept | src/nisicd/reporting/archive/exploration1.py:39-49 | the comorbidity sources are not touched by the outcome columns |
| Exploration.DeriveRowDm | src/nisicd/reporting/archive/exploration1.py:39 | `composite_DM` combines `CM_DM` and `CMR_DIAB_UNCX` |
| Exploration.DeriveRowDmcx | src/nisicd/reporting/archive/exploration1.py:40 | `composite_DMCX` combines `CM_DMCX` and `CMR_DIAB_CX` |
| Exploration.DeriveRowVasc | src/nisicd/reporting/archive/exploration1.py:41-43 | `composite_VASC` combines `CM_PERIVASC` and `CMR_PERIVASC` |
| Exploration.DeriveRowAlcohol | src/nisicd/reporting/archive/exploration1.py:44-46 | `composite_ALCOHOL` combines `CM_ALCOHOL` and `CMR_ALCOHOL` |
| Exploration.DeriveRowDrug | src/nisicd/reporting/archive/exploration1.py:47-49 | `composite_DRUG` combines `CM_DRUG` and `CMR_DRUG_ABUSE` |
| Exploration.EitherSourceIff | src/nisicd/reporting/archive/exploration1.py:39-49 | with non-negative sources, a composite flag holds exactly when either source, with missing read as 0, is positive; two missing sources give false |
| Exploration.DeriveRowFlagged | src/nisicd/reporting/archive/exploration1.py:19-40 | a row that was not transferred keeps `TRAN_OUT == 0` and gets boolean outcome and comorbidity flags |
| Exploration.PreparedRows | src/nisicd/reporting/archive/exploration1.py:19-49 | after the transfer filter every row has `TRAN_OUT == 0` and both flags, one row per input row not transferred |
| Exploration.SelectionFlagged | src/nisicd/reporting/archive/exploration1.py:53-61 | every payer or comorbidity group of flagged rows is flagged |
| Exploration.PayerGroupsDisjoint | src/nisicd/reporting/archive/exploration1.py:53-54 | no row is in both the self-pay and the private-pay group |
| Exploration.SplitCounts | src/nisicd/reporting/archive/exploration1.py:56-61 | the `_dm` and `_nodm` groups partition a payer group, and their outcome counts add up to the group's |
| Exploration.Tabulated | src/nisicd/reporting/archive/exploration1.py:53-79 | the three tables fail exactly when the outcome column is missing |
| Exploration.Tabulate | src/nisicd/reporting/archive/exploration1.py:53-79 | the three `make_crosstab` calls compute the tables of the two diabetes splits and of everyone |
| Exploration.Exploration | src/nisicd/reporting/archive/exploration1.py:19-79 | a `KeyError` naming a read column exactly when one of them is missing |
| Exploration.Exploration1 | src/nisicd/reporting/archive/exploration1.py:19-79 | the script, step by step on the frame, computes `Exploration` |
| Exploration.EveryoneIsSum | src/nisicd/reporting/archive/exploration1.py:53-79 | each cell of the everyone table is the sum of the no-diabetes and diabetes cells |
| Exploration.FlaggedTotal | src/nisicd/reporting/archive/exploration1.py:67-79 | in a flagged group the outcome-1 and outcome-0 counts add up to the group size |
| Exploration.EveryoneTotals | src/nisicd/reporting/archive/exploration1.py:53-79 | the everyone table's two rows add up to the self-pay and private-pay group sizes |

## Left out

- Reading and writing parquet files, `glob` and the `__main__` blocks that
  wire the steps together are not modelled. Tables are parameters and
  results.
- The process pool, `os.sched_getaffinity` and the `tqdm` progress bar are
  not modelled. The batches are filtered one after another; `executor.map`
  returns results in input order, which the sequential model keeps.
- Logging text is not modelled. The inclusion log is kept as
  (name, before, after) entries, and the first-pass filter's final count is
  returned.
- The `HOSPSTCO` string cast (firstPassFilter.py line 89) and the write that
  follows it are left out. They are serialization details.
- The firstPassFilter.py `__main__` imports `DX_CODES`, which is not part of
  this model. The code lists are constructor parameters.
- `sm.stats.Table2x2` and every odds ratio, confidence interval, p-value,
  print and mean of the reporting code (exploration1.py lines 8-12, 63-94)
  are left out, as floating point and foreign calls.
- Reporting.MakeCrosstab: the array is `np.zeros`, of floats; the model's
  array holds the integer counts.
- A text cell in arithmetic (`fillna(0) + ...`, `> 4`) raises or concatenates
  in pandas. The model reads it as no number (`Num` is `None`), with
  `fillna(0)` read as 0.
- `.str.startswith` on a column of numbers raises in pandas; the model treats
  a number as never starting with a prefix.
- Process.AddHasDm: `apply(get_dm, axis=1)` on an empty selection does not
  return a boolean column. With no diagnosis columns the model adds a column
  of `false`. With no rows and two or more diagnosis columns pandas returns a
  frame of those columns, and the assignment to `has_DM` raises `ValueError`;
  the model adds an empty column instead.
- FirstPassFilter.ConcatTables: the column order and duplicate labels of
  `pd.concat` are not modelled; its contract gives only which labels are
  present.
- Inclusion.IcDropna: the error contract says only that the `KeyError` lists
  some absent labels, not which of the two `dropna` calls raised it.
- Exploration.Exploration: the model checks the read columns up front,
  rather than at each lookup. This gives the same outcome: no step reads a
  derived column before it is added, and the transfer filter keeps the labels.
  The error contract says only that one absent read column is named, not that
  it is the first.
- Exploration.Tabulated: only a missing outcome column is an error. In
  pandas a frame without `PAY1` or `composite_DMCX` would raise too. Inside
  `Exploration` neither case arises: `PAY1` is checked up front and
  `composite_DMCX` is always derived.
- Python's `dir()` also lists inherited attributes such as `__class__`. None
  of them starts with `_ic`, so the model's class attribute list holds only
  the names the class declares.
- The inclusionCriteria.py `__main__` choice of columns to read (lines 69-97)
  is I/O and is not modelled.
