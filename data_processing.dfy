/** The code catalogs and the column classifier of the data-processing package. */
module DataProcessing {
  import opened Frames

  /** Surgical-site infection: one ICD-9-CM and two ICD-10-CM codes, matched exactly. */
  const SsiCodes: seq<string> := ["99859", "T8149XA", "T8141XA"]

  /** Diabetes: code prefixes, matched with `startswith`. */
  const DmStartswithCodes: seq<string> := ["6480", "249", "250", "E08", "E09", "E10", "E11", "E13"]

  const AppendicitisCodes: seq<string> := [
    "5409", "5400", "5401", "K3580", "K358", "K35890", "K35891", "K352",
    "K3520", "K3521", "K353", "K3530", "K3531", "K3532", "K3533"
  ]

  lemma CatalogSizes()
    ensures |SsiCodes| == 3 && |DmStartswithCodes| == 8 && |AppendicitisCodes| == 15
    ensures SsiCodes[0] == "99859" && SsiCodes[1] == "T8149XA" && SsiCodes[2] == "T8141XA"
  {
  }

  // ---------------------------------------------------------------------
  // Column classification: `re.search("^<prefix>[0-9]{1,2}$", name)`.

  predicate IsAsciiDigit(c: char)
  {
    '0' <= c <= '9'
  }

  /** The part of `name` before the place where Python's `$` may match:
      the end of the string, or just before one final newline. */
  function BeforeFinalNewline(name: string): (r: string)
    ensures name == r || name == r + "\n"
    ensures r == name <==> name == [] || name[|name| - 1] != '\n'
  {
    if |name| > 0 && name[|name| - 1] == '\n' then name[..|name| - 1] else name
  }

  /** `name` is `prefix` followed by one or two ASCII digits (and possibly one final newline). */
  predicate MatchesNumbered(prefix: string, name: string)
    ensures MatchesNumbered(prefix, name) ==> |prefix| < |name| <= |prefix| + 3 && name[..|prefix|] == prefix
  {
    var body := BeforeFinalNewline(name);
    && |prefix| < |body| <= |prefix| + 2
    && body[..|prefix|] == prefix
    && forall k :: |prefix| <= k < |body| ==> IsAsciiDigit(body[k])
  }

  function Matcher(prefix: string): string -> bool
  {
    (name: string) => MatchesNumbered(prefix, name)
  }

  /** Names of the two coding eras: ICD-9 (`DX`, `PR`) and ICD-10 (`I10_DX`, `I10_PR`). */
  const Icd9Dx := "DX"
  const Icd10Dx := "I10_DX"
  const Icd9Proc := "PR"
  const Icd10Proc := "I10_PR"

  predicate IsDxColumn(name: string)
  {
    MatchesNumbered(Icd9Dx, name) || MatchesNumbered(Icd10Dx, name)
  }

  predicate IsProcColumn(name: string)
  {
    MatchesNumbered(Icd9Proc, name) || MatchesNumbered(Icd10Proc, name)
  }

  /** The older era's matches in input order, then the newer era's. */
  function Classify(allCols: seq<string>, olderPrefix: string, newerPrefix: string): (r: seq<string>)
    ensures forall i :: 0 <= i < |r| ==> MatchesNumbered(olderPrefix, r[i]) || MatchesNumbered(newerPrefix, r[i])
  {
    Filter(allCols, Matcher(olderPrefix)) + Filter(allCols, Matcher(newerPrefix))
  }

  function GetDxCols(allCols: seq<string>): (r: seq<string>)
    ensures forall i :: 0 <= i < |r| ==> IsDxColumn(r[i])
  {
    Classify(allCols, Icd9Dx, Icd10Dx)
  }

  function GetProcCols(allCols: seq<string>): (r: seq<string>)
    ensures forall i :: 0 <= i < |r| ==> IsProcColumn(r[i])
  {
    Classify(allCols, Icd9Proc, Icd10Proc)
  }

  // ---------------------------------------------------------------------
  // Properties of the patterns.

  /** Two prefixes that differ at some position within both. */
  predicate Clash(p: string, q: string)
  {
    exists k :: 0 <= k < |p| && k < |q| && p[k] != q[k]
  }

  lemma PrefixAt(prefix: string, name: string, k: nat)
    requires MatchesNumbered(prefix, name) && k < |prefix|
    ensures k < |BeforeFinalNewline(name)| && BeforeFinalNewline(name)[k] == prefix[k]
  {
    var body := BeforeFinalNewline(name);
    assert body[..|prefix|][k] == body[k];
  }

  /** No name matches two patterns whose prefixes clash. */
  lemma ClashingPatternsDisjoint(p: string, q: string, name: string)
    requires Clash(p, q)
    ensures !(MatchesNumbered(p, name) && MatchesNumbered(q, name))
  {
    var k :| 0 <= k < |p| && k < |q| && p[k] != q[k];
    if MatchesNumbered(p, name) {
      PrefixAt(p, name, k);
    }
  }

  lemma PrefixesClash()
    ensures Clash(Icd9Dx, Icd10Dx) && Clash(Icd9Proc, Icd10Proc)
    ensures Clash(Icd9Dx, Icd9Proc) && Clash(Icd9Dx, Icd10Proc)
    ensures Clash(Icd10Dx, Icd9Proc) && Clash(Icd10Dx, Icd10Proc)
  {
    assert Icd9Dx[0] != Icd10Dx[0];
    assert Icd9Proc[0] != Icd10Proc[0];
    assert Icd9Dx[0] != Icd9Proc[0];
    assert Icd9Dx[0] != Icd10Proc[0];
    assert Icd10Dx[0] != Icd9Proc[0];
    assert Icd10Dx[4] != Icd10Proc[4];
  }

  /** No column name is both a diagnosis column and a procedure column. */
  lemma DxProcDisjoint(name: string)
    ensures !(IsDxColumn(name) && IsProcColumn(name))
  {
    PrefixesClash();
    ClashingPatternsDisjoint(Icd9Dx, Icd9Proc, name);
    ClashingPatternsDisjoint(Icd9Dx, Icd10Proc, name);
    ClashingPatternsDisjoint(Icd10Dx, Icd9Proc, name);
    ClashingPatternsDisjoint(Icd10Dx, Icd10Proc, name);
  }

  /** So the two classifiers never share a name, whatever the inputs. */
  lemma DxProcColsDisjoint(a: seq<string>, b: seq<string>)
    ensures forall n :: n in GetDxCols(a) ==> n !in GetProcCols(b)
  {
    forall n | n in GetDxCols(a)
      ensures n !in GetProcCols(b)
    {
      DxProcDisjoint(n);
    }
  }

  /** The pattern means: prefix, then exactly one or two digits, then at most one newline. */
  lemma MatchesNumberedIff(prefix: string, name: string)
    ensures MatchesNumbered(prefix, name) <==>
      exists d :: && (|d| == 1 || |d| == 2) && (forall k :: 0 <= k < |d| ==> IsAsciiDigit(d[k]))
                  && (name == prefix + d || name == prefix + d + "\n")
  {
    var body := BeforeFinalNewline(name);
    if MatchesNumbered(prefix, name) {
      var d := body[|prefix|..];
      assert body == prefix + d;
    }
    if exists d :: && (|d| == 1 || |d| == 2) && (forall k :: 0 <= k < |d| ==> IsAsciiDigit(d[k]))
                   && (name == prefix + d || name == prefix + d + "\n") {
      var d :| && (|d| == 1 || |d| == 2) && (forall k :: 0 <= k < |d| ==> IsAsciiDigit(d[k]))
               && (name == prefix + d || name == prefix + d + "\n");
      if name == prefix + d {
        assert name[|name| - 1] == d[|d| - 1];
      } else {
        assert name[|name| - 1] == '\n';
      }
      assert body == prefix + d;
      assert body[..|prefix|] == prefix;
    }
  }

  lemma DxNamesClassified()
    ensures IsDxColumn("DX1") && IsDxColumn("DX40") && IsDxColumn("I10_DX1") && IsDxColumn("I10_DX40")
  {
    assert IsDxColumn("DX1") by { assert "DX1"[..2] == "DX"; }
    assert IsDxColumn("DX40") by { assert "DX40"[..2] == "DX"; }
    assert IsDxColumn("I10_DX1") by { assert "I10_DX1"[..6] == "I10_DX"; }
    assert IsDxColumn("I10_DX40") by { assert "I10_DX40"[..6] == "I10_DX"; }
  }

  lemma NonDxNamesRejected()
    ensures !IsDxColumn("DX") && !IsDxColumn("DX123") && !IsDxColumn("XDX1") && !IsDxColumn("I10_DX")
  {
    assert !IsDxColumn("DX") by { assert BeforeFinalNewline("DX") == "DX"; }
    assert !IsDxColumn("I10_DX") by { assert BeforeFinalNewline("I10_DX") == "I10_DX"; }
    assert !IsDxColumn("DX123") by { assert BeforeFinalNewline("DX123") == "DX123"; }
    assert !IsDxColumn("XDX1") by { assert "XDX1"[..2][0] != "DX"[0]; }
  }

  /** One final newline is tolerated, as with a `$` anchor; two are not. */
  lemma FinalNewlineNames()
    ensures IsDxColumn("DX1\n") && !IsDxColumn("DX1\n\n")
  {
    assert IsDxColumn("DX1\n") by {
      assert BeforeFinalNewline("DX1\n") == "DX1";
      assert "DX1"[..2] == "DX";
    }
    assert !IsDxColumn("DX1\n\n") by {
      assert BeforeFinalNewline("DX1\n\n") == "DX1\n";
      assert !IsAsciiDigit("DX1\n"[3]);
    }
  }

  lemma ProcNamesClassified()
    ensures IsProcColumn("PR1") && IsProcColumn("I10_PR15") && !IsProcColumn("NPR") && !IsProcColumn("I10_NPR")
  {
    assert IsProcColumn("PR1") by { assert "PR1"[..2] == "PR"; }
    assert IsProcColumn("I10_PR15") by { assert "I10_PR15"[..6] == "I10_PR"; }
    assert !IsProcColumn("NPR") by { assert "NPR"[..2][0] != "PR"[0]; }
    assert !IsProcColumn("I10_NPR") by { assert "I10_NPR"[..6][4] != "I10_PR"[4]; }
  }

  lemma FirstPositionsAreDx()
    ensures IsDxColumn("DX1") && IsDxColumn("I10_DX1")
  {
    assert "DX1"[..2] == Icd9Dx;
    assert "I10_DX1"[..6] == Icd10Dx;
  }

  lemma FirstPositionsAreProc()
    ensures IsProcColumn("PR1") && IsProcColumn("I10_PR1")
  {
    assert "PR1"[..2] == Icd9Proc;
    assert "I10_PR1"[..6] == Icd10Proc;
  }

  // ---------------------------------------------------------------------
  // Properties of the classifier.

  /** Up to `k`, `r` holds names of the older era, from `k` on names of the
      newer era, and each part is an ordered subsequence of `allCols`. */
  predicate SplitsAt(r: seq<string>, k: int, older: string, newer: string, allCols: seq<string>)
  {
    && 0 <= k <= |r|
    && (forall i :: 0 <= i < k ==> MatchesNumbered(older, r[i]))
    && (forall i :: k <= i < |r| ==> MatchesNumbered(newer, r[i]))
    && IsSubsequence(r[..k], allCols) && IsSubsequence(r[k..], allCols)
  }

  /** Every returned name is a matching input name: all of the older era first,
      then all of the newer era, each group an ordered subsequence of the input. */
  lemma {:induction false} ClassifyOrder(allCols: seq<string>, older: string, newer: string)
    ensures var r := Classify(allCols, older, newer);
      exists k :: SplitsAt(r, k, older, newer, allCols)
  {
    var a := Filter(allCols, Matcher(older));
    var b := Filter(allCols, Matcher(newer));
    FilterIsSubsequence(allCols, Matcher(older));
    FilterIsSubsequence(allCols, Matcher(newer));
    ConcatHalves(a, b, allCols, Matcher(older), Matcher(newer));
    assert SplitsAt(a + b, |a|, older, newer, allCols);
    assert Classify(allCols, older, newer) == a + b;
  }

  /** The halves of a concatenation keep the properties of its parts. */
  lemma ConcatHalves<T>(a: seq<T>, b: seq<T>, s: seq<T>, p: T -> bool, q: T -> bool)
    requires forall i :: 0 <= i < |a| ==> p(a[i])
    requires forall i :: 0 <= i < |b| ==> q(b[i])
    requires IsSubsequence(a, s) && IsSubsequence(b, s)
    ensures forall i :: 0 <= i < |a| ==> p((a + b)[i])
    ensures forall i :: |a| <= i < |a + b| ==> q((a + b)[i])
    ensures IsSubsequence((a + b)[..|a|], s) && IsSubsequence((a + b)[|a|..], s)
  {
    assert (a + b)[..|a|] == a && (a + b)[|a|..] == b;
    forall i | |a| <= i < |a + b| ensures q((a + b)[i]) {
      assert (a + b)[i] == b[i - |a|];
    }
  }

  lemma GetDxColsOrder(allCols: seq<string>)
    ensures var r := GetDxCols(allCols);
      exists k :: SplitsAt(r, k, Icd9Dx, Icd10Dx, allCols)
  {
    ClassifyOrder(allCols, Icd9Dx, Icd10Dx);
    assert GetDxCols(allCols) == Classify(allCols, Icd9Dx, Icd10Dx);
  }

  lemma GetProcColsOrder(allCols: seq<string>)
    ensures var r := GetProcCols(allCols);
      exists k :: SplitsAt(r, k, Icd9Proc, Icd10Proc, allCols)
  {
    ClassifyOrder(allCols, Icd9Proc, Icd10Proc);
    assert GetProcCols(allCols) == Classify(allCols, Icd9Proc, Icd10Proc);
  }

  /** Each input occurrence of a matching name is returned once; nothing else is returned. */
  lemma ClassifyMultiplicity(allCols: seq<string>, older: string, newer: string, name: string)
    requires Clash(older, newer)
    ensures multiset(Classify(allCols, older, newer))[name] ==
      if MatchesNumbered(older, name) || MatchesNumbered(newer, name) then multiset(allCols)[name] else 0
  {
    FilterMultiplicity(allCols, Matcher(older), name);
    FilterMultiplicity(allCols, Matcher(newer), name);
    ClashingPatternsDisjoint(older, newer, name);
    assert multiset(Classify(allCols, older, newer)) ==
      multiset(Filter(allCols, Matcher(older))) + multiset(Filter(allCols, Matcher(newer)));
  }

  lemma GetDxColsMultiplicity(allCols: seq<string>, name: string)
    ensures multiset(GetDxCols(allCols))[name] == if IsDxColumn(name) then multiset(allCols)[name] else 0
  {
    PrefixesClash();
    ClassifyMultiplicity(allCols, Icd9Dx, Icd10Dx, name);
  }

  lemma GetProcColsMultiplicity(allCols: seq<string>, name: string)
    ensures multiset(GetProcCols(allCols))[name] == if IsProcColumn(name) then multiset(allCols)[name] else 0
  {
    PrefixesClash();
    ClassifyMultiplicity(allCols, Icd9Proc, Icd10Proc, name);
  }

  /** Re-classifying the classifier's own output returns it unchanged. */
  lemma ClassifyIdempotent(allCols: seq<string>, older: string, newer: string)
    requires Clash(older, newer)
    ensures Classify(Classify(allCols, older, newer), older, newer) == Classify(allCols, older, newer)
  {
    var a := Filter(allCols, Matcher(older));
    var b := Filter(allCols, Matcher(newer));
    FilterAppend(a, b, Matcher(older));
    FilterAppend(a, b, Matcher(newer));
    FilterKeepsAll(a, Matcher(older));
    FilterKeepsAll(b, Matcher(newer));
    forall i | 0 <= i < |b| ensures !Matcher(older)(b[i]) {
      ClashingPatternsDisjoint(older, newer, b[i]);
    }
    forall i | 0 <= i < |a| ensures !Matcher(newer)(a[i]) {
      ClashingPatternsDisjoint(older, newer, a[i]);
    }
    FilterKeepsNone(b, Matcher(older));
    FilterKeepsNone(a, Matcher(newer));
    assert a + [] == a;
    assert [] + b == b;
  }

  lemma GetDxColsIdempotent(allCols: seq<string>)
    ensures GetDxCols(GetDxCols(allCols)) == GetDxCols(allCols)
  {
    PrefixesClash();
    ClassifyIdempotent(allCols, Icd9Dx, Icd10Dx);
  }

  lemma GetProcColsIdempotent(allCols: seq<string>)
    ensures GetProcCols(GetProcCols(allCols)) == GetProcCols(allCols)
  {
    PrefixesClash();
    ClassifyIdempotent(allCols, Icd9Proc, Icd10Proc);
  }
}
