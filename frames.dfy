/** The column-table model shared by the pipeline: cells, rows, tables,
    pandas-style row selection and the errors pandas raises on them. */
module Frames {

  datatype Option<T> = None | Some(value: T)

  /** A cell: a missing entry (None/NaN), a text code, a number or a boolean. */
  datatype Value = Null | Str(s: string) | Int(i: int) | Bool(b: bool)

  /** A row maps column names to cells; a column the row does not mention reads as missing. */
  type Row = map<string, Value>

  /** A data frame: its column labels in order and its rows in order. */
  datatype Table = Table(columns: seq<string>, rows: seq<Row>)

  /** `KeyError` lists the column labels that were looked up and not found;
      `NoObjectsToConcatenate` is what `pd.concat` raises on an empty list. */
  datatype Error = KeyError(keys: seq<string>) | NoObjectsToConcatenate

  datatype Result<T> = Ok(value: T) | Err(error: Error)

  function Cell(r: Row, c: string): Value
  {
    if c in r then r[c] else Null
  }

  /** The number a cell stands for in pandas arithmetic and comparisons:
      `True`/`False` count as 1/0, a missing entry is NaN (no number). */
  function Num(v: Value): (n: Option<int>)
    ensures v.Null? || v.Str? ==> n.None?
  {
    match v
    case Int(i) => Some(i)
    case Bool(b) => Some(if b then 1 else 0)
    case _ => None
  }

  /** `cell == n`: false for NaN. */
  predicate NumEq(v: Value, n: int)
    ensures NumEq(v, n) ==> v.Int? || v.Bool?
    ensures v.Bool? && n == 1 ==> (NumEq(v, n) <==> v.b)
  {
    Num(v) == Some(n)
  }

  /** `cell.fillna(0)` read as a number. */
  function FillZero(v: Value): (n: int)
    ensures Num(v).Some? ==> n == Num(v).value
    ensures v.Null? ==> n == 0
  {
    match Num(v)
    case Some(n) => n
    case None => 0
  }

  /** `cell.isin(vals)`: only a text cell equal to one of the codes matches. */
  predicate IsIn(v: Value, vals: seq<string>)
    ensures IsIn(v, vals) ==> v.Str? && vals != []
  {
    v.Str? && v.s in vals
  }

  /** `df[cols].isin(vals).any(axis="columns")` for one row. */
  predicate IsInAny(r: Row, cols: seq<string>, vals: seq<string>)
    ensures IsInAny(r, cols, vals) ==> cols != [] && vals != []
  {
    exists j :: 0 <= j < |cols| && IsIn(Cell(r, cols[j]), vals)
  }

  function InCols(cols: seq<string>, vals: seq<string>): Row -> bool
  {
    (r: Row) => IsInAny(r, cols, vals)
  }

  lemma IsInAnyIff(r: Row, cols: seq<string>, vals: seq<string>)
    ensures IsInAny(r, cols, vals) <==> exists c :: c in cols && IsIn(Cell(r, c), vals)
  {
    if exists c :: c in cols && IsIn(Cell(r, c), vals) {
      var c :| c in cols && IsIn(Cell(r, c), vals);
      var j :| 0 <= j < |cols| && cols[j] == c;
    }
  }

  // ---------------------------------------------------------------------
  // Selection of elements satisfying a predicate, in order (boolean-mask indexing
  // `df[mask]` and list comprehensions with an `if`).

  function Filter<T>(s: seq<T>, p: T -> bool): (r: seq<T>)
    ensures |r| <= |s|
    ensures forall i :: 0 <= i < |r| ==> p(r[i])
  {
    if s == [] then []
    else if p(s[0]) then [s[0]] + Filter(s[1..], p)
    else Filter(s[1..], p)
  }

  /** `a` is `b` with some elements deleted, the rest in their order. */
  predicate IsSubsequence<T(==)>(a: seq<T>, b: seq<T>)
  {
    if a == [] then true
    else if b == [] then false
    else if a[0] == b[0] then IsSubsequence(a[1..], b[1..])
    else IsSubsequence(a, b[1..])
  }

  /** `r` is the selection of the elements of `s` that satisfy `p`: an
      order-preserving subsequence holding every such element as often as `s`
      does and nothing else. */
  ghost predicate Selects<T(!new)>(r: seq<T>, s: seq<T>, p: T -> bool)
  {
    && IsSubsequence(r, s)
    && forall x :: multiset(r)[x] == if p(x) then multiset(s)[x] else 0
  }

  lemma {:induction false} FilterMultiplicity<T>(s: seq<T>, p: T -> bool, x: T)
    ensures multiset(Filter(s, p))[x] == if p(x) then multiset(s)[x] else 0
  {
    if s != [] {
      FilterMultiplicity(s[1..], p, x);
      assert s == [s[0]] + s[1..];
    }
  }

  lemma {:induction false} FilterIsSubsequence<T>(s: seq<T>, p: T -> bool)
    ensures IsSubsequence(Filter(s, p), s)
  {
    if s != [] {
      FilterIsSubsequence(s[1..], p);
      if !p(s[0]) {
        SubsequenceOfTail(Filter(s[1..], p), s);
      }
    }
  }

  lemma {:induction false} SubsequenceOfTail<T>(a: seq<T>, b: seq<T>)
    requires b != [] && IsSubsequence(a, b[1..])
    ensures IsSubsequence(a, b)
    decreases |a| + |b|
  {
    if a != [] && a[0] == b[0] {
      SubsequenceDropHead(a, b[1..]);
    }
  }

  lemma {:induction false} SubsequenceDropHead<T>(a: seq<T>, b: seq<T>)
    requires a != [] && IsSubsequence(a, b)
    ensures IsSubsequence(a[1..], b)
    decreases |a| + |b|
  {
    if a[0] == b[0] {
      if a[1..] != [] {
        SubsequenceOfTail(a[1..], b);
      }
    } else {
      SubsequenceDropHead(a, b[1..]);
      if a[1..] != [] {
        SubsequenceOfTail(a[1..], b);
      }
    }
  }

  lemma FilterSelects<T(!new)>(s: seq<T>, p: T -> bool)
    ensures Selects(Filter(s, p), s, p)
  {
    FilterIsSubsequence(s, p);
    forall x ensures multiset(Filter(s, p))[x] == if p(x) then multiset(s)[x] else 0 {
      FilterMultiplicity(s, p, x);
    }
  }

  lemma FilterMembership<T>(s: seq<T>, p: T -> bool)
    ensures forall x :: x in Filter(s, p) <==> x in s && p(x)
  {
    forall x ensures x in Filter(s, p) <==> x in s && p(x) {
      FilterMultiplicity(s, p, x);
    }
  }

  lemma {:induction false} FilterKeepsAll<T>(s: seq<T>, p: T -> bool)
    requires forall i :: 0 <= i < |s| ==> p(s[i])
    ensures Filter(s, p) == s
  {
    if s != [] {
      FilterKeepsAll(s[1..], p);
    }
  }

  lemma {:induction false} FilterKeepsNone<T>(s: seq<T>, p: T -> bool)
    requires forall i :: 0 <= i < |s| ==> !p(s[i])
    ensures Filter(s, p) == []
  {
    if s != [] {
      FilterKeepsNone(s[1..], p);
    }
  }

  /** Selecting twice by the same predicate selects nothing more. */
  lemma FilterIdempotent<T>(s: seq<T>, p: T -> bool)
    ensures Filter(Filter(s, p), p) == Filter(s, p)
  {
    FilterKeepsAll(Filter(s, p), p);
  }

  lemma {:induction false} FilterAppend<T>(a: seq<T>, b: seq<T>, p: T -> bool)
    ensures Filter(a + b, p) == Filter(a, p) + Filter(b, p)
  {
    if a == [] {
      assert a + b == b;
    } else {
      FilterAppend(a[1..], b, p);
      assert (a + b)[0] == a[0] && (a + b)[1..] == a[1..] + b;
      if p(a[0]) {
        assert Filter(a + b, p) == [a[0]] + Filter(a[1..] + b, p);
        AppendAssociative([a[0]], Filter(a[1..], p), Filter(b, p));
      } else {
        assert Filter(a + b, p) == Filter(a[1..] + b, p);
      }
    }
  }

  lemma AppendAssociative<T>(a: seq<T>, b: seq<T>, c: seq<T>)
    ensures a + (b + c) == (a + b) + c
  {
  }

  /** Two successive selections are one selection by the conjunction. */
  lemma {:induction false} FilterFilter<T>(s: seq<T>, p: T -> bool, q: T -> bool, pq: T -> bool)
    requires forall x :: pq(x) == (p(x) && q(x))
    ensures Filter(Filter(s, p), q) == Filter(s, pq)
  {
    if s != [] {
      FilterFilter(s[1..], p, q, pq);
    }
  }

  lemma {:induction false} FilterCongruent<T>(s: seq<T>, p: T -> bool, q: T -> bool)
    requires forall i :: 0 <= i < |s| ==> p(s[i]) == q(s[i])
    ensures Filter(s, p) == Filter(s, q)
  {
    if s != [] {
      FilterCongruent(s[1..], p, q);
    }
  }

  /** Selections by two complementary predicates split the sequence. */
  lemma {:induction false} FilterPartition<T>(s: seq<T>, p: T -> bool, q: T -> bool)
    requires forall i :: 0 <= i < |s| ==> (p(s[i]) <==> !q(s[i]))
    ensures |Filter(s, p)| + |Filter(s, q)| == |s|
    ensures multiset(Filter(s, p)) + multiset(Filter(s, q)) == multiset(s)
  {
    if s != [] {
      FilterPartition(s[1..], p, q);
      assert s == [s[0]] + s[1..];
    }
  }

  function Where(t: Table, p: Row -> bool): Table
  {
    Table(t.columns, Filter(t.rows, p))
  }

  /** Every cell a row holds is under one of the table's labels. */
  predicate WellFormed(t: Table)
  {
    forall r, c :: r in t.rows && c in r ==> c in t.columns
  }

  /** A boolean-mask selection of a well-formed table is well formed. */
  lemma WhereWellFormed(t: Table, p: Row -> bool)
    requires WellFormed(t)
    ensures WellFormed(Where(t, p))
  {
    FilterMembership(t.rows, p);
  }

  /** The labels that `subset` names and the table does not have, in `subset` order. */
  function Missing(t: Table, subset: seq<string>): (m: seq<string>)
    ensures forall c :: c in m <==> c in subset && c !in t.columns
    ensures m == [] <==> forall c :: c in subset ==> c in t.columns
  {
    var absent := (c: string) => c !in t.columns;
    FilterMembership(subset, absent);
    assert (forall c :: c in subset ==> c in t.columns) ==> Filter(subset, absent) == [] by {
      if forall c :: c in subset ==> c in t.columns {
        FilterKeepsNone(subset, absent);
      }
    }
    Filter(subset, absent)
  }

  function MapSeq<T, U>(s: seq<T>, f: T -> U): (r: seq<U>)
    ensures |r| == |s|
    ensures forall i :: 0 <= i < |s| ==> r[i] == f(s[i])
  {
    seq(|s|, i requires 0 <= i < |s| => f(s[i]))
  }

  /** The label list after `df[name] = ...`: a new label goes last. */
  function AddLabel(columns: seq<string>, name: string): (r: seq<string>)
    ensures forall c :: c in r <==> c in columns || c == name
    ensures columns <= r
    ensures name !in columns ==> r == columns + [name]
  {
    if name in columns then columns else columns + [name]
  }

  /** The labels after `df[name] = ...` for each name in turn. */
  function AddLabels(columns: seq<string>, names: seq<string>): (r: seq<string>)
    ensures forall c :: c in r <==> c in columns || c in names
    ensures columns <= r
    decreases names
  {
    if names == [] then columns else AddLabels(AddLabel(columns, names[0]), names[1..])
  }

  lemma AddLabelsCons(columns: seq<string>, name: string, rest: seq<string>)
    ensures AddLabels(columns, [name] + rest) == AddLabels(AddLabel(columns, name), rest)
  {
    assert ([name] + rest)[1..] == rest;
  }

  predicate Distinct<T(==)>(s: seq<T>)
  {
    forall i, j :: 0 <= i < j < |s| ==> s[i] != s[j]
  }

  /** Distinct labels none of which the frame has are appended in their order. */
  lemma {:induction false} AddLabelsFresh(columns: seq<string>, names: seq<string>)
    requires Distinct(names)
    requires forall c :: c in names ==> c !in columns
    ensures AddLabels(columns, names) == columns + names
    decreases names
  {
    if names != [] {
      var rest := names[1..];
      assert forall c :: c in rest ==> c !in columns + [names[0]] by {
        forall c | c in rest ensures c !in columns + [names[0]] {
          var k :| 0 <= k < |rest| && rest[k] == c;
          assert names[k + 1] == c;
        }
      }
      assert Distinct(rest) by {
        forall i, j | 0 <= i < j < |rest| ensures rest[i] != rest[j] {
          assert rest[i] == names[i + 1] && rest[j] == names[j + 1];
        }
      }
      AddLabelsFresh(columns + [names[0]], rest);
      AppendAssociative(columns, [names[0]], rest);
      assert names == [names[0]] + rest;
    }
  }

  /** The rows after `df[name] = expr`, where `expr` is computed row by row. */
  function AddColumn(rows: seq<Row>, name: string, f: Row -> Value): (r: seq<Row>)
    ensures |r| == |rows|
    ensures forall i :: 0 <= i < |rows| ==> r[i] == rows[i][name := f(rows[i])]
  {
    MapSeq(rows, (row: Row) => row[name := f(row)])
  }

  /** Assigning a computed column to a well-formed table leaves it well formed. */
  lemma AddColumnWellFormed(t: Table, name: string, f: Row -> Value)
    requires WellFormed(t)
    ensures WellFormed(Table(AddLabel(t.columns, name), AddColumn(t.rows, name, f)))
  {
    var rows := AddColumn(t.rows, name, f);
    forall r, c | r in rows && c in r ensures c in AddLabel(t.columns, name) {
      var i :| 0 <= i < |rows| && rows[i] == r;
      assert c == name || c in t.rows[i];
    }
  }

  /** A data frame a script changes in place. */
  class Frame {
    var columns: seq<string>
    var rows: seq<Row>

    constructor (t: Table)
      ensures columns == t.columns && rows == t.rows
    {
      columns := t.columns;
      rows := t.rows;
    }

    function Snapshot(): Table
      reads this
    {
      Table(columns, rows)
    }

    /** `df[name] = values`: every row gets its value under `name`, all other cells stay. */
    method SetColumn(name: string, values: seq<Value>)
      requires |values| == |rows|
      modifies this
      ensures columns == AddLabel(old(columns), name)
      ensures |rows| == |old(rows)|
      ensures forall i :: 0 <= i < |rows| ==> rows[i] == old(rows)[i][name := values[i]]
      ensures forall i, c :: 0 <= i < |rows| && c != name ==> Cell(rows[i], c) == Cell(old(rows)[i], c)
    {
      var before := rows;
      rows := seq(|before|, i requires 0 <= i < |before| => before[i][name := values[i]]);
      columns := AddLabel(columns, name);
    }

    /** `df[name] = expr` for an expression evaluated on each row. */
    method Assign(name: string, f: Row -> Value)
      modifies this
      ensures columns == AddLabel(old(columns), name)
      ensures rows == AddColumn(old(rows), name, f)
    {
      SetColumn(name, MapSeq(rows, f));
    }
  }
}
