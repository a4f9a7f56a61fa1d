/** Python's string order and the sorted attribute listing that `dir()` returns. */
module PythonDir {

  /** `a < b` on Python strings: lexicographic by character code. */
  predicate Below(a: string, b: string)
    ensures Below(a, b) ==> a != b
  {
    if a == [] then b != []
    else if b == [] then false
    else if a[0] == b[0] then Below(a[1..], b[1..])
    else a[0] < b[0]
  }

  lemma {:induction false} BelowIrreflexive(a: string)
    ensures !Below(a, a)
  {
    if a != [] {
      BelowIrreflexive(a[1..]);
    }
  }

  lemma {:induction false} BelowTransitive(a: string, b: string, c: string)
    requires Below(a, b) && Below(b, c)
    ensures Below(a, c)
  {
    if a != [] && b != [] && c != [] && a[0] == b[0] && b[0] == c[0] {
      BelowTransitive(a[1..], b[1..], c[1..]);
    }
  }

  lemma {:induction false} BelowTotal(a: string, b: string)
    ensures a == b || Below(a, b) || Below(b, a)
  {
    if a != [] && b != [] && a[0] == b[0] {
      BelowTotal(a[1..], b[1..]);
      if a[1..] == b[1..] {
        assert a == [a[0]] + a[1..] && b == [b[0]] + b[1..];
      }
    }
  }

  lemma {:induction false} BelowAsymmetric(a: string, b: string)
    requires Below(a, b)
    ensures !Below(b, a)
  {
    if Below(b, a) {
      BelowTransitive(a, b, a);
      BelowIrreflexive(a);
    }
  }

  /** `a` and `b` agree on their first `k` characters and differ at position `k`, where `a` has the smaller code. */
  lemma {:induction false} BelowAt(a: string, b: string, k: nat)
    requires k < |a| && k < |b| && a[..k] == b[..k] && a[k] < b[k]
    ensures Below(a, b)
  {
    if k > 0 {
      assert a[0] == a[..k][0] == b[..k][0] == b[0];
      assert a[1..][..k - 1] == a[..k][1..] == b[..k][1..] == b[1..][..k - 1];
      BelowAt(a[1..], b[1..], k - 1);
    }
  }

  /** Ascending with ties allowed. */
  predicate Ascending(s: seq<string>)
  {
    forall i, j :: 0 <= i < j < |s| ==> !Below(s[j], s[i])
  }

  function Insert(x: string, s: seq<string>): (r: seq<string>)
    ensures |r| == |s| + 1
    ensures forall y :: y in r <==> y == x || y in s
  {
    if s == [] then [x]
    else if Below(s[0], x) then [s[0]] + Insert(x, s[1..])
    else [x] + s
  }

  /** `sorted(names)` (an insertion sort; the order it produces is the only ascending one). */
  function Sort(s: seq<string>): (r: seq<string>)
    ensures |r| == |s|
    ensures forall y :: y in r <==> y in s
  {
    if s == [] then [] else Insert(s[0], Sort(s[1..]))
  }

  lemma AscendingCons(h: string, t: seq<string>)
    requires Ascending(t)
    requires forall j :: 0 <= j < |t| ==> !Below(t[j], h)
    ensures Ascending([h] + t)
  {
    var s := [h] + t;
    forall i, j | 0 <= i < j < |s| ensures !Below(s[j], s[i]) {
      assert s[j] == t[j - 1];
      if i > 0 {
        assert s[i] == t[i - 1];
      }
    }
  }

  lemma {:induction false} InsertPermutes(x: string, s: seq<string>)
    ensures multiset(Insert(x, s)) == multiset(s) + multiset{x}
  {
    if s != [] && Below(s[0], x) {
      InsertPermutes(x, s[1..]);
      assert s == [s[0]] + s[1..];
    }
  }

  lemma {:induction false} InsertAscending(x: string, s: seq<string>)
    requires Ascending(s)
    ensures Ascending(Insert(x, s))
  {
    if s == [] {
    } else if Below(s[0], x) {
      InsertAscending(x, s[1..]);
      InsertPermutes(x, s[1..]);
      var t := Insert(x, s[1..]);
      forall j | 0 <= j < |t| ensures !Below(t[j], s[0]) {
        assert t[j] in multiset(s[1..]) + multiset{x};
        if t[j] == x {
          BelowAsymmetric(s[0], x);
        } else {
          assert t[j] in s[1..];
          var i :| 0 <= i < |s[1..]| && s[1..][i] == t[j];
          assert s[i + 1] == t[j];
        }
      }
      AscendingCons(s[0], t);
    } else {
      BelowTotal(s[0], x);
      BelowIrreflexive(x);
      forall j | 0 <= j < |s| ensures !Below(s[j], x) {
        if Below(s[j], x) && Below(x, s[0]) {
          BelowTransitive(s[j], x, s[0]);
        }
      }
      AscendingCons(x, s);
    }
  }

  lemma {:induction false} SortFacts(s: seq<string>)
    ensures Ascending(Sort(s))
    ensures multiset(Sort(s)) == multiset(s)
  {
    if s != [] {
      SortFacts(s[1..]);
      InsertAscending(s[0], Sort(s[1..]));
      InsertPermutes(s[0], Sort(s[1..]));
      assert s == [s[0]] + s[1..];
    }
  }

  /** There is only one ascending arrangement of a multiset of strings. */
  lemma {:induction false} AscendingUnique(a: seq<string>, b: seq<string>)
    requires Ascending(a) && Ascending(b) && multiset(a) == multiset(b)
    ensures a == b
  {
    if a != [] {
      assert b != [] by {
        assert a[0] in multiset(a);
      }
      assert a[0] == b[0] by {
        assert a[0] in multiset(b) && b[0] in multiset(a);
        var i :| 0 <= i < |b| && b[i] == a[0];
        var j :| 0 <= j < |a| && a[j] == b[0];
        BelowTotal(a[0], b[0]);
        BelowIrreflexive(a[0]);
        BelowIrreflexive(b[0]);
      }
      SameTails(a, b);
      AscendingUnique(a[1..], b[1..]);
    }
  }

  /** Removing equal first elements from two permutations of each other leaves permutations. */
  lemma SameTails(a: seq<string>, b: seq<string>)
    requires a != [] && b != [] && a[0] == b[0] && multiset(a) == multiset(b)
    ensures multiset(a[1..]) == multiset(b[1..])
  {
    assert a == [a[0]] + a[1..] && b == [b[0]] + b[1..];
    assert multiset(a) == multiset([a[0]]) + multiset(a[1..]);
    assert multiset(b) == multiset([b[0]]) + multiset(b[1..]);
    forall x ensures multiset(a[1..])[x] == multiset(b[1..])[x] {
      assert multiset(a)[x] == multiset([a[0]])[x] + multiset(a[1..])[x];
      assert multiset(b)[x] == multiset([b[0]])[x] + multiset(b[1..])[x];
    }
  }

  /** `dir()` lists attribute names in sorted order. */
  function Dir(attributes: seq<string>): (r: seq<string>)
    ensures Ascending(r) && multiset(r) == multiset(attributes)
  {
    SortFacts(attributes);
    Sort(attributes)
  }

  /** Whatever order the attributes are declared in, `dir()` lists them the same way. */
  lemma DirIgnoresDeclarationOrder(a: seq<string>, b: seq<string>)
    requires multiset(a) == multiset(b)
    ensures Dir(a) == Dir(b)
  {
    AscendingUnique(Dir(a), Dir(b));
  }

  predicate StartsWith(s: string, prefix: string)
  {
    |prefix| <= |s| && s[..|prefix|] == prefix
  }
}
