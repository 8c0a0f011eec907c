/** Lexicographic order on strings, and the ascending arrangement of a set of strings. */
module SortedNames {

  /** a comes before b, or equals it. */
  predicate Below(a: string, b: string) {
    a == "" || (b != "" && (a[0] < b[0] || (a[0] == b[0] && Below(a[1..], b[1..]))))
  }

  /** Alike up to place k, and smaller there. */
  ghost predicate SmallerAt(a: string, b: string, k: nat) {
    k < |a| && k < |b| && a[k] < b[k] && forall i :: 0 <= i < k ==> a[i] == b[i]
  }

  ghost predicate Starts(a: string, b: string) {
    |a| <= |b| && forall i :: 0 <= i < |a| ==> a[i] == b[i]
  }

  /** a is where b starts, or has the smaller character where the two first differ. */
  lemma {:induction false} BelowMeans(a: string, b: string)
    ensures Below(a, b) <==> Starts(a, b) || exists k :: SmallerAt(a, b, k)
  {
    if a != "" && b != "" {
      if a[0] < b[0] {
        assert SmallerAt(a, b, 0);
      } else if a[0] == b[0] {
        BelowMeans(a[1..], b[1..]);
        SameHead(a, b);
      }
    }
  }

  lemma SameHead(a: string, b: string)
    requires a != "" && b != "" && a[0] == b[0]
    ensures Starts(a, b) <==> Starts(a[1..], b[1..])
    ensures (exists k :: SmallerAt(a, b, k)) <==> exists k :: SmallerAt(a[1..], b[1..], k)
  {
    var x, y := a[1..], b[1..];
    assert forall i :: 0 < i < |a| ==> a[i] == x[i - 1];
    assert forall i :: 0 < i < |b| ==> b[i] == y[i - 1];
    forall k: nat | SmallerAt(a, b, k) ensures exists j :: SmallerAt(x, y, j) {
      assert forall i :: 0 <= i < k - 1 ==> x[i] == a[i + 1] && y[i] == b[i + 1];
      assert SmallerAt(x, y, k - 1);
    }
    forall j: nat | SmallerAt(x, y, j) ensures exists k :: SmallerAt(a, b, k) {
      assert SmallerAt(a, b, j + 1);
    }
    assert Starts(a, b) ==> forall i :: 0 <= i < |x| ==> x[i] == a[i + 1] && y[i] == b[i + 1];
  }

  lemma {:induction false} BelowTotal(a: string, b: string)
    ensures Below(a, b) || Below(b, a)
    ensures Below(a, b) && Below(b, a) ==> a == b
  {
    if a != "" && b != "" {
      BelowTotal(a[1..], b[1..]);
      assert a == [a[0]] + a[1..] && b == [b[0]] + b[1..];
    }
  }

  lemma {:induction false} BelowTransitive(a: string, b: string, c: string)
    requires Below(a, b) && Below(b, c)
    ensures Below(a, c)
  {
    if a != "" && a[0] == b[0] && b[0] == c[0] {
      BelowTransitive(a[1..], b[1..], c[1..]);
    }
  }

  predicate IsLeast(m: string, s: set<string>) {
    m in s && forall x :: x in s ==> Below(m, x)
  }

  lemma {:induction false} LeastExists(s: set<string>) returns (m: string)
    requires s != {}
    ensures IsLeast(m, s)
  {
    var x :| x in s;
    if s == {x} {
      m := x;
      BelowTotal(x, x);
    } else {
      var rest := s - {x};
      assert s == rest + {x};
      var m' := LeastExists(rest);
      BelowTotal(x, m');
      BelowTotal(x, x);
      m := if Below(x, m') then x else m';
      forall y | y in s ensures Below(m, y) {
        if y != x && m == x {
          BelowTransitive(x, m', y);
        }
      }
    }
  }

  lemma LeastUnique(s: set<string>)
    ensures s != {} ==> exists m :: IsLeast(m, s)
    ensures forall m, m' :: IsLeast(m, s) && IsLeast(m', s) ==> m == m'
  {
    if s != {} {
      var m := LeastExists(s);
    }
    forall m, m' | IsLeast(m, s) && IsLeast(m', s) ensures m == m' {
      BelowTotal(m, m');
    }
  }

  /** The members of s, least first. */
  function Sorted(s: set<string>): (r: seq<string>)
    ensures forall x :: x in r <==> x in s
    ensures |r| == |s|
  {
    if s == {} then []
    else
      LeastUnique(s);
      var m :| IsLeast(m, s);
      [m] + Sorted(s - {m})
  }

  lemma SortedUnfold(s: set<string>, m: string)
    requires IsLeast(m, s)
    ensures Sorted(s) == [m] + Sorted(s - {m})
  {
    hide Below;
    LeastUnique(s);
  }

  predicate Ascending(r: seq<string>) {
    forall i, j :: 0 <= i < j < |r| ==> Below(r[i], r[j]) && r[i] != r[j]
  }

  lemma {:induction false} SortedAscending(s: set<string>)
    ensures Ascending(Sorted(s))
  {
    hide Below, Sorted;
    if s == {} {
      assert |Sorted(s)| == 0;
    } else {
      var m := LeastExists(s);
      SortedUnfold(s, m);
      SortedAscending(s - {m});
      var rest := Sorted(s - {m});
      forall j | 0 <= j < |rest| ensures Below(m, rest[j]) && m != rest[j] {
        assert rest[j] in rest;
      }
    }
  }

  /** There is only one ascending arrangement, whatever order the set was walked in. */
  lemma {:induction false} AscendingUnique(s: set<string>, r: seq<string>)
    requires Ascending(r)
    requires forall x :: x in r <==> x in s
    ensures r == Sorted(s)
  {
    hide Below, Sorted;
    if r == [] {
      assert forall x :: x in s ==> x in r;
      assert s == {};
      assert |Sorted(s)| == 0;
    } else {
      var m, rest := r[0], r[1..];
      assert r == [m] + rest;
      HeadIsLeast(s, r);
      SortedUnfold(s, m);
      forall x ensures x in rest <==> x in s - {m} {
        assert x in r <==> x == m || x in rest;
      }
      AscendingUnique(s - {m}, rest);
    }
  }

  lemma HeadIsLeast(s: set<string>, r: seq<string>)
    requires Ascending(r) && r != []
    requires forall x :: x in r <==> x in s
    ensures IsLeast(r[0], s)
    ensures r[0] !in r[1..]
  {
    hide Below;
    BelowTotal(r[0], r[0]);
    forall x | x in s ensures Below(r[0], x) {
      assert x in r;
    }
    assert r[0] in r;
  }
}
