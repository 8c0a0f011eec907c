/** Sequences without repetition, and taking out one occurrence. */
module Sequences {

  predicate NoDuplicates<T(==)>(s: seq<T>) {
    forall i, j :: 0 <= i < j < |s| ==> s[i] != s[j]
  }

  /** s.remove(x), for an x that need not be there. */
  function RemoveFirst<T(==)>(s: seq<T>, x: T): seq<T> {
    if s == [] then []
    else if s[0] == x then s[1..]
    else [s[0]] + RemoveFirst(s[1..], x)
  }

  lemma {:induction false} RemoveFirstSubset<T>(s: seq<T>, x: T)
    requires NoDuplicates(s)
    ensures NoDuplicates(RemoveFirst(s, x))
    ensures forall y :: y in RemoveFirst(s, x) <==> y in s && y != x
  {
    if s != [] {
      RemoveFirstSubset(s[1..], x);
      assert s == [s[0]] + s[1..];
      if s[0] != x {
        var r := RemoveFirst(s[1..], x);
        forall j | 0 <= j < |r| ensures r[j] != s[0] {
          assert r[j] in r;
        }
      }
    }
  }

  lemma {:induction false} RemoveFirstIn<T>(s: seq<T>, x: T)
    ensures forall y :: y in RemoveFirst(s, x) ==> y in s
  {
    if s != [] && s[0] != x {
      RemoveFirstIn(s[1..], x);
    }
  }
}
