/** Comparison of the file checksums of two signatures. */
module ChecksumDiff {

  /** A file name and its checksum. */
  type Item = (string, string)

  /** A file name, its old and its new checksum. */
  type Change = (string, string, string)

  function Olds(changed: seq<Change>): seq<Item> {
    seq(|changed|, i requires 0 <= i < |changed| => (changed[i].0, changed[i].1))
  }

  function News(changed: seq<Change>): seq<Item> {
    seq(|changed|, i requires 0 <= i < |changed| => (changed[i].0, changed[i].2))
  }

  function FileNames(items: seq<Item>): seq<string> {
    seq(|items|, i requires 0 <= i < |items| => items[i].0)
  }

  lemma ChangedAppend(changed: seq<Change>, c: Change)
    ensures Olds(changed + [c]) == Olds(changed) + [(c.0, c.1)]
    ensures News(changed + [c]) == News(changed) + [(c.0, c.2)]
  {
  }

  /** What each list accounts for: together with the new and old sides of the changes, `added` is what b has
      more than a, and `removed` what a has more than b; a name is not on both lists, and a changed file
      has another checksum. */
  ghost predicate Explains(a: seq<Item>, b: seq<Item>, changed: seq<Change>, added: seq<Item>, removed: seq<Item>) {
    && multiset(added) + multiset(News(changed)) == multiset(b) - multiset(a)
    && multiset(removed) + multiset(Olds(changed)) == multiset(a) - multiset(b)
    && (forall x, y :: x in added && y in removed ==> x.0 != y.0)
    && (forall c: Change :: c in changed ==> c.1 != c.2)
  }

  /** Taking the removed and the old sides of the changes out of a, and putting the added and the new sides
      in, gives b. */
  lemma Conserved(a: seq<Item>, b: seq<Item>, changed: seq<Change>, added: seq<Item>, removed: seq<Item>)
    requires Explains(a, b, changed, added, removed)
    ensures multiset(removed) + multiset(Olds(changed)) <= multiset(a)
    ensures multiset(a) - (multiset(removed) + multiset(Olds(changed))) + (multiset(added) + multiset(News(changed))) == multiset(b)
  {
    var left := multiset(a) - (multiset(removed) + multiset(Olds(changed))) + (multiset(added) + multiset(News(changed)));
    assert forall x :: left[x] == multiset(b)[x];
  }

  /** Two equal lists give nothing, and only lists with the same items do. */
  lemma NothingToReport(a: seq<Item>, b: seq<Item>, changed: seq<Change>, added: seq<Item>, removed: seq<Item>)
    requires Explains(a, b, changed, added, removed)
    ensures changed == [] && added == [] && removed == [] <==> multiset(a) == multiset(b)
  {
    if multiset(a) == multiset(b) {
      var none: multiset<Item> := multiset{};
      assert multiset(a) - multiset(b) == none && multiset(b) - multiset(a) == none;
      assert |multiset(added) + multiset(News(changed))| == 0;
      assert |multiset(removed) + multiset(Olds(changed))| == 0;
    }
    if changed == [] && added == [] && removed == [] {
      assert Olds(changed) == [] && News(changed) == [];
      Conserved(a, b, changed, added, removed);
    }
  }

  function OneLess(count: multiset<Item>, x: Item): multiset<Item>
    requires count[x] > 0
  {
    count[x := count[x] - 1]
  }

  /** The position of the first item of that name. */
  method FindName(items: seq<Item>, name: string) returns (i: int)
    ensures -1 <= i < |items|
    ensures i >= 0 ==> items[i].0 == name
    ensures i < 0 ==> forall x :: x in items ==> x.0 != name
  {
    i := 0;
    while i < |items|
      invariant 0 <= i <= |items|
      invariant forall k :: 0 <= k < i ==> items[k].0 != name
    {
      if items[i].0 == name {
        return;
      }
      i := i + 1;
    }
    i := -1;
  }

  /** The loop over b: what b has more than a. The counters of the source may go below zero, where these
      stay at zero; only counts above zero are looked at. */
  method CollectAdded(a: seq<Item>, b: seq<Item>) returns (added: seq<Item>)
    ensures multiset(added) == multiset(b) - multiset(a)
  {
    hide *;
    var count := multiset(b) - multiset(a);
    added := [];
    AheadAtEnds(b, a, count);
    CollectingAtEnds(a, b, count, added);
    for i := 0 to |b|
      invariant Collecting(a, b, count, added) && Ahead(count, b[i..])
    {
      var x := b[i];
      assert b[i..] == [x] + b[i + 1..];
      LookedAt(count, x, b[i + 1..]);
      if count[x] > 0 {
        CollectOne(a, b, count, added, x);
        count := OneLess(count, x);
        added := added + [x];
      }
    }
    AheadAtEnds(b, a, count);
    CollectingAtEnds(a, b, count, added);
  }

  /** The state of that loop: what has been added and what `count` still holds are what b has more. */
  ghost predicate Collecting(a: seq<Item>, b: seq<Item>, count: multiset<Item>, added: seq<Item>) {
    count + multiset(added) == multiset(b) - multiset(a)
  }

  lemma CollectingAtEnds(a: seq<Item>, b: seq<Item>, count: multiset<Item>, added: seq<Item>)
    ensures Collecting(a, b, multiset(b) - multiset(a), [])
    ensures Collecting(a, b, count, added) && count == multiset{} ==> multiset(added) == multiset(b) - multiset(a)
  {
  }

  lemma CollectOne(a: seq<Item>, b: seq<Item>, count: multiset<Item>, added: seq<Item>, x: Item)
    requires Collecting(a, b, count, added) && count[x] > 0
    ensures Collecting(a, b, OneLess(count, x), added + [x])
  {
    assert OneLess(count, x) + multiset(added + [x]) == count + multiset(added);
  }

  /** The state of the loop over a: `count` is what a has more than b and is still to be looked at. */
  ghost predicate Pairing(a: seq<Item>, b: seq<Item>, count: multiset<Item>, changed: seq<Change>, added: seq<Item>, removed: seq<Item>) {
    && count + (multiset(removed) + multiset(Olds(changed))) == multiset(a) - multiset(b)
    && multiset(added) + multiset(News(changed)) == multiset(b) - multiset(a)
    && (forall x, y :: x in added && y in removed ==> x.0 != y.0)
    && (forall c: Change :: c in changed ==> c.1 != c.2)
  }

  lemma PairOne(a: seq<Item>, b: seq<Item>, count: multiset<Item>, changed: seq<Change>, added: seq<Item>, removed: seq<Item>,
                x: Item, k: nat)
    requires Pairing(a, b, count, changed, added, removed)
    requires count[x] > 0 && k < |added| && added[k].0 == x.0
    ensures Pairing(a, b, OneLess(count, x), changed + [(x.0, x.1, added[k].1)], added[..k] + added[k + 1..], removed)
  {
    var y := added[k];
    ChangedAppend(changed, (x.0, x.1, y.1));
    RemovedAt(added, k);
    assert y == (x.0, y.1) && x == (x.0, x.1);
    assert x.1 != y.1 by {
      assert y in multiset(added);
      assert (multiset(a) - multiset(b))[x] > 0;
      assert (multiset(b) - multiset(a))[y] > 0;
    }
    assert count == OneLess(count, x) + multiset{x};
    hide Olds, News;
  }

  lemma RemoveOne(a: seq<Item>, b: seq<Item>, count: multiset<Item>, changed: seq<Change>, added: seq<Item>, removed: seq<Item>, x: Item)
    requires Pairing(a, b, count, changed, added, removed)
    requires count[x] > 0 && forall y :: y in added ==> y.0 != x.0
    ensures Pairing(a, b, OneLess(count, x), changed, added, removed + [x])
  {
    hide Olds, News;
    assert count == OneLess(count, x) + multiset{x};
  }

  /** The loop over a: every surplus item is paired with an added one of its name, or is removed. */
  method PairRemoved(a: seq<Item>, b: seq<Item>, surplus: seq<Item>) returns (changed: seq<Change>, added: seq<Item>, removed: seq<Item>)
    requires multiset(surplus) == multiset(b) - multiset(a)
    ensures Explains(a, b, changed, added, removed)
  {
    hide *;
    var count := multiset(a) - multiset(b);
    changed, added, removed := [], surplus, [];
    PairingStarts(a, b, surplus);
    AheadAtEnds(a, b, count);
    for i := 0 to |a|
      invariant Pairing(a, b, count, changed, added, removed)
      invariant Ahead(count, a[i..])
    {
      var x := a[i];
      assert a[i..] == [x] + a[i + 1..];
      LookedAt(count, x, a[i + 1..]);
      if count[x] > 0 {
        var k := FindName(added, x.0);
        if k >= 0 {
          PairOne(a, b, count, changed, added, removed, x, k);
          changed, added := changed + [(x.0, x.1, added[k].1)], added[..k] + added[k + 1..];
        } else {
          RemoveOne(a, b, count, changed, added, removed, x);
          removed := removed + [x];
        }
        count := OneLess(count, x);
      }
    }
    AheadAtEnds(a, b, count);
    PairingEnds(a, b, changed, added, removed);
  }

  /** Nothing is counted that is not still ahead. */
  ghost predicate Ahead(count: multiset<Item>, rest: seq<Item>) {
    count <= multiset(rest)
  }

  lemma AheadAtEnds(a: seq<Item>, b: seq<Item>, count: multiset<Item>)
    ensures Ahead(multiset(a) - multiset(b), a[0..])
    ensures Ahead(count, a[|a|..]) ==> count == multiset{}
  {
    assert a[0..] == a && a[|a|..] == [];
  }

  lemma LookedAt(count: multiset<Item>, x: Item, rest: seq<Item>)
    requires Ahead(count, [x] + rest)
    ensures Ahead(if count[x] > 0 then OneLess(count, x) else count, rest)
  {
    var left := if count[x] > 0 then OneLess(count, x) else count;
    assert multiset([x] + rest) == multiset{x} + multiset(rest);
    assert forall y :: left[y] <= multiset(rest)[y];
  }

  lemma PairingStarts(a: seq<Item>, b: seq<Item>, surplus: seq<Item>)
    requires multiset(surplus) == multiset(b) - multiset(a)
    ensures Pairing(a, b, multiset(a) - multiset(b), [], surplus, [])
  {
  }

  lemma PairingEnds(a: seq<Item>, b: seq<Item>, changed: seq<Change>, added: seq<Item>, removed: seq<Item>)
    requires Pairing(a, b, multiset{}, changed, added, removed)
    ensures Explains(a, b, changed, added, removed)
  {
  }

  lemma RemovedAt(items: seq<Item>, k: nat)
    requires k < |items|
    ensures var r := items[..k] + items[k + 1..];
      multiset(r) + multiset{items[k]} == multiset(items) && forall x :: x in r ==> x in items
  {
    assert items == items[..k] + [items[k]] + items[k + 1..];
  }

  /** file_checksums_diff: the lists of names it returns come from lists that explain the difference. */
  method FileChecksumsDiff(a: seq<Item>, b: seq<Item>) returns (changed: seq<Change>, added: seq<string>, removed: seq<string>)
    ensures exists plus, minus :: Explains(a, b, changed, plus, minus) && added == FileNames(plus) && removed == FileNames(minus)
    ensures forall n :: !(n in added && n in removed)
  {
    var surplus := CollectAdded(a, b);
    var plus, minus;
    changed, plus, minus := PairRemoved(a, b, surplus);
    added, removed := FileNames(plus), FileNames(minus);
    forall n | n in added ensures n !in removed {
      var i :| 0 <= i < |plus| && plus[i].0 == n;
      assert plus[i] in plus;
      forall k | 0 <= k < |minus| ensures minus[k].0 != n {
        assert minus[k] in minus;
      }
    }
  }
}
