/** Choice among the recipe files that provide a target. */
module Providers {
  import opened Options
  import opened Sequences
  import opened SortedNames

  type Name = string
  type Fn = s: string | s != "" witness "recipe"
  type Version = (string, string, string)

  /** A PREFERRED_VERSION, taken apart. */
  datatype Constraint = Constraint(e: Option<string>, v: string, r: Option<string>)

  /** What the choice looks at. `vercmp` is the comparison of versions. */
  datatype Cache = Cache(
    pkgFn: Fn -> Name,
    priority: Fn -> int,
    preference: Fn -> int,
    version: Fn -> Version,
    vercmp: (Version, Version) -> int,
    wanted: Name -> Option<Constraint>)
  {
    /** vercmp is a total preorder. */
    ghost predicate Ordered() {
      && (forall a, b :: vercmp(a, b) < 0 <==> vercmp(b, a) > 0)
      && (forall a, b, c :: vercmp(a, b) <= 0 && vercmp(b, c) <= 0 ==> vercmp(a, c) <= 0)
    }
  }

  // ---- sorting by priority ----

  /** The files with the given key, in order. */
  function Where(files: seq<Fn>, key: Fn -> int, k: int): seq<Fn> {
    if files == [] then []
    else (if key(files[0]) == k then [files[0]] else []) + Where(files[1..], key, k)
  }

  lemma {:induction false} WhereIn(files: seq<Fn>, key: Fn -> int, k: int)
    ensures forall f :: f in Where(files, key, k) <==> f in files && key(f) == k
  {
    if files != [] {
      WhereIn(files[1..], key, k);
      assert files == [files[0]] + files[1..];
    }
  }

  function KeysOf(files: seq<Fn>, key: Fn -> int): set<int> {
    set f | f in files :: key(f)
  }

  predicate IsLeast(m: int, s: set<int>) {
    m in s && forall x :: x in s ==> m <= x
  }

  lemma LeastExists(s: set<int>)
    requires s != {}
    ensures exists m :: IsLeast(m, s)
  {
    assert (forall x :: x !in s) ==> s == {};
    var x :| x in s;
    if s == {x} {
      assert IsLeast(x, s);
    } else {
      var rest := s - {x};
      assert s == rest + {x};
      LeastExists(rest);
      var m :| IsLeast(m, rest);
      assert IsLeast(if m <= x then m else x, s);
    }
  }

  predicate Rising(s: seq<int>) {
    forall i, j :: 0 <= i < j < |s| ==> s[i] < s[j]
  }

  /** sorted(s) */
  function Ascending(s: set<int>): (r: seq<int>)
    ensures forall x :: x in r <==> x in s
    ensures Rising(r)
  {
    if s == {} then []
    else
      LeastExists(s);
      LeastUnique(s);
      var m :| IsLeast(m, s);
      RisingCons(m, s, Ascending(s - {m}));
      [m] + Ascending(s - {m})
  }

  lemma LeastUnique(s: set<int>)
    ensures forall m, m' :: IsLeast(m, s) && IsLeast(m', s) ==> m == m'
  {
  }

  lemma RisingCons(m: int, s: set<int>, rest: seq<int>)
    requires IsLeast(m, s) && Rising(rest) && forall x :: x in rest <==> x in s - {m}
    ensures Rising([m] + rest) && forall x :: x in [m] + rest <==> x in s
  {
    forall i | 0 <= i < |rest| ensures m < rest[i] {
      assert rest[i] in rest;
    }
  }

  /** The files by key, in the order of the keys. */
  function Buckets(files: seq<Fn>, key: Fn -> int, ks: seq<int>): seq<Fn> {
    if ks == [] then [] else Where(files, key, ks[0]) + Buckets(files, key, ks[1..])
  }

  /** The files of one priority, by ascending preference. */
  function PriorityGroup(c: Cache, files: seq<Fn>, pri: int): seq<Fn> {
    var group := Where(files, c.priority, pri);
    Buckets(group, c.preference, Ascending(KeysOf(group, c.preference)))
  }

  /** One group for each priority, the last one first. */
  function Groups(c: Cache, files: seq<Fn>, pris: seq<int>): (r: seq<seq<Fn>>)
    ensures |r| == |pris|
  {
    if pris == [] then [] else Groups(c, files, pris[1..]) + [PriorityGroup(c, files, pris[0])]
  }

  function ByPriority(c: Cache, files: seq<Fn>): seq<seq<Fn>> {
    Groups(c, files, Ascending(KeysOf(files, c.priority)))
  }

  lemma {:induction false} WhereAppend(files: seq<Fn>, f: Fn, key: Fn -> int, k: int)
    ensures Where(files + [f], key, k) == Where(files, key, k) + if key(f) == k then [f] else []
  {
    if files == [] {
      assert [] + [f] == [f];
      assert [f][1..] == [];
    } else {
      assert (files + [f])[1..] == files[1..] + [f] && (files + [f])[0] == files[0];
      WhereAppend(files[1..], f, key, k);
      var head := if key(files[0]) == k then [files[0]] else [];
      var last := if key(f) == k then [f] else [];
      assert head + (Where(files[1..], key, k) + last) == (head + Where(files[1..], key, k)) + last;
    }
  }

  type Table = map<int, map<int, seq<Fn>>>

  /** The table files every file under its priority and preference, in order. */
  ghost predicate Filed(c: Cache, files: seq<Fn>, table: Table) {
    && table.Keys == KeysOf(files, c.priority)
    && forall pri :: pri in table ==> FiledUnder(c, Where(files, c.priority, pri), table[pri])
  }

  ghost predicate FiledUnder(c: Cache, group: seq<Fn>, row: map<int, seq<Fn>>) {
    && row.Keys == KeysOf(group, c.preference)
    && forall pref :: pref in row ==> row[pref] == Where(group, c.preference, pref)
  }

  lemma KeysAppend(files: seq<Fn>, f: Fn, key: Fn -> int)
    ensures KeysOf(files + [f], key) == KeysOf(files, key) + {key(f)}
  {
    assert forall g :: g in files + [f] <==> g in files || g == f;
    assert f in files + [f];
  }

  lemma HasFirst(files: seq<Fn>)
    ensures files == [] || files[0] in files
  {
  }

  lemma WhereEmpty(files: seq<Fn>, key: Fn -> int, k: int)
    requires k !in KeysOf(files, key)
    ensures Where(files, key, k) == []
  {
    var r := Where(files, key, k);
    WhereIn(files, key, k);
    HasFirst(r);
  }

  /** Filing one more file in a row. */
  lemma FileInRow(c: Cache, group: seq<Fn>, row: map<int, seq<Fn>>, f: Fn)
    requires FiledUnder(c, group, row)
    ensures var pref := c.preference(f);
      FiledUnder(c, group + [f], row[pref := (if pref in row then row[pref] else []) + [f]])
  {
    var pref := c.preference(f);
    var row' := row[pref := (if pref in row then row[pref] else []) + [f]];
    KeysAppend(group, f, c.preference);
    forall p | p in row' ensures row'[p] == Where(group + [f], c.preference, p) {
      WhereAppend(group, f, c.preference, p);
      if p !in row {
        WhereEmpty(group, c.preference, p);
      }
    }
  }

  lemma EmptyRow(c: Cache)
    ensures FiledUnder(c, [], map[])
  {
  }

  /** Filing one more file in the table. */
  lemma FileInTable(c: Cache, files: seq<Fn>, table: Table, f: Fn)
    requires Filed(c, files, table)
    ensures var pri, pref := c.priority(f), c.preference(f);
      var row := if pri in table then table[pri] else map[];
      Filed(c, files + [f], table[pri := row[pref := (if pref in row then row[pref] else []) + [f]]])
  {
    hide FiledUnder, Where, KeysOf;
    var pri, pref := c.priority(f), c.preference(f);
    var row: map<int, seq<Fn>> := if pri in table then table[pri] else map[];
    var table' := table[pri := row[pref := (if pref in row then row[pref] else []) + [f]]];
    KeysAppend(files, f, c.priority);
    EmptyRow(c);
    if pri !in table {
      WhereEmpty(files, c.priority, pri);
    }
    forall p | p in table' ensures FiledUnder(c, Where(files + [f], c.priority, p), table'[p]) {
      WhereAppend(files, f, c.priority, p);
      var group := Where(files, c.priority, p);
      if p == pri {
        FileInRow(c, group, row, f);
      } else {
        assert group + [] == group;
      }
    }
  }

  /** sortPriorities. */
  method SortPriorities(c: Cache, files: seq<Fn>) returns (tmpPn: seq<seq<Fn>>)
    ensures tmpPn == ByPriority(c, files)
  {
    hide FiledUnder, Where, ByPriority;
    var priorities: Table := map[];
    for i := 0 to |files|
      invariant Filed(c, files[..i], priorities)
    {
      FileInTable(c, files[..i], priorities, files[i]);
      assert files[..i] + [files[i]] == files[..i + 1];
      priorities := FileOne(c, priorities, files[i]);
    }
    assert files[..|files|] == files;
    tmpPn := CollectGroups(c, files, priorities);
  }

  /** One round of the first loop. */
  method FileOne(c: Cache, table: Table, f: Fn) returns (priorities: Table)
    ensures var pri, pref := c.priority(f), c.preference(f);
      var row := if pri in table then table[pri] else map[];
      priorities == table[pri := row[pref := (if pref in row then row[pref] else []) + [f]]]
  {
    priorities := table;
    var pri, pref := c.priority(f), c.preference(f);
    ghost var row: map<int, seq<Fn>> := if pri in table then table[pri] else map[];
    if pri !in priorities {
      priorities := priorities[pri := map[]];
    }
    assert priorities == table[pri := row];
    if pref !in priorities[pri] {
      priorities := priorities[pri := priorities[pri][pref := []]];
    }
    assert priorities == table[pri := if pref in row then row else row[pref := []]];
    priorities := priorities[pri := priorities[pri][pref := priorities[pri][pref] + [f]]];
    assert priorities[pri] == row[pref := (if pref in row then row[pref] else []) + [f]];
  }

  /** The loop over the priorities, ascending; each group goes in front. */
  method CollectGroups(c: Cache, ghost files: seq<Fn>, priorities: Table) returns (tmpPn: seq<seq<Fn>>)
    requires Filed(c, files, priorities)
    ensures tmpPn == ByPriority(c, files)
  {
    hide FiledUnder, PriorityGroup, Rising, Where, Ascending, KeysOf;
    var pris := Ascending(priorities.Keys);
    tmpPn := [];
    for i := 0 to |pris|
      invariant Groups(c, files, pris[i..]) + tmpPn == Groups(c, files, pris)
    {
      assert pris[i] in pris;
      var tmpPref := CollectRow(c, files, pris[i], priorities[pris[i]]);
      assert pris[i..][1..] == pris[i + 1..];
      assert Groups(c, files, pris[i..]) == Groups(c, files, pris[i + 1..]) + [tmpPref];
      tmpPn := [tmpPref] + tmpPn;
    }
    assert pris[|pris|..] == [];
  }

  /** The inner loop: the lists of one priority, by ascending preference. */
  method CollectRow(c: Cache, ghost files: seq<Fn>, pri: int, row: map<int, seq<Fn>>) returns (tmpPref: seq<Fn>)
    requires FiledUnder(c, Where(files, c.priority, pri), row)
    ensures tmpPref == PriorityGroup(c, files, pri)
  {
    hide Rising, Where;
    ghost var group := Where(files, c.priority, pri);
    var prefs := Ascending(row.Keys);
    tmpPref := [];
    for i := 0 to |prefs|
      invariant tmpPref + Buckets(group, c.preference, prefs[i..]) == Buckets(group, c.preference, prefs)
    {
      assert prefs[i] in prefs;
      assert prefs[i..][1..] == prefs[i + 1..];
      assert Buckets(group, c.preference, prefs[i..]) == row[prefs[i]] + Buckets(group, c.preference, prefs[i + 1..]);
      tmpPref := tmpPref + row[prefs[i]];
    }
    assert prefs[|prefs|..] == [];
  }

  function Flatten(groups: seq<seq<Fn>>): seq<Fn> {
    if groups == [] then [] else groups[0] + Flatten(groups[1..])
  }

  lemma {:induction false} FlattenAppend(groups: seq<seq<Fn>>, last: seq<Fn>)
    ensures Flatten(groups + [last]) == Flatten(groups) + last
  {
    if groups == [] {
      assert [] + [last] == [last];
      assert [last][1..] == [];
    } else {
      assert (groups + [last])[1..] == groups[1..] + [last];
      FlattenAppend(groups[1..], last);
    }
  }

  /** The files whose key is among the given ones. */
  function WhereAny(files: seq<Fn>, key: Fn -> int, ks: set<int>): seq<Fn> {
    if files == [] then []
    else (if key(files[0]) in ks then [files[0]] else []) + WhereAny(files[1..], key, ks)
  }

  lemma {:induction false} WhereAnySplit(files: seq<Fn>, key: Fn -> int, k: int, ks: set<int>)
    requires k !in ks
    ensures multiset(WhereAny(files, key, ks + {k})) == multiset(Where(files, key, k)) + multiset(WhereAny(files, key, ks))
  {
    if files != [] {
      WhereAnySplit(files[1..], key, k, ks);
    }
  }

  lemma {:induction false} WhereAnyAll(files: seq<Fn>, key: Fn -> int, ks: set<int>)
    requires forall f :: f in files ==> key(f) in ks
    ensures WhereAny(files, key, ks) == files
  {
    if files != [] {
      WhereAnyAll(files[1..], key, ks);
    }
  }

  lemma {:induction false} WhereAnyNone(files: seq<Fn>, key: Fn -> int)
    ensures WhereAny(files, key, {}) == []
  {
    if files != [] {
      WhereAnyNone(files[1..], key);
    }
  }

  function Members(ks: seq<int>): set<int> {
    set k | k in ks
  }

  lemma MembersCons(ks: seq<int>)
    requires ks != [] && Rising(ks)
    ensures Members(ks) == Members(ks[1..]) + {ks[0]} && ks[0] !in Members(ks[1..]) && Rising(ks[1..])
  {
    assert ks == [ks[0]] + ks[1..];
  }

  lemma {:induction false} BucketsKeep(files: seq<Fn>, key: Fn -> int, ks: seq<int>)
    requires Rising(ks)
    ensures multiset(Buckets(files, key, ks)) == multiset(WhereAny(files, key, Members(ks)))
  {
    if ks == [] {
      WhereAnyNone(files, key);
      assert Members(ks) == {};
    } else {
      MembersCons(ks);
      hide Members, Rising, Where, WhereAny;
      BucketsKeep(files, key, ks[1..]);
      WhereAnySplit(files, key, ks[0], Members(ks[1..]));
    }
  }

  lemma GroupKeeps(c: Cache, files: seq<Fn>, pri: int)
    ensures multiset(PriorityGroup(c, files, pri)) == multiset(Where(files, c.priority, pri))
  {
    var group := Where(files, c.priority, pri);
    var ks := Ascending(KeysOf(group, c.preference));
    BucketsKeep(group, c.preference, ks);
    WhereAnyAll(group, c.preference, Members(ks));
  }

  lemma {:induction false} GroupsKeep(c: Cache, files: seq<Fn>, pris: seq<int>)
    requires Rising(pris)
    ensures multiset(Flatten(Groups(c, files, pris))) == multiset(WhereAny(files, c.priority, Members(pris)))
  {
    if pris == [] {
      WhereAnyNone(files, c.priority);
      assert Members(pris) == {};
    } else {
      MembersCons(pris);
      hide Members, Rising, Where, WhereAny, PriorityGroup;
      GroupsKeep(c, files, pris[1..]);
      FlattenAppend(Groups(c, files, pris[1..]), PriorityGroup(c, files, pris[0]));
      GroupKeeps(c, files, pris[0]);
      WhereAnySplit(files, c.priority, pris[0], Members(pris[1..]));
    }
  }

  lemma {:induction false} GroupAt(c: Cache, files: seq<Fn>, pris: seq<int>, i: nat)
    requires i < |pris|
    ensures Groups(c, files, pris)[i] == PriorityGroup(c, files, pris[|pris| - 1 - i])
  {
    if i < |pris| - 1 {
      GroupAt(c, files, pris[1..], i);
    }
  }

  ghost predicate Climbing(files: seq<Fn>, key: Fn -> int) {
    forall i, j :: 0 <= i < j < |files| ==> key(files[i]) <= key(files[j])
  }

  lemma {:induction false} BucketsAscend(files: seq<Fn>, key: Fn -> int, ks: seq<int>)
    requires Rising(ks)
    ensures forall f :: f in Buckets(files, key, ks) ==> key(f) in ks
    ensures Climbing(Buckets(files, key, ks), key)
  {
    if ks != [] {
      BucketsAscend(files, key, ks[1..]);
      WhereIn(files, key, ks[0]);
      var a, b := Where(files, key, ks[0]), Buckets(files, key, ks[1..]);
      forall i | 0 <= i < |a| ensures key(a[i]) == ks[0] {
        assert a[i] in a;
      }
      forall i | 0 <= i < |b| ensures key(b[i]) > ks[0] {
        assert b[i] in b;
      }
      ClimbingJoin(a, b, key, ks[0]);
    }
  }

  lemma ClimbingJoin(a: seq<Fn>, b: seq<Fn>, key: Fn -> int, k: int)
    requires (forall i :: 0 <= i < |a| ==> key(a[i]) == k) && (forall i :: 0 <= i < |b| ==> key(b[i]) > k)
    requires Climbing(b, key)
    ensures Climbing(a + b, key)
  {
    var r := a + b;
    forall i, j | 0 <= i < j < |r| ensures key(r[i]) <= key(r[j]) {
      assert r[i] == if i < |a| then a[i] else b[i - |a|];
      assert r[j] == if j < |a| then a[j] else b[j - |a|];
    }
  }

  /** sortPriorities loses and invents nothing, groups by strictly descending priority, and orders each
      group by ascending preference. */
  lemma SortedByPriority(c: Cache, files: seq<Fn>)
    ensures multiset(Flatten(ByPriority(c, files))) == multiset(files)
    ensures var r := ByPriority(c, files);
      && (forall i :: 0 <= i < |r| ==> r[i] != [])
      && (forall i, f, g :: 0 <= i < |r| && f in r[i] && g in r[i] ==> c.priority(f) == c.priority(g))
      && (forall i, j, f, g :: 0 <= i < j < |r| && f in r[i] && g in r[j] ==> c.priority(f) > c.priority(g))
      && (forall i :: 0 <= i < |r| ==> Climbing(r[i], c.preference))
  {
    var pris := Ascending(KeysOf(files, c.priority));
    GroupsKeep(c, files, pris);
    WhereAnyAll(files, c.priority, Members(pris));
    var r := ByPriority(c, files);
    forall i | 0 <= i < |r| ensures Law(c, pris[|pris| - 1 - i], r[i]) {
      GroupAt(c, files, pris, i);
      GroupLaw(c, files, pris[|pris| - 1 - i]);
      assert pris[|pris| - 1 - i] in pris;
    }
    hide PriorityGroup, Groups, Flatten, WhereAny, Members, Ascending;
    forall i, j, f, g | 0 <= i < j < |r| && f in r[i] && g in r[j] ensures c.priority(f) > c.priority(g) {
      assert Law(c, pris[|pris| - 1 - i], r[i]) && Law(c, pris[|pris| - 1 - j], r[j]);
    }
    forall i, f, g | 0 <= i < |r| && f in r[i] && g in r[i] ensures c.priority(f) == c.priority(g) {
      assert Law(c, pris[|pris| - 1 - i], r[i]);
    }
  }

  /** What one group is. */
  ghost predicate Law(c: Cache, pri: int, g: seq<Fn>) {
    && g != []
    && (forall f :: f in g ==> c.priority(f) == pri)
    && Climbing(g, c.preference)
  }

  lemma GroupLaw(c: Cache, files: seq<Fn>, pri: int)
    requires pri in KeysOf(files, c.priority)
    ensures Law(c, pri, PriorityGroup(c, files, pri))
  {
    var group, g := Where(files, c.priority, pri), PriorityGroup(c, files, pri);
    GroupKeeps(c, files, pri);
    WhereIn(files, c.priority, pri);
    forall f | f in g ensures c.priority(f) == pri {
      assert f in multiset(g) && f in multiset(group);
    }
    assert g != [] by {
      var f :| f in files && c.priority(f) == pri;
      assert f in multiset(group);
    }
    BucketsAscend(group, c.preference, Ascending(KeysOf(group, c.preference)));
  }

  // ---- preferred and latest files ----

  /** preferredVersionMatch. */
  predicate VersionMatch(v: Version, w: Constraint) {
    && (w.r.None? || w.r.value == v.2)
    && (w.e.None? || w.e.value == v.0)
    && (w.v == v.1 || (w.v != "" && w.v[|w.v| - 1] == '%' && |w.v| - 1 <= |v.1| && v.1[..|w.v| - 1] == w.v[..|w.v| - 1]))
  }

  /** The first file of a matching version. */
  function FirstMatch(c: Cache, files: seq<Fn>, w: Constraint): Option<Fn> {
    if files == [] then None
    else if VersionMatch(c.version(files[0]), w) then Some(files[0])
    else FirstMatch(c, files[1..], w)
  }

  function Preferred(c: Cache, pn: Name, groups: seq<seq<Fn>>): Option<Fn> {
    match c.wanted(pn)
    case None => None
    case Some(w) => FirstMatch(c, Flatten(groups), w)
  }

  lemma {:induction false} FirstMatchAppend(c: Cache, a: seq<Fn>, b: seq<Fn>, w: Constraint)
    ensures FirstMatch(c, a + b, w) == if FirstMatch(c, a, w).Some? then FirstMatch(c, a, w) else FirstMatch(c, b, w)
  {
    if a == [] {
      assert a + b == b;
    } else {
      assert (a + b)[1..] == a[1..] + b;
      FirstMatchAppend(c, a[1..], b, w);
    }
  }

  /** findPreferredProvider, the file only. */
  method FindPreferredProvider(c: Cache, pn: Name, groups: seq<seq<Fn>>) returns (file: Option<Fn>)
    ensures file == Preferred(c, pn, groups)
  {
    file := None;
    var wanted := c.wanted(pn);
    if wanted.None? {
      return;
    }
    for i := 0 to |groups|
      invariant file.None? && FirstMatch(c, Flatten(groups), wanted.value) == FirstMatch(c, Flatten(groups[i..]), wanted.value)
    {
      assert groups[i..][1..] == groups[i + 1..];
      var group := groups[i];
      FirstMatchAppend(c, group, Flatten(groups[i + 1..]), wanted.value);
      for k := 0 to |group|
        invariant file.None? && FirstMatch(c, group, wanted.value) == FirstMatch(c, group[k..], wanted.value)
      {
        assert group[k..][1..] == group[k + 1..];
        if VersionMatch(c.version(group[k]), wanted.value) {
          file := Some(group[k]);
          break;
        }
      }
      if file.Some? {
        break;
      }
    }
  }

  /** f replaces latest as the latest file. */
  predicate Later(c: Cache, f: Fn, latest: Fn) {
    || (c.preference(latest) == c.preference(f) && c.vercmp(c.version(latest), c.version(f)) < 0)
    || c.preference(f) > c.preference(latest)
  }

  function Latest(c: Cache, files: seq<Fn>): Fn
    requires files != []
  {
    if |files| == 1 then files[0]
    else
      var m := Latest(c, files[..|files| - 1]);
      if Later(c, files[|files| - 1], m) then files[|files| - 1] else m
  }

  /** findLatestProvider, the file only. */
  method FindLatestProvider(c: Cache, files: seq<Fn>) returns (latest: Option<Fn>)
    ensures files == [] ==> latest == None
    ensures files != [] ==> latest == Some(Latest(c, files))
  {
    latest := None;
    for i := 0 to |files|
      invariant i == 0 ==> latest == None
      invariant i > 0 ==> latest == Some(Latest(c, files[..i]))
    {
      assert files[..i + 1][..i] == files[..i];
      if latest.None? || Later(c, files[i], latest.value) {
        latest := Some(files[i]);
      }
    }
    assert files[..|files|] == files;
  }

  /** files[i] has the highest preference, among those the highest version, and comes first among those. */
  ghost predicate FirstMaximum(c: Cache, files: seq<Fn>, i: nat) {
    && i < |files|
    && (forall j :: 0 <= j < |files| ==>
          || c.preference(files[j]) < c.preference(files[i])
          || (c.preference(files[j]) == c.preference(files[i]) && c.vercmp(c.version(files[j]), c.version(files[i])) <= 0))
    && (forall j :: 0 <= j < i ==>
          || c.preference(files[j]) < c.preference(files[i])
          || (c.preference(files[j]) == c.preference(files[i]) && c.vercmp(c.version(files[j]), c.version(files[i])) < 0))
  }

  /** The same in terms of the comparison that the loop makes. */
  lemma MaximumByLater(c: Cache, files: seq<Fn>, i: nat)
    requires c.Ordered()
    ensures FirstMaximum(c, files, i) <==>
            && i < |files|
            && (forall j :: 0 <= j < |files| ==> !Later(c, files[j], files[i]))
            && (forall j :: 0 <= j < i ==> Later(c, files[i], files[j]))
  {
    if i < |files| {
      var m := files[i];
      forall j | 0 <= j < |files|
        ensures !Later(c, files[j], m) <==>
                || c.preference(files[j]) < c.preference(m)
                || (c.preference(files[j]) == c.preference(m) && c.vercmp(c.version(files[j]), c.version(m)) <= 0)
        ensures Later(c, m, files[j]) <==>
                || c.preference(files[j]) < c.preference(m)
                || (c.preference(files[j]) == c.preference(m) && c.vercmp(c.version(files[j]), c.version(m)) < 0)
      {
        LaterMeans(c, files[j], m);
      }
    }
  }

  lemma LaterMeans(c: Cache, f: Fn, m: Fn)
    requires c.Ordered()
    ensures !Later(c, f, m) <==>
            || c.preference(f) < c.preference(m)
            || (c.preference(f) == c.preference(m) && c.vercmp(c.version(f), c.version(m)) <= 0)
    ensures Later(c, m, f) <==>
            || c.preference(f) < c.preference(m)
            || (c.preference(f) == c.preference(m) && c.vercmp(c.version(f), c.version(m)) < 0)
  {
  }

  /** It is the first maximum by preference, then version. */
  lemma {:induction false} LatestIsFirstMaximum(c: Cache, files: seq<Fn>)
    requires c.Ordered() && files != []
    ensures exists i: nat :: FirstMaximum(c, files, i) && Latest(c, files) == files[i]
  {
    hide Later, Cache.Ordered;
    var n := |files| - 1;
    if n == 0 {
      OnlyMaximum(c, files);
    } else {
      LatestIsFirstMaximum(c, files[..n]);
      var i: nat :| FirstMaximum(c, files[..n], i) && Latest(c, files[..n]) == files[..n][i];
      MaximumOfMore(c, files, i);
    }
  }

  lemma OnlyMaximum(c: Cache, files: seq<Fn>)
    requires c.Ordered() && |files| == 1
    ensures FirstMaximum(c, files, 0)
  {
    hide FirstMaximum;
    MaximumByLater(c, files, 0);
    NotLaterThanItself(c, files[0]);
  }

  lemma NotLaterThanItself(c: Cache, f: Fn)
    requires c.Ordered()
    ensures !Later(c, f, f)
  {
  }

  /** One more file either takes over as the first maximum or leaves it where it was. */
  lemma MaximumOfMore(c: Cache, files: seq<Fn>, i: nat)
    requires c.Ordered() && |files| > 1 && FirstMaximum(c, files[..|files| - 1], i)
    ensures i < |files| - 1
    ensures FirstMaximum(c, files, if Later(c, files[|files| - 1], files[i]) then |files| - 1 else i)
  {
    hide Later, Cache.Ordered, FirstMaximum;
    var n := |files| - 1;
    var init, last := files[..n], files[n];
    MaximumByLater(c, init, i);
    MaximumByLater(c, files, if Later(c, last, files[i]) then n else i);
    forall j | 0 <= j < n ensures files[j] == init[j] {}
    if Later(c, last, files[i]) {
      NotLaterThanItself(c, last);
      forall j | 0 <= j < n ensures Later(c, last, files[j]) && !Later(c, files[j], last) {
        assert !Later(c, init[j], init[i]);
        LaterThanMaximum(c, last, files[i], files[j]);
      }
    }
  }

  lemma LaterThanMaximum(c: Cache, last: Fn, m: Fn, f: Fn)
    requires c.Ordered() && Later(c, last, m) && !Later(c, f, m)
    ensures Later(c, last, f) && !Later(c, f, last)
  {
    var l, v, w := c.version(last), c.version(m), c.version(f);
    if c.preference(f) == c.preference(m) && c.preference(last) == c.preference(m) {
      assert c.vercmp(w, v) <= 0;
      assert c.vercmp(v, l) <= 0;
      assert c.vercmp(l, w) <= 0 ==> c.vercmp(l, v) <= 0;
    }
  }

  /** The files of the highest priority. */
  function TopGroup(c: Cache, files: seq<Fn>): (r: seq<Fn>)
    requires files != []
    ensures r != []
  {
    NotAllEmpty(c, files);
    ByPriority(c, files)[0]
  }

  /** findBestProvider, the files only. */
  method FindBestProvider(c: Cache, pn: Name, files: seq<Fn>) returns (latest: Fn, preferred: Fn)
    requires files != []
    ensures latest == Latest(c, TopGroup(c, files)) && preferred == Choice(c, pn, files)
  {
    hide ByPriority, Flatten, FirstMatch, Latest;
    NotAllEmpty(c, files);
    var groups := SortPriorities(c, files);
    var p := FindPreferredProvider(c, pn, groups);
    var l := FindLatestProvider(c, groups[0]);
    latest := l.value;
    preferred := if p.Some? then p.value else latest;
  }

  lemma NotAllEmpty(c: Cache, files: seq<Fn>)
    requires files != []
    ensures ByPriority(c, files) != [] && ByPriority(c, files)[0] != []
  {
    hide ByPriority;
    SortedByPriority(c, files);
    assert files[0] in multiset(Flatten(ByPriority(c, files)));
  }

  /** The file chosen for a recipe name: the first of the preferred version, else the latest of the
      highest priority. */
  function Choice(c: Cache, pn: Name, files: seq<Fn>): Fn
    requires files != []
  {
    var preferred := Preferred(c, pn, ByPriority(c, files));
    if preferred.Some? then preferred.value else Latest(c, TopGroup(c, files))
  }

  /** The version is the wanted one; a wanted version that ends in '%' leaves open how the version goes on. */
  ghost predicate Fits(v: Version, w: Constraint) {
    && (w.e.Some? ==> w.e.value == v.0)
    && (w.r.Some? ==> w.r.value == v.2)
    && (v.1 == w.v || exists stem, rest :: w.v == stem + "%" && v.1 == stem + rest)
  }

  lemma VersionMatchFits(v: Version, w: Constraint)
    ensures VersionMatch(v, w) <==> Fits(v, w)
  {
    if VersionMatch(v, w) && v.1 != w.v {
      var stem, rest := w.v[..|w.v| - 1], v.1[|w.v| - 1..];
      assert w.v == stem + "%" && v.1 == stem + rest;
    }
    forall stem: string, rest: string | w.v == stem + "%" && v.1 == stem + rest
      ensures w.v != "" && w.v[|w.v| - 1] == '%' && |w.v| - 1 <= |v.1| && v.1[..|w.v| - 1] == w.v[..|w.v| - 1]
    {
    }
  }

  /** Descending priority, and ascending preference within one priority. */
  ghost predicate Ranked(c: Cache, s: seq<Fn>) {
    forall i, j :: 0 <= i < j < |s| ==> RankedPair(c, s[i], s[j])
  }

  ghost predicate RankedPair(c: Cache, f: Fn, g: Fn) {
    c.priority(f) > c.priority(g) || (c.priority(f) == c.priority(g) && c.preference(f) <= c.preference(g))
  }

  lemma {:induction false} FlattenRanked(c: Cache, r: seq<seq<Fn>>)
    requires forall i, f, g :: 0 <= i < |r| && f in r[i] && g in r[i] ==> c.priority(f) == c.priority(g)
    requires forall i, j, f, g :: 0 <= i < j < |r| && f in r[i] && g in r[j] ==> c.priority(f) > c.priority(g)
    requires forall i :: 0 <= i < |r| ==> Climbing(r[i], c.preference)
    ensures Ranked(c, Flatten(r))
  {
    if r != [] {
      FlattenRanked(c, r[1..]);
      var s, rest := Flatten(r), Flatten(r[1..]);
      assert s == r[0] + rest;
      forall i, j | 0 <= i < j < |s| ensures RankedPair(c, s[i], s[j]) {
        if j < |r[0]| {
          assert s[i] == r[0][i] && s[j] == r[0][j];
        } else if i < |r[0]| {
          assert s[j] == rest[j - |r[0]|];
          FlattenHas(r[1..], s[j]);
          var k :| 0 <= k < |r[1..]| && s[j] in r[1..][k];
          assert s[i] in r[0] && s[j] in r[k + 1];
        } else {
          assert s[i] == rest[i - |r[0]|] && s[j] == rest[j - |r[0]|];
        }
      }
    }
  }

  lemma {:induction false} FlattenHas(r: seq<seq<Fn>>, f: Fn)
    ensures f in Flatten(r) <==> exists k :: 0 <= k < |r| && f in r[k]
  {
    if r != [] {
      FlattenHas(r[1..], f);
      if k :| 0 <= k < |r| && f in r[k] {
        assert k > 0 ==> f in r[1..][k - 1];
      }
      if k :| 0 <= k < |r[1..]| && f in r[1..][k] {
        assert f in r[k + 1];
      }
    }
  }

  lemma {:induction false} FirstMatchMeaning(c: Cache, files: seq<Fn>, w: Constraint)
    ensures FirstMatch(c, files, w).None? <==> forall f :: f in files ==> !Fits(c.version(f), w)
    ensures FirstMatch(c, files, w).Some? ==> exists i ::
              && 0 <= i < |files| && FirstMatch(c, files, w) == Some(files[i]) && Fits(c.version(files[i]), w)
              && forall j :: 0 <= j < i ==> !Fits(c.version(files[j]), w)
  {
    hide Fits, VersionMatch;
    if files != [] {
      FirstMatchMeaning(c, files[1..], w);
      VersionMatchFits(c.version(files[0]), w);
      assert files == [files[0]] + files[1..];
      if !VersionMatch(c.version(files[0]), w) && FirstMatch(c, files, w).Some? {
        var i :| 0 <= i < |files[1..]| && FirstMatch(c, files[1..], w) == Some(files[1..][i]) && Fits(c.version(files[1..][i]), w)
                 && forall j :: 0 <= j < i ==> !Fits(c.version(files[1..][j]), w);
        assert files[i + 1] == files[1..][i];
        forall j | 0 <= j < i + 1 ensures !Fits(c.version(files[j]), w) {
          assert j > 0 ==> files[j] == files[1..][j - 1];
        }
      }
    }
  }

  ghost predicate Wanted(c: Cache, pn: Name, f: Fn) {
    c.wanted(pn).Some? && Fits(c.version(f), c.wanted(pn).value)
  }

  /** No file comes before m by priority, then preference, then version. */
  ghost predicate Highest(c: Cache, files: seq<Fn>, m: Fn) {
    forall f :: f in files ==>
      || c.priority(f) < c.priority(m)
      || (c.priority(f) == c.priority(m) && c.preference(f) < c.preference(m))
      || (c.priority(f) == c.priority(m) && c.preference(f) == c.preference(m) && c.vercmp(c.version(f), c.version(m)) <= 0)
  }

  /** What is chosen for a recipe name: a file of the wanted version, of the highest priority that has one
      (and there one of the lowest preference); if there is none, the highest by priority, preference and
      version. */
  lemma ChoiceLaw(c: Cache, pn: Name, files: seq<Fn>)
    requires c.Ordered() && files != []
    ensures Choice(c, pn, files) in files
    ensures (exists f :: f in files && Wanted(c, pn, f)) ==>
              && Wanted(c, pn, Choice(c, pn, files))
              && forall f :: f in files && Wanted(c, pn, f) ==> RankedPair(c, Choice(c, pn, files), f)
    ensures (forall f :: f in files ==> !Wanted(c, pn, f)) ==> Highest(c, files, Choice(c, pn, files))
  {
    hide Fits, ByPriority, Flatten, FirstMatch, Latest;
    var r := ByPriority(c, files);
    ChoiceIn(c, pn, files);
    SortedByPriority(c, files);
    FlattenRanked(c, r);
    forall f ensures f in files <==> f in Flatten(r) {
      assert f in multiset(files) <==> f in multiset(Flatten(r));
    }
    if c.wanted(pn).Some? {
      FirstMatchMeaning(c, Flatten(r), c.wanted(pn).value);
    }
    if Preferred(c, pn, r).Some? {
      PreferredLaw(c, pn, Flatten(r));
    } else {
      LatestLaw(c, files);
    }
  }

  lemma PreferredLaw(c: Cache, pn: Name, flat: seq<Fn>)
    requires Ranked(c, flat) && c.wanted(pn).Some? && FirstMatch(c, flat, c.wanted(pn).value).Some?
    ensures var m := FirstMatch(c, flat, c.wanted(pn).value).value;
      Wanted(c, pn, m) && forall f :: f in flat && Wanted(c, pn, f) ==> RankedPair(c, m, f)
  {
    hide Fits, FirstMatch;
    var w := c.wanted(pn).value;
    FirstMatchMeaning(c, flat, w);
    var i :| 0 <= i < |flat| && FirstMatch(c, flat, w) == Some(flat[i]) && Fits(c.version(flat[i]), w)
             && forall j :: 0 <= j < i ==> !Fits(c.version(flat[j]), w);
    forall f | f in flat && Wanted(c, pn, f) ensures RankedPair(c, flat[i], f) {
      var k :| 0 <= k < |flat| && flat[k] == f;
      assert k >= i;
    }
  }

  lemma LatestLaw(c: Cache, files: seq<Fn>)
    requires c.Ordered() && files != []
    ensures Highest(c, files, Latest(c, TopGroup(c, files)))
  {
    hide ByPriority, Flatten, Latest, Cache.Ordered;
    var r, top := ByPriority(c, files), TopGroup(c, files);
    SortedByPriority(c, files);
    LatestIsFirstMaximum(c, top);
    var i: nat :| FirstMaximum(c, top, i) && Latest(c, top) == top[i];
    forall f | f in files
      ensures || c.priority(f) < c.priority(top[i])
              || (c.priority(f) == c.priority(top[i]) && c.preference(f) < c.preference(top[i]))
              || (c.priority(f) == c.priority(top[i]) && c.preference(f) == c.preference(top[i])
                  && c.vercmp(c.version(f), c.version(top[i])) <= 0)
    {
      assert f in multiset(files) && f in multiset(Flatten(r));
      FlattenHas(r, f);
      var k :| 0 <= k < |r| && f in r[k];
      assert top == r[0] && top[i] in r[0];
      if k == 0 {
        var j :| 0 <= j < |top| && top[j] == f;
      }
    }
  }

  // ---- filtering ----

  function Insert(f: Fn, files: seq<Fn>): seq<Fn> {
    if files == [] || Below(f, files[0]) then [f] + files else [files[0]] + Insert(f, files[1..])
  }

  /** providers.sort() */
  function SortFiles(files: seq<Fn>): seq<Fn> {
    if files == [] then [] else Insert(files[0], SortFiles(files[1..]))
  }

  /** The files of one recipe name, in order. */
  function OfName(c: Cache, files: seq<Fn>, pn: Name): seq<Fn> {
    if files == [] then []
    else (if c.pkgFn(files[0]) == pn then [files[0]] else []) + OfName(c, files[1..], pn)
  }

  lemma {:induction false} OfNameIn(c: Cache, files: seq<Fn>, pn: Name)
    ensures forall f :: f in OfName(c, files, pn) <==> f in files && c.pkgFn(f) == pn
  {
    if files != [] {
      OfNameIn(c, files[1..], pn);
      assert files == [files[0]] + files[1..];
    }
  }

  function Names(c: Cache, files: seq<Fn>): set<Name> {
    set f | f in files :: c.pkgFn(f)
  }

  /** The preferred files of the names that have one, then the latest files of the others. */
  function PreferredOnes(c: Cache, files: seq<Fn>, names: seq<Name>): seq<Fn> {
    if names == [] then []
    else
      var p := Preferred(c, names[0], ByPriority(c, OfName(c, files, names[0])));
      (if p.Some? then [p.value] else []) + PreferredOnes(c, files, names[1..])
  }

  function LatestOnes(c: Cache, files: seq<Fn>, names: seq<Name>): seq<Fn>
    requires forall n :: n in names ==> OfName(c, files, n) != []
  {
    if names == [] then []
    else
      var group := OfName(c, files, names[0]);
      (if Preferred(c, names[0], ByPriority(c, group)).Some? then [] else [Latest(c, TopGroup(c, group))])
      + LatestOnes(c, files, names[1..])
  }

  lemma NamesHaveFiles(c: Cache, files: seq<Fn>)
    ensures forall n :: n in Sorted(Names(c, files)) ==> OfName(c, files, n) != []
  {
    forall n | n in Sorted(Names(c, files)) ensures OfName(c, files, n) != [] {
      OfNameIn(c, files, n);
      var f :| f in files && c.pkgFn(f) == n;
      assert f in OfName(c, files, n);
    }
  }

  function Eligible(c: Cache, files: seq<Fn>): seq<Fn> {
    NamesHaveFiles(c, files);
    var names := Sorted(Names(c, files));
    PreferredOnes(c, files, names) + LatestOnes(c, files, names)
  }

  /** The choice for each name. */
  ghost function Choices(c: Cache, files: seq<Fn>, names: seq<Name>): seq<Fn>
    requires forall n :: n in names ==> OfName(c, files, n) != []
  {
    if names == [] then []
    else [Choice(c, names[0], OfName(c, files, names[0]))] + Choices(c, files, names[1..])
  }

  /** One file for each recipe name among the candidates, the one chosen for it, in whatever order. */
  ghost predicate OnePerName(c: Cache, files: seq<Fn>, eligible: seq<Fn>) {
    NamesHaveFiles(c, files);
    multiset(eligible) == multiset(Choices(c, files, Sorted(Names(c, files))))
  }

  /** f moves to the front. */
  function Front(files: seq<Fn>, f: Fn): seq<Fn> {
    [f] + RemoveFirst(files, f)
  }

  /** The same-named recipe's file first, if there is one. */
  function SameNameFirst(c: Cache, files: seq<Fn>, item: Name): seq<Fn> {
    var base := Eligible(c, files);
    if item in Names(c, files) then
      NamesHaveFiles(c, files);
      Front(base, Choice(c, item, OfName(c, files, item)))
    else base
  }

  /** The first file of that name moves to the front. */
  function Promote(c: Cache, files: seq<Fn>, pn: Name): seq<Fn> {
    var found := OfName(c, files, pn);
    if found == [] then files else Front(files, found[0])
  }

  // ---- one file for each name ----

  lemma {:induction false} FirstMatchIn(c: Cache, files: seq<Fn>, w: Constraint)
    ensures FirstMatch(c, files, w).Some? ==> FirstMatch(c, files, w).value in files
  {
    if files != [] {
      FirstMatchIn(c, files[1..], w);
    }
  }

  lemma {:induction false} LatestIn(c: Cache, files: seq<Fn>)
    requires files != []
    ensures Latest(c, files) in files
  {
    if |files| > 1 {
      LatestIn(c, files[..|files| - 1]);
    }
  }

  /** A choice is one of the files it is made from. */
  lemma ChoiceIn(c: Cache, pn: Name, files: seq<Fn>)
    requires files != []
    ensures Choice(c, pn, files) in files
  {
    SortedByPriority(c, files);
    var groups := ByPriority(c, files);
    var all := Flatten(groups);
    assert forall f :: f in all <==> f in multiset(all);
    assert forall f :: f in files <==> f in multiset(files);
    if c.wanted(pn).Some? {
      FirstMatchIn(c, all, c.wanted(pn).value);
    }
    LatestIn(c, TopGroup(c, files));
    assert groups[0] == TopGroup(c, files);
    assert forall f :: f in groups[0] ==> f in all;
  }

  lemma {:induction false} ListsChoose(c: Cache, files: seq<Fn>, names: seq<Name>)
    requires forall n :: n in names ==> OfName(c, files, n) != []
    ensures multiset(PreferredOnes(c, files, names) + LatestOnes(c, files, names)) == multiset(Choices(c, files, names))
  {
    if names != [] {
      var n, rest := names[0], names[1..];
      ListsChoose(c, files, rest);
      var ps, ls := PreferredOnes(c, files, rest), LatestOnes(c, files, rest);
      var choice := Choice(c, n, OfName(c, files, n));
      assert multiset(Choices(c, files, names)) == multiset{choice} + multiset(Choices(c, files, rest));
      if Preferred(c, n, ByPriority(c, OfName(c, files, n))).Some? {
        assert PreferredOnes(c, files, names) == [choice] + ps && LatestOnes(c, files, names) == [] + ls == ls;
      } else {
        assert PreferredOnes(c, files, names) == [] + ps == ps && LatestOnes(c, files, names) == [choice] + ls;
      }
    }
  }

  lemma EligibleOnePerName(c: Cache, files: seq<Fn>)
    ensures OnePerName(c, files, Eligible(c, files))
  {
    NamesHaveFiles(c, files);
    ListsChoose(c, files, Sorted(Names(c, files)));
  }

  lemma {:induction false} FrontKeeps(files: seq<Fn>, f: Fn)
    requires f in files
    ensures multiset(Front(files, f)) == multiset(files)
  {
    assert files == [files[0]] + files[1..];
    if files[0] != f {
      FrontKeeps(files[1..], f);
    }
  }

  lemma {:induction false} ChosenIsListed(c: Cache, files: seq<Fn>, names: seq<Name>, i: nat)
    requires forall n :: n in names ==> OfName(c, files, n) != []
    requires i < |names|
    ensures Choice(c, names[i], OfName(c, files, names[i])) in Choices(c, files, names)
  {
    hide Choice, OfName;
    if i > 0 {
      ChosenIsListed(c, files, names[1..], i - 1);
    }
  }

  lemma {:induction false} ListedIsChosen(c: Cache, files: seq<Fn>, names: seq<Name>, f: Fn)
    requires forall n :: n in names ==> OfName(c, files, n) != []
    requires f in Choices(c, files, names)
    ensures f in files && c.pkgFn(f) in names && f == Choice(c, c.pkgFn(f), OfName(c, files, c.pkgFn(f)))
  {
    ChoiceIn(c, names[0], OfName(c, files, names[0]));
    OfNameIn(c, files, names[0]);
    if f != Choice(c, names[0], OfName(c, files, names[0])) {
      ListedIsChosen(c, files, names[1..], f);
    }
  }

  /** A permutation of the choices holds for every name the chosen file, and no other file of the name. */
  lemma OnePerNameMeaning(c: Cache, files: seq<Fn>, eligible: seq<Fn>, n: Name)
    requires OnePerName(c, files, eligible) && n in Names(c, files)
    ensures OfName(c, files, n) != [] && Choice(c, n, OfName(c, files, n)) in eligible
    ensures forall f :: f in eligible && c.pkgFn(f) == n ==> f == Choice(c, n, OfName(c, files, n))
  {
    NamesHaveFiles(c, files);
    var names := Sorted(Names(c, files));
    var all := Choices(c, files, names);
    assert forall f :: f in eligible <==> f in multiset(eligible);
    assert forall f :: f in all <==> f in multiset(all);
    var i :| 0 <= i < |names| && names[i] == n;
    ChosenIsListed(c, files, names, i);
    forall f | f in eligible && c.pkgFn(f) == n ensures f == Choice(c, n, OfName(c, files, n)) {
      ListedIsChosen(c, files, names, f);
    }
  }

  /** It holds nothing else, and as many files as there are names. */
  lemma OnePerNameOnly(c: Cache, files: seq<Fn>, eligible: seq<Fn>)
    requires OnePerName(c, files, eligible)
    ensures |eligible| == |Names(c, files)|
    ensures forall f :: f in eligible ==> f in files && c.pkgFn(f) in Names(c, files)
  {
    NamesHaveFiles(c, files);
    var names := Sorted(Names(c, files));
    var all := Choices(c, files, names);
    ChoicesLength(c, files, names);
    assert |multiset(eligible)| == |multiset(all)|;
    forall f | f in eligible ensures f in files && c.pkgFn(f) in Names(c, files) {
      assert f in multiset(eligible) && f in multiset(all);
      ListedIsChosen(c, files, names, f);
    }
  }

  /** No file is in it twice. */
  lemma OnePerNameOnce(c: Cache, files: seq<Fn>, eligible: seq<Fn>)
    requires OnePerName(c, files, eligible)
    ensures NoDuplicates(eligible)
  {
    hide Choices, OfName, SortedNames.Ascending;
    NamesHaveFiles(c, files);
    var names := Sorted(Names(c, files));
    SortedAscending(Names(c, files));
    AscendingDistinct(names);
    ChoicesCounts(c, files, names);
    CountsDistinct(eligible);
  }

  lemma AscendingDistinct(names: seq<Name>)
    requires SortedNames.Ascending(names)
    ensures NoDuplicates(names)
  {
  }

  lemma {:induction false} ChoicesCounts(c: Cache, files: seq<Fn>, names: seq<Name>)
    requires NoDuplicates(names) && forall n :: n in names ==> OfName(c, files, n) != []
    ensures forall f :: multiset(Choices(c, files, names))[f] <= 1
  {
    hide OfName, Choice;
    if names != [] {
      var first, rest := Choice(c, names[0], OfName(c, files, names[0])), Choices(c, files, names[1..]);
      ChoicesCounts(c, files, names[1..]);
      assert Choices(c, files, names) == [first] + rest;
      if first in rest {
        ListedIsChosen(c, files, names[1..], first);
        ChoiceName(c, files, names[0]);
        assert false;
      }
      assert first !in multiset(rest);
    }
  }

  lemma ChoiceName(c: Cache, files: seq<Fn>, n: Name)
    requires OfName(c, files, n) != []
    ensures c.pkgFn(Choice(c, n, OfName(c, files, n))) == n
  {
    hide Choice;
    ChoiceIn(c, n, OfName(c, files, n));
    OfNameIn(c, files, n);
  }

  lemma CountsDistinct(s: seq<Fn>)
    requires forall f :: multiset(s)[f] <= 1
    ensures NoDuplicates(s)
  {
    forall i, j | 0 <= i < j < |s| ensures s[i] != s[j] {
      assert s == s[..j] + s[j..];
      assert s[..j][i] == s[i] && s[j..][0] == s[j];
      assert s[i] in multiset(s[..j]) && s[j] in multiset(s[j..]);
      assert multiset(s)[s[i]] == multiset(s[..j])[s[i]] + multiset(s[j..])[s[i]];
    }
  }

  lemma {:induction false} ChoicesLength(c: Cache, files: seq<Fn>, names: seq<Name>)
    requires forall n :: n in names ==> OfName(c, files, n) != []
    ensures |Choices(c, files, names)| == |names|
  {
    if names != [] {
      ChoicesLength(c, files, names[1..]);
    }
  }

  // ---- the filters themselves ----

  /** _filterProviders on sorted candidates, and filterProviders with the preferences in force. */
  function Filtered(c: Cache, files: seq<Fn>, item: Name, preferred: map<Name, Name>): seq<Fn> {
    if item in preferred then Promote(c, SameNameFirst(c, files, item), preferred[item]) else SameNameFirst(c, files, item)
  }

  /** What filterProviders promises: one file for each recipe name, the preferred name's first, else that
      of the recipe named like the item. */
  lemma FilteredLaw(c: Cache, files: seq<Fn>, item: Name, preferred: map<Name, Name>)
    ensures var r := Filtered(c, files, item, preferred);
      && OnePerName(c, files, r)
      && (item in preferred && preferred[item] in Names(c, files) ==> r != [] && c.pkgFn(r[0]) == preferred[item])
      && (!(item in preferred && preferred[item] in Names(c, files)) && item in Names(c, files) ==>
            r != [] && c.pkgFn(r[0]) == item)
      && NoDuplicates(r) && (forall f :: f in r ==> f in files)
  {
    hide OnePerName, SameNameFirst, Promote, Names;
    FilteredFirst(c, files, item, preferred);
    OnePerNameOnce(c, files, Filtered(c, files, item, preferred));
    OnePerNameOnly(c, files, Filtered(c, files, item, preferred));
  }

  lemma FilteredFirst(c: Cache, files: seq<Fn>, item: Name, preferred: map<Name, Name>)
    ensures var r := Filtered(c, files, item, preferred);
      && OnePerName(c, files, r)
      && (item in preferred && preferred[item] in Names(c, files) ==> r != [] && c.pkgFn(r[0]) == preferred[item])
      && (!(item in preferred && preferred[item] in Names(c, files)) && item in Names(c, files) ==>
            r != [] && c.pkgFn(r[0]) == item)
  {
    var same := SameNameFirst(c, files, item);
    SameNameLaw(c, files, item);
    if item in preferred {
      PromoteLaw(c, files, same, preferred[item]);
    }
  }

  lemma SameNameLaw(c: Cache, files: seq<Fn>, item: Name)
    ensures var r := SameNameFirst(c, files, item);
      OnePerName(c, files, r) && (item in Names(c, files) ==> r != [] && c.pkgFn(r[0]) == item)
  {
    EligibleOnePerName(c, files);
    if item in Names(c, files) {
      OnePerNameMeaning(c, files, Eligible(c, files), item);
      FrontKeeps(Eligible(c, files), Choice(c, item, OfName(c, files, item)));
      ChoiceIn(c, item, OfName(c, files, item));
      OfNameIn(c, files, item);
    }
  }

  lemma PromoteLaw(c: Cache, files: seq<Fn>, eligible: seq<Fn>, pn: Name)
    requires OnePerName(c, files, eligible)
    ensures var r := Promote(c, eligible, pn);
      && OnePerName(c, files, r)
      && (pn in Names(c, files) ==> r != [] && c.pkgFn(r[0]) == pn)
      && (pn !in Names(c, files) ==> r == eligible)
      && (pn in Names(c, files) <==> OfName(c, eligible, pn) != [])
  {
    OnePerNameOnly(c, files, eligible);
    if pn in Names(c, files) {
      PromotePresent(c, files, eligible, pn);
    } else {
      hide Names, Choice, Choices, OnePerName;
      PromoteAbsent(c, eligible, pn);
    }
  }

  lemma PromotePresent(c: Cache, files: seq<Fn>, eligible: seq<Fn>, pn: Name)
    requires OnePerName(c, files, eligible) && pn in Names(c, files)
    ensures var r := Promote(c, eligible, pn); OnePerName(c, files, r) && r != [] && c.pkgFn(r[0]) == pn
    ensures OfName(c, eligible, pn) != []
  {
    hide Names, Choice, Choices, OfName;
    OnePerNameMeaning(c, files, eligible, pn);
    ChoiceIn(c, pn, OfName(c, files, pn));
    OfNameIn(c, files, pn);
    OfNameIn(c, eligible, pn);
    var found := OfName(c, eligible, pn);
    assert Choice(c, pn, OfName(c, files, pn)) in found;
    HasFirst(found);
    FrontKeeps(eligible, found[0]);
  }

  lemma PromoteAbsent(c: Cache, eligible: seq<Fn>, pn: Name)
    requires forall f :: f in eligible ==> c.pkgFn(f) != pn
    ensures OfName(c, eligible, pn) == [] && Promote(c, eligible, pn) == eligible
  {
    OfNameIn(c, eligible, pn);
    HasFirst(OfName(c, eligible, pn));
  }

  /** The candidates by recipe name. */
  ghost predicate Collated(c: Cache, files: seq<Fn>, pkgPn: map<Name, seq<Fn>>) {
    && pkgPn.Keys == Names(c, files)
    && forall n :: n in pkgPn ==> pkgPn[n] == OfName(c, files, n)
  }

  lemma {:induction false} OfNameAppend(c: Cache, files: seq<Fn>, f: Fn, pn: Name)
    ensures OfName(c, files + [f], pn) == OfName(c, files, pn) + if c.pkgFn(f) == pn then [f] else []
  {
    if files == [] {
      assert [] + [f] == [f];
      assert [f][1..] == [];
    } else {
      assert (files + [f])[1..] == files[1..] + [f] && (files + [f])[0] == files[0];
      OfNameAppend(c, files[1..], f, pn);
      var head := if c.pkgFn(files[0]) == pn then [files[0]] else [];
      var last := if c.pkgFn(f) == pn then [f] else [];
      assert head + (OfName(c, files[1..], pn) + last) == (head + OfName(c, files[1..], pn)) + last;
    }
  }

  lemma CollateOne(c: Cache, files: seq<Fn>, pkgPn: map<Name, seq<Fn>>, f: Fn)
    requires Collated(c, files, pkgPn)
    ensures var pn := c.pkgFn(f);
      Collated(c, files + [f], pkgPn[pn := (if pn in pkgPn then pkgPn[pn] else []) + [f]])
  {
    hide OfName, Names;
    var pn := c.pkgFn(f);
    NamesAppend(c, files, f);
    if pn !in pkgPn {
      NameAbsent(c, files, pn);
    }
    forall n | n in Names(c, files) || n == pn
      ensures OfName(c, files + [f], n) == OfName(c, files, n) + if pn == n then [f] else []
    {
      OfNameAppend(c, files, f, n);
      assert OfName(c, files, n) + [] == OfName(c, files, n);
    }
  }

  lemma NamesAppend(c: Cache, files: seq<Fn>, f: Fn)
    ensures Names(c, files + [f]) == Names(c, files) + {c.pkgFn(f)}
  {
    assert forall g :: g in files + [f] <==> g in files || g == f;
    assert f in files + [f];
  }

  lemma NameAbsent(c: Cache, files: seq<Fn>, pn: Name)
    requires pn !in Names(c, files)
    ensures OfName(c, files, pn) == []
  {
    assert forall g :: g in files ==> c.pkgFn(g) in Names(c, files);
    OfNameIn(c, files, pn);
    HasFirst(OfName(c, files, pn));
  }

  method Collate(c: Cache, files: seq<Fn>) returns (pkgPn: map<Name, seq<Fn>>)
    ensures Collated(c, files, pkgPn)
  {
    pkgPn := map[];
    for i := 0 to |files|
      invariant Collated(c, files[..i], pkgPn)
    {
      CollateOne(c, files[..i], pkgPn, files[i]);
      assert files[..i] + [files[i]] == files[..i + 1];
      var pn := c.pkgFn(files[i]);
      if pn !in pkgPn {
        pkgPn := pkgPn[pn := []];
      }
      pkgPn := pkgPn[pn := pkgPn[pn] + [files[i]]];
    }
    assert files[..|files|] == files;
  }

  /** What the first loop over the names has noted for one of them: its groups and its preferred file. */
  ghost predicate Noted(c: Cache, files: seq<Fn>, n: Name, groups: map<Name, seq<seq<Fn>>>, chosen: map<Name, Option<Fn>>) {
    && n in groups && groups[n] == ByPriority(c, OfName(c, files, n))
    && n in chosen && chosen[n] == Preferred(c, n, groups[n])
  }

  /** The loop that adds the files of preferred versions. */
  method AddPreferred(c: Cache, ghost files: seq<Fn>, pkgPn: map<Name, seq<Fn>>, names: seq<Name>)
      returns (eligible: seq<Fn>, groups: map<Name, seq<seq<Fn>>>, chosen: map<Name, Option<Fn>>)
    requires Collated(c, files, pkgPn) && forall n :: n in names ==> n in pkgPn
    ensures eligible == PreferredOnes(c, files, names)
    ensures forall n :: n in names ==> Noted(c, files, n, groups, chosen)
  {
    hide Names, OfName, ByPriority, Preferred;
    eligible, groups, chosen := [], map[], map[];
    for i := 0 to |names|
      invariant eligible + PreferredOnes(c, files, names[i..]) == PreferredOnes(c, files, names)
      invariant forall k :: 0 <= k < i ==> Noted(c, files, names[k], groups, chosen)
    {
      var n := names[i];
      assert names[i..][1..] == names[i + 1..];
      var sorted := SortPriorities(c, pkgPn[n]);
      var p := FindPreferredProvider(c, n, sorted);
      groups, chosen := groups[n := sorted], chosen[n := p];
      if p.Some? {
        eligible := eligible + [p.value];
      }
    }
    assert names[|names|..] == [];
  }

  lemma LatestNext(c: Cache, files: seq<Fn>, names: seq<Name>, i: nat)
    requires i < |names| && forall n :: n in names ==> OfName(c, files, n) != []
    ensures var group := OfName(c, files, names[i]);
      LatestOnes(c, files, names[i..]) ==
      if Preferred(c, names[i], ByPriority(c, group)).Some? then LatestOnes(c, files, names[i + 1..])
      else [Choice(c, names[i], group)] + LatestOnes(c, files, names[i + 1..])
  {
    hide OfName, ByPriority, Preferred, Latest, TopGroup;
    assert names[i..][1..] == names[i + 1..];
  }

  lemma NoLatest(c: Cache, files: seq<Fn>)
    ensures LatestOnes(c, files, []) == []
  {
  }

  /** The latest of the first group is the choice when nothing is preferred; what is preferred is the choice. */
  lemma ChoiceNoted(c: Cache, files: seq<Fn>, n: Name, groups: map<Name, seq<seq<Fn>>>, preferred: map<Name, Option<Fn>>)
    requires OfName(c, files, n) != [] && Noted(c, files, n, groups, preferred)
    ensures preferred[n] == Preferred(c, n, ByPriority(c, OfName(c, files, n)))
    ensures preferred[n].Some? ==> preferred[n] == Some(Choice(c, n, OfName(c, files, n)))
    ensures preferred[n].None? ==>
              groups[n] != [] && groups[n][0] != [] && Choice(c, n, OfName(c, files, n)) == Latest(c, groups[n][0])
  {
    hide OfName, ByPriority, Preferred, Latest;
    NotAllEmpty(c, OfName(c, files, n));
  }

  /** The loop that adds the latest files of the names without a preferred one. */
  method AddLatest(c: Cache, ghost files: seq<Fn>, names: seq<Name>, groups: map<Name, seq<seq<Fn>>>,
                   preferred: map<Name, Option<Fn>>) returns (eligible: seq<Fn>, chosen: map<Name, Option<Fn>>)
    requires forall n :: n in names ==> OfName(c, files, n) != [] && Noted(c, files, n, groups, preferred)
    ensures eligible == LatestOnes(c, files, names)
    ensures forall n :: n in names ==> n in chosen && chosen[n] == Some(Choice(c, n, OfName(c, files, n)))
  {
    hide OfName, ByPriority, Preferred, Latest, LatestOnes, Choice, Noted;
    eligible, chosen := [], preferred;
    NoLatest(c, files);
    for i := 0 to |names|
      invariant eligible + LatestOnes(c, files, names[i..]) == LatestOnes(c, files, names)
      invariant forall k :: 0 <= k < i ==> names[k] in chosen && chosen[names[k]] == Some(Choice(c, names[k], OfName(c, files, names[k])))
      invariant forall n :: n in preferred ==> n in chosen && (preferred[n].Some? ==> chosen[n] == preferred[n])
    {
      var n := names[i];
      NotedNames(c, files, n, groups, preferred);
      ChoiceNoted(c, files, n, groups, preferred);
      LatestNext(c, files, names, i);
      if preferred[n].None? {
        var latest := FindLatestProvider(c, groups[n][0]);
        chosen := chosen[n := latest];
        eligible := eligible + [latest.value];
      }
    }
    assert names[|names|..] == [];
  }

  lemma NotedNames(c: Cache, files: seq<Fn>, n: Name, groups: map<Name, seq<seq<Fn>>>, chosen: map<Name, Option<Fn>>)
    requires Noted(c, files, n, groups, chosen)
    ensures n in groups && n in chosen
  {
  }

  /** The loop that moves the file of the recipe named like the item to the front. */
  method MoveSameNamed(c: Cache, files: seq<Fn>, item: Name, base: seq<Fn>, chosen: map<Name, Option<Fn>>) returns (eligible: seq<Fn>)
    requires forall n :: n in Names(c, files) ==>
               n in chosen && OfName(c, files, n) != [] && chosen[n] == Some(Choice(c, n, OfName(c, files, n)))
    requires forall n :: n in Names(c, files) ==> chosen[n].value in base
    ensures eligible == if item in Names(c, files) then Front(base, chosen[item].value) else base
  {
    hide OfName, Choice;
    eligible := base;
    for i := 0 to |files|
      invariant eligible == if item in Names(c, files[..i]) then Front(base, chosen[item].value) else base
    {
      assert files[i] in files && c.pkgFn(files[i]) in Names(c, files);
      assert files[..i + 1] == files[..i] + [files[i]];
      NamesAppend(c, files[..i], files[i]);
      if c.pkgFn(files[i]) == item {
        var fn := chosen[item].value;
        if fn in eligible {
          eligible := [fn] + RemoveFirst(eligible, fn);
        }
      }
    }
    assert files[..|files|] == files;
  }

  /** _filterProviders. It returns 0 instead of a list when there is nothing to choose from. */
  method FilterCandidates(c: Cache, providers: seq<Fn>, item: Name) returns (files: seq<Fn>, eligible: Option<seq<Fn>>)
    ensures files == SortFiles(providers)
    ensures eligible == if providers == [] then None else Some(SameNameFirst(c, files, item))
  {
    hide SortFiles, Names, OfName, Choice, Front, Eligible;
    files := SortFiles(providers);
    SortFilesKeeps(providers);
    NamesEmpty(c, files);
    var all, chosen := AddAll(c, files);
    if |all| == 0 {
      return files, None;
    }
    var r := MoveSameNamed(c, files, item, all, chosen);
    eligible := Some(r);
  }

  /** Collation and the two loops over the names. */
  method AddAll(c: Cache, files: seq<Fn>) returns (all: seq<Fn>, chosen: map<Name, Option<Fn>>)
    ensures all == Eligible(c, files) && |all| == |Names(c, files)|
    ensures forall n :: n in Names(c, files) ==>
              n in chosen && OfName(c, files, n) != [] && chosen[n] == Some(Choice(c, n, OfName(c, files, n))) && chosen[n].value in all
  {
    hide ByPriority, Choice, OfName, Names, Sorted, OnePerName;
    NamesHaveFiles(c, files);
    var pkgPn := Collate(c, files);
    var names := Sorted(pkgPn.Keys);
    assert names == Sorted(Names(c, files));
    var first, groups, preferred := AddPreferred(c, files, pkgPn, names);
    var second, more := AddLatest(c, files, names, groups, preferred);
    all, chosen := first + second, more;
    EligibleOnePerName(c, files);
    OnePerNameOnly(c, files, all);
    forall n | n in Names(c, files) ensures chosen[n].value in all {
      OnePerNameMeaning(c, files, all, n);
    }
  }

  lemma NamesEmpty(c: Cache, files: seq<Fn>)
    ensures |Names(c, files)| == 0 <==> files == []
  {
    if files != [] {
      assert c.pkgFn(files[0]) in Names(c, files);
    } else {
      assert Names(c, files) == {};
    }
  }

  lemma {:induction false} InsertKeeps(f: Fn, files: seq<Fn>)
    ensures multiset(Insert(f, files)) == multiset(files) + multiset{f}
  {
    if files != [] && !Below(f, files[0]) {
      InsertKeeps(f, files[1..]);
      assert files == [files[0]] + files[1..];
    }
  }

  lemma {:induction false} SortFilesKeeps(files: seq<Fn>)
    ensures multiset(SortFiles(files)) == multiset(files)
    ensures SortFiles(files) == [] <==> files == []
  {
    if files != [] {
      SortFilesKeeps(files[1..]);
      InsertKeeps(files[0], SortFiles(files[1..]));
      assert files == [files[0]] + files[1..];
    }
  }

  /** The outcome of filterProviders: its list, or the zero that _filterProviders gave; with a preference
      for the item that zero is iterated over, which raises an exception. */
  datatype Outcome = Zero | Raised | Files(files: seq<Fn>)

  /** filterProviders. `prefervar` is the value of PREFERRED_PROVIDER_item, empty when there is none. */
  method FilterProviders(c: Cache, providers: seq<Fn>, item: Name, prefervar: Name, preferred: map<Name, Name>)
      returns (outcome: Outcome, foundUnique: bool, preferred': map<Name, Name>)
    ensures preferred' == if prefervar != "" then preferred[item := prefervar] else preferred
    ensures outcome == if providers != [] then Files(Filtered(c, SortFiles(providers), item, preferred'))
                       else if item in preferred' then Raised else Zero
    ensures foundUnique <==> item in preferred' && preferred'[item] in Names(c, SortFiles(providers))
  {
    hide SameNameFirst, Names, OnePerName, SortFiles, Promote;
    preferred' := preferred;
    foundUnique := false;
    var files, list := FilterCandidates(c, providers, item);
    if prefervar != "" {
      preferred' := preferred'[item := prefervar];
    }
    NamesEmpty(c, files);
    SortFilesKeeps(providers);
    if list.None? {
      outcome := if item in preferred' then Raised else Zero;
      assert Names(c, files) == {};
      return;
    }
    var eligible := list.value;
    SameNameLaw(c, files, item);
    if item in preferred' {
      PromoteLaw(c, files, eligible, preferred'[item]);
      eligible, foundUnique := PromotePreferred(c, eligible, preferred'[item]);
    }
    outcome := Files(eligible);
  }

  /** The loop that looks for the preferred recipe. */
  method PromotePreferred(c: Cache, base: seq<Fn>, pn: Name) returns (eligible: seq<Fn>, foundUnique: bool)
    ensures eligible == Promote(c, base, pn) && (foundUnique <==> OfName(c, base, pn) != [])
  {
    eligible := base;
    foundUnique := false;
    for i := 0 to |base|
      invariant !foundUnique && eligible == base && OfName(c, base, pn) == OfName(c, base[i..], pn)
    {
      assert base[i..][1..] == base[i + 1..];
      if c.pkgFn(eligible[i]) == pn {
        var p := eligible[i];
        eligible := [p] + RemoveFirst(eligible, p);
        foundUnique := true;
        break;
      }
    }
  }

  // ---- the order on disk does not matter ----

  predicate Arranged(files: seq<Fn>) {
    forall i, j :: 0 <= i < j < |files| ==> Below(files[i], files[j])
  }

  lemma {:induction false} InsertArranged(f: Fn, files: seq<Fn>)
    requires Arranged(files)
    ensures Arranged(Insert(f, files))
  {
    hide Below;
    if files != [] {
      BelowTotal(f, files[0]);
      if Below(f, files[0]) {
        forall j | 0 <= j < |files| ensures Below(f, files[j]) {
          if j > 0 {
            BelowTransitive(f, files[0], files[j]);
          }
        }
      } else {
        InsertArranged(f, files[1..]);
        InsertKeeps(f, files[1..]);
        var rest := Insert(f, files[1..]);
        forall j | 0 <= j < |rest| ensures Below(files[0], rest[j]) {
          assert rest[j] in multiset(rest);
          assert rest[j] == f || rest[j] in files[1..];
        }
      }
    }
  }

  lemma {:induction false} SortFilesArranged(files: seq<Fn>)
    ensures Arranged(SortFiles(files))
  {
    if files != [] {
      SortFilesArranged(files[1..]);
      InsertArranged(files[0], SortFiles(files[1..]));
    }
  }

  lemma HeadLowest(files: seq<Fn>, f: Fn)
    requires Arranged(files) && f in files
    ensures Below(files[0], f)
  {
    BelowTotal(f, f);
  }

  lemma SameTails(x: Fn, a: seq<Fn>, b: seq<Fn>)
    requires multiset([x] + a) == multiset([x] + b)
    ensures multiset(a) == multiset(b)
  {
    assert multiset([x] + a) == multiset{x} + multiset(a);
    assert multiset([x] + b) == multiset{x} + multiset(b);
    var more := multiset{x};
    assert (more + multiset(a)) - more == multiset(a);
    assert (more + multiset(b)) - more == multiset(b);
  }

  lemma {:induction false} ArrangedUnique(a: seq<Fn>, b: seq<Fn>)
    requires Arranged(a) && Arranged(b) && multiset(a) == multiset(b)
    ensures a == b
  {
    assert |multiset(a)| == |multiset(b)|;
    if a != [] {
      var x, y := a[0], b[0];
      assert x in multiset(b) && y in multiset(a);
      HeadLowest(a, y);
      HeadLowest(b, x);
      BelowTotal(x, y);
      assert Arranged(a[1..]) && Arranged(b[1..]);
      hide Below, Arranged;
      assert a == [x] + a[1..] && b == [x] + b[1..];
      SameTails(x, a[1..], b[1..]);
      ArrangedUnique(a[1..], b[1..]);
    }
  }

  /** Candidates listed in another order lead to the same list. */
  lemma OrderDoesNotMatter(c: Cache, a: seq<Fn>, b: seq<Fn>, item: Name, preferred: map<Name, Name>)
    requires multiset(a) == multiset(b)
    ensures Filtered(c, SortFiles(a), item, preferred) == Filtered(c, SortFiles(b), item, preferred)
  {
    SortFilesKeeps(a);
    SortFilesKeeps(b);
    SortFilesArranged(a);
    SortFilesArranged(b);
    ArrangedUnique(SortFiles(a), SortFiles(b));
  }
}
