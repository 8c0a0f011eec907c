/** How an unbuildable recipe file makes others unbuildable, on plain values. */
module FailurePropagation {
  import opened Sequences

  type Fn = string
  type Name = string

  /** A build-time or a run-time target name: the two dictionaries have separate name spaces. */
  datatype Target = Build(name: Name) | Run(name: Name)

  /** (file, target): the file needs the target. */
  type Edges = set<(Fn, Target)>

  /** The state that failures change: provider lists, failed files and failed targets. */
  datatype State = State(lists: map<Target, seq<Fn>>, failed: set<Fn>, gone: set<Target>)

  /** s without the members of dead, in the same order. */
  ghost function Without(s: seq<Fn>, dead: set<Fn>): (r: seq<Fn>)
    ensures forall x :: x in r <==> x in s && x !in dead
  {
    if s == [] then []
    else if s[|s| - 1] in dead then Without(s[..|s| - 1], dead)
    else Without(s[..|s| - 1], dead) + [s[|s| - 1]]
  }

  lemma {:induction false} WithoutNothing(s: seq<Fn>, dead: set<Fn>)
    requires forall x :: x in s ==> x !in dead
    ensures Without(s, dead) == s
  {
    if s != [] {
      WithoutNothing(s[..|s| - 1], dead);
      assert s == s[..|s| - 1] + [s[|s| - 1]];
    }
  }

  lemma {:induction false} WithoutCongruent(s: seq<Fn>, dead: set<Fn>, dead': set<Fn>)
    requires forall x :: x in s ==> (x in dead <==> x in dead')
    ensures Without(s, dead) == Without(s, dead')
  {
    if s != [] {
      WithoutCongruent(s[..|s| - 1], dead, dead');
    }
  }

  lemma {:induction false} WithoutTwice(s: seq<Fn>, dead: set<Fn>, more: set<Fn>)
    ensures Without(Without(s, dead), more) == Without(s, dead + more)
  {
    if s != [] {
      var init, last := s[..|s| - 1], s[|s| - 1];
      WithoutTwice(init, dead, more);
      if last !in dead {
        assert (Without(init, dead) + [last])[..|Without(init, dead)|] == Without(init, dead);
      }
    }
  }

  lemma {:induction false} WithoutKeepsNoDuplicates(s: seq<Fn>, dead: set<Fn>)
    requires NoDuplicates(s)
    ensures NoDuplicates(Without(s, dead))
  {
    if s != [] {
      var init, last := s[..|s| - 1], s[|s| - 1];
      WithoutKeepsNoDuplicates(init, dead);
      forall i | 0 <= i < |Without(init, dead)| ensures Without(init, dead)[i] != last {
        assert Without(init, dead)[i] in init;
      }
    }
  }

  ghost predicate Emptied(s0: State, s1: State, t: Target) {
    && t in s0.lists && s0.lists[t] != []
    && t in s1.lists && s1.lists[t] == []
  }

  /** Whatever has lost all its providers takes its dependees with it. */
  ghost predicate Closed(g: Edges, s: State, c: set<Fn>) {
    forall t, f :: t in s.lists && s.lists[t] != [] && (forall x :: x in s.lists[t] ==> x in c) && (f, t) in g ==> f in c
  }

  /** s1 is s0 after the files in seeds failed and everything that follows from it happened. */
  ghost predicate Spread(g: Edges, s0: State, s1: State, seeds: set<Fn>) {
    && s0.failed + seeds <= s1.failed
    && s1.lists.Keys == s0.lists.Keys
    && (forall t :: t in s0.lists ==> s1.lists[t] == Without(s0.lists[t], s1.failed - s0.failed))
    && (forall t, f :: Emptied(s0, s1, t) && (f, t) in g ==> f in s1.failed)
    && (forall t :: t in s1.gone <==> t in s0.gone || Emptied(s0, s1, t))
    && (forall c :: s0.failed + seeds <= c && Closed(g, s0, c) ==> s1.failed <= c)
  }

  lemma SpreadNothing(g: Edges, s: State)
    ensures Spread(g, s, s, {})
  {
    assert s.failed - s.failed == {};
    forall t | t in s.lists ensures Without(s.lists[t], {}) == s.lists[t] {
      WithoutNothing(s.lists[t], {});
    }
  }

  lemma SpreadAlready(g: Edges, s: State, fn: Fn)
    requires fn in s.failed
    ensures Spread(g, s, s, {fn})
  {
    SpreadNothing(g, s);
    assert s.failed + {fn} == s.failed + {};
  }

  lemma SpreadGrows(g: Edges, s0: State, s1: State, seeds: set<Fn>)
    requires Spread(g, s0, s1, seeds)
    ensures s0.failed + seeds <= s1.failed
    ensures s0.lists.Keys == s1.lists.Keys
  {}

  /** Closure survives the removal of members of the closed set. */
  lemma ClosedAfterPruning(g: Edges, s0: State, s1: State, c: set<Fn>)
    requires Closed(g, s0, c)
    requires s1.lists.Keys == s0.lists.Keys
    requires forall t, x :: t in s0.lists && x in s1.lists[t] ==> x in s0.lists[t]
    requires forall t, x :: t in s0.lists && x in s0.lists[t] ==> x in s1.lists[t] || x in c
    ensures Closed(g, s1, c)
  {
    forall t, f | t in s1.lists && s1.lists[t] != [] && (forall x :: x in s1.lists[t] ==> x in c) && (f, t) in g
      ensures f in c
    {
      assert s1.lists[t][0] in s0.lists[t];
      assert forall x :: x in s0.lists[t] ==> x in c;
    }
  }

  lemma SpreadTransitive(g: Edges, s0: State, s1: State, s2: State, a: set<Fn>, b: set<Fn>)
    requires Spread(g, s0, s1, a)
    requires Spread(g, s1, s2, b)
    ensures Spread(g, s0, s2, a + b)
  {
    var d1, d2 := s1.failed - s0.failed, s2.failed - s1.failed;
    assert s2.failed - s0.failed == d1 + d2;
    forall t | t in s0.lists ensures s2.lists[t] == Without(s0.lists[t], d1 + d2) {
      WithoutTwice(s0.lists[t], d1, d2);
    }
    forall t ensures Emptied(s0, s2, t) <==> Emptied(s0, s1, t) || Emptied(s1, s2, t) {
      if t in s0.lists && s1.lists[t] == [] {
        assert s2.lists[t] == Without([], d2);
      }
      if Emptied(s1, s2, t) {
        assert s1.lists[t][0] in s0.lists[t];
      }
    }
    forall c | s0.failed + (a + b) <= c && Closed(g, s0, c) ensures s2.failed <= c {
      ClosedAfterPruning(g, s0, s1, c);
    }
  }

  /** Half-way through failing fn: fn is marked, but still listed under the targets in todo. */
  ghost predicate Failing(g: Edges, s0: State, s: State, fn: Fn, todo: set<Target>) {
    && fn !in s0.failed
    && s0.failed + {fn} <= s.failed
    && s.lists.Keys == s0.lists.Keys
    && (forall t :: t in s0.lists ==>
          s.lists[t] == Without(s0.lists[t], s.failed - s0.failed - (if t in todo then {fn} else {})))
    && (forall t, f :: Emptied(s0, s, t) && (f, t) in g ==> f in s.failed)
    && (forall t :: t in s.gone <==> t in s0.gone || Emptied(s0, s, t))
    && (forall c :: s0.failed + {fn} <= c && Closed(g, s0, c) ==> s.failed <= c)
  }

  lemma FailingStart(g: Edges, s0: State, fn: Fn)
    requires fn !in s0.failed
    ensures Failing(g, s0, s0.(failed := s0.failed + {fn}), fn, s0.lists.Keys)
  {
    assert s0.failed + {fn} - s0.failed - {fn} == {};
    forall t | t in s0.lists ensures Without(s0.lists[t], {}) == s0.lists[t] {
      WithoutNothing(s0.lists[t], {});
    }
  }

  lemma FailingKeys(g: Edges, s0: State, s: State, fn: Fn, todo: set<Target>)
    requires Failing(g, s0, s, fn, todo)
    ensures s0.lists.Keys == s.lists.Keys
    ensures fn in s.failed && s0.failed <= s.failed
  {}

  /** A target that does not list fn needs nothing. */
  lemma FailingSkip(g: Edges, s0: State, s: State, fn: Fn, todo: set<Target>, t: Target)
    requires Failing(g, s0, s, fn, todo)
    requires t in todo && t in s0.lists && fn !in s.lists[t]
    ensures Failing(g, s0, s, fn, todo - {t})
  {
    WithoutCongruent(s0.lists[t], s.failed - s0.failed - {fn}, s.failed - s0.failed);
    assert s.failed - s0.failed - {} == s.failed - s0.failed;
  }

  lemma PrunedList(g: Edges, s0: State, s: State, fn: Fn, todo: set<Target>, t: Target)
    requires Failing(g, s0, s, fn, todo)
    requires t in todo && t in s0.lists
    ensures Without(s.lists[t], {fn}) == Without(s0.lists[t], s.failed - s0.failed)
  {
    WithoutTwice(s0.lists[t], s.failed - s0.failed - {fn}, {fn});
    assert s.failed - s0.failed - {fn} + {fn} == s.failed - s0.failed;
  }

  lemma WithoutNonEmpty(s: seq<Fn>, dead: set<Fn>)
    ensures Without(s, dead) != [] ==> s != []
  {
  }

  /** A target that keeps another provider only loses fn. */
  lemma FailingRemove(g: Edges, s0: State, s: State, fn: Fn, todo: set<Target>, t: Target, rest: seq<Fn>)
    requires Failing(g, s0, s, fn, todo)
    requires t in todo && t in s0.lists
    requires rest == Without(s.lists[t], {fn}) && rest != []
    ensures Failing(g, s0, s.(lists := s.lists[t := rest]), fn, todo - {t})
  {
    hide Without, Closed;
    PrunedList(g, s0, s, fn, todo, t);
    assert s.failed - s0.failed - {} == s.failed - s0.failed;
    var s' := s.(lists := s.lists[t := rest]);
    WithoutNonEmpty(s.lists[t], {fn});
    forall t' ensures Emptied(s0, s', t') <==> Emptied(s0, s, t') {
    }
  }

  /** The state in which target t has just lost its last provider. */
  ghost function Drop(s: State, t: Target): State {
    s.(lists := s.lists[t := []], gone := s.gone + {t})
  }

  lemma FailingEmptyLists(g: Edges, s0: State, s: State, fn: Fn, todo: set<Target>, t: Target, s2: State, dependees: set<Fn>)
    requires Failing(g, s0, s, fn, todo)
    requires t in todo && t in s0.lists
    requires Without(s.lists[t], {fn}) == []
    requires Spread(g, Drop(s, t), s2, dependees)
    ensures forall t' :: t' in s0.lists ==>
              s2.lists[t'] == Without(s0.lists[t'], s2.failed - s0.failed - (if t' in todo - {t} then {fn} else {}))
  {
    PrunedList(g, s0, s, fn, todo, t);
    var d2 := s2.failed - s.failed;
    forall t' | t' in s0.lists
      ensures s2.lists[t'] == Without(s0.lists[t'], s2.failed - s0.failed - (if t' in todo - {t} then {fn} else {}))
    {
      var dead := if t' in todo - {t} then s.failed - s0.failed - {fn} else s.failed - s0.failed;
      assert s.failed - s0.failed - {} == s.failed - s0.failed;
      assert Drop(s, t).lists[t'] == Without(s0.lists[t'], dead);
      WithoutTwice(s0.lists[t'], dead, d2);
      assert dead + d2 == s2.failed - s0.failed - (if t' in todo - {t} then {fn} else {});
    }
  }

  lemma FailingEmptyTargets(g: Edges, s0: State, s: State, fn: Fn, todo: set<Target>, t: Target, s2: State, dependees: set<Fn>)
    requires Failing(g, s0, s, fn, todo)
    requires t in todo && t in s0.lists && fn in s.lists[t]
    requires Spread(g, Drop(s, t), s2, dependees)
    ensures forall t' :: Emptied(s0, s2, t') <==> t' == t || Emptied(s0, s, t') || Emptied(Drop(s, t), s2, t')
  {
    hide Closed;
    var s1 := Drop(s, t);
    forall t' ensures Emptied(s0, s2, t') <==> t' == t || Emptied(s0, s, t') || Emptied(s1, s2, t') {
      if t' in s0.lists && s1.lists[t'] == [] {
        assert s2.lists[t'] == Without([], s2.failed - s1.failed);
      }
      if Emptied(s1, s2, t') {
        assert s1.lists[t'][0] in s0.lists[t'];
      }
    }
  }

  lemma FailingEmptyLeast(g: Edges, s0: State, s: State, fn: Fn, todo: set<Target>, t: Target, s2: State,
                          dependees: set<Fn>, c: set<Fn>)
    requires Failing(g, s0, s, fn, todo)
    requires t in todo && t in s0.lists && fn in s.lists[t]
    requires Without(s.lists[t], {fn}) == []
    requires forall f :: f in dependees <==> (f, t) in g
    requires Spread(g, Drop(s, t), s2, dependees)
    requires s0.failed + {fn} <= c && Closed(g, s0, c)
    ensures s2.failed <= c
  {
    PrunedList(g, s0, s, fn, todo, t);
    assert fn in s0.lists[t];
    forall x | x in s0.lists[t] ensures x in c {
      assert x !in Without(s0.lists[t], s.failed - s0.failed);
    }
    assert dependees <= c;
    ClosedAfterPruning(g, s0, Drop(s, t), c);
  }

  /** A target that loses its last provider fails, and with it everything that needs it. */
  lemma FailingEmpty(g: Edges, s0: State, s: State, fn: Fn, todo: set<Target>, t: Target, s2: State, dependees: set<Fn>)
    requires Failing(g, s0, s, fn, todo)
    requires t in todo && t in s0.lists && fn in s.lists[t]
    requires Without(s.lists[t], {fn}) == []
    requires forall f :: f in dependees <==> (f, t) in g
    requires Spread(g, Drop(s, t), s2, dependees)
    ensures Failing(g, s0, s2, fn, todo - {t})
  {
    hide Closed, Emptied, Without;
    FailingEmptyLists(g, s0, s, fn, todo, t, s2, dependees);
    FailingEmptyTargets(g, s0, s, fn, todo, t, s2, dependees);
    forall t', f | Emptied(s0, s2, t') && (f, t') in g ensures f in s2.failed {
      if t' == t {
        assert f in dependees;
      } else if Emptied(s0, s, t') {
        assert f in s.failed;
      }
    }
    forall t' ensures t' in s2.gone <==> t' in s0.gone || Emptied(s0, s2, t') {
    }
    forall c | s0.failed + {fn} <= c && Closed(g, s0, c) ensures s2.failed <= c {
      FailingEmptyLeast(g, s0, s, fn, todo, t, s2, dependees, c);
    }
  }

  lemma FailingEnd(g: Edges, s0: State, s: State, fn: Fn)
    requires Failing(g, s0, s, fn, {})
    ensures Spread(g, s0, s, {fn})
  {
    assert s.failed - s0.failed - {} == s.failed - s0.failed;
  }

  /** No provider list holds a failed file. */
  ghost predicate Clean(s: State) {
    forall t, x :: t in s.lists && x in s.lists[t] ==> x !in s.failed
  }

  /** f is the least set that holds the failed files and fn and is closed under loss of all providers. */
  ghost predicate IsLeastFailure(g: Edges, s: State, fn: Fn, f: set<Fn>) {
    && s.failed + {fn} <= f
    && Closed(g, s, f)
    && forall c :: s.failed + {fn} <= c && Closed(g, s, c) ==> f <= c
  }

  /** From a clean state, failing fn computes exactly the least fixed point and leaves a clean state
      in which the failed targets are those that lost their last provider. */
  lemma SpreadIsLeastFailure(g: Edges, s0: State, s1: State, fn: Fn)
    requires Clean(s0)
    requires Spread(g, s0, s1, {fn})
    ensures IsLeastFailure(g, s0, fn, s1.failed)
    ensures Clean(s1)
    ensures forall t :: t in s0.lists ==> s1.lists[t] == Without(s0.lists[t], s1.failed)
    ensures forall t :: t in s1.gone <==>
              t in s0.gone || (t in s0.lists && s0.lists[t] != [] && forall x :: x in s0.lists[t] ==> x in s1.failed)
  {
    forall t | t in s0.lists ensures s1.lists[t] == Without(s0.lists[t], s1.failed) {
      WithoutCongruent(s0.lists[t], s1.failed - s0.failed, s1.failed);
    }
    forall t | t in s0.lists && s0.lists[t] != []
      ensures Emptied(s0, s1, t) <==> forall x :: x in s0.lists[t] ==> x in s1.failed
    {
      if s1.lists[t] != [] {
        assert s1.lists[t][0] in s0.lists[t];
      }
    }
  }

  /** Two runs of the propagation, in whatever order, end in the same state. */
  lemma SpreadDeterministic(g: Edges, s0: State, s1: State, s2: State, fn: Fn)
    requires Clean(s0)
    requires Spread(g, s0, s1, {fn}) && Spread(g, s0, s2, {fn})
    ensures s1 == s2
  {
    SpreadIsLeastFailure(g, s0, s1, fn);
    SpreadIsLeastFailure(g, s0, s2, fn);
    assert s1.failed == s2.failed;
    assert forall t :: t in s0.lists ==> s1.lists[t] == s2.lists[t];
    assert s1.lists == s2.lists;
    assert s1.gone == s2.gone;
  }

  /** s1 is s0 with more targets noted, none of them provided. */
  ghost predicate Extends(s0: State, s1: State) {
    && s1.failed == s0.failed && s1.gone == s0.gone
    && s0.lists.Keys <= s1.lists.Keys
    && forall t :: t in s1.lists ==> s1.lists[t] == if t in s0.lists then s0.lists[t] else []
  }

  /** Targets that are provided or have failed: resolution is finished with them. */
  ghost function Settled(s: State): (r: set<Target>)
    ensures forall t :: t in r <==> t in s.gone || (t in s.lists && s.lists[t] != [])
  {
    s.gone + set t | t in s.lists && s.lists[t] != []
  }

  /** Failures and settled targets only accumulate; new targets come from `extra` alone. */
  ghost predicate Advances(s0: State, s1: State, extra: set<Target>) {
    && s0.failed <= s1.failed
    && Settled(s0) <= Settled(s1)
    && s0.lists.Keys <= s1.lists.Keys <= s0.lists.Keys + extra
  }

  /** Everything the file depends on is a known target that has not failed. */
  ghost predicate DepsLive(s: State, depIds: map<Fn, seq<Name>>, rdepIds: map<Fn, seq<Name>>, f: Fn) {
    && f in depIds && f in rdepIds
    && (forall n :: n in depIds[f] ==> Build(n) in s.lists && Build(n) !in s.gone)
    && (forall n :: n in rdepIds[f] ==> Run(n) in s.lists && Run(n) !in s.gone)
  }

  lemma SpreadClean(g: Edges, s0: State, s1: State, seeds: set<Fn>)
    requires Clean(s0) && Spread(g, s0, s1, seeds)
    ensures Clean(s1)
    ensures forall t, x :: t in s1.lists && x in s1.lists[t] ==> t in s0.lists && x in s0.lists[t]
  {}

  lemma SpreadAdvances(g: Edges, s0: State, s1: State, seeds: set<Fn>)
    requires Spread(g, s0, s1, seeds)
    ensures Advances(s0, s1, {})
  {}

  /** What resolution keeps. Provider lists are duplicate-free and hold only files that have not failed
      and whose tasks were added (or, inside one step, are about to be); no file that has not failed
      depends on a failed target, except inside one step the files in unready. */
  ghost predicate Sound(s: State, seen: set<Fn>, pending: set<Fn>, depIds: map<Fn, seq<Name>>,
                        rdepIds: map<Fn, seq<Name>>, unready: set<Fn>) {
    && (forall t :: t in s.lists ==> NoDuplicates(s.lists[t]))
    && Clean(s)
    && (forall t, x :: t in s.lists && x in s.lists[t] ==> x in seen || x in pending)
    && (forall f :: f in seen && f !in s.failed && f !in unready ==> DepsLive(s, depIds, rdepIds, f))
  }

  lemma SoundExtends(s0: State, s1: State, seen: set<Fn>, pending: set<Fn>, depIds: map<Fn, seq<Name>>,
                     rdepIds: map<Fn, seq<Name>>, unready: set<Fn>)
    requires Sound(s0, seen, pending, depIds, rdepIds, unready)
    requires Extends(s0, s1)
    ensures Sound(s1, seen, pending, depIds, rdepIds, unready)
  {}

  /** Propagated failures keep soundness, and repair it when every unready file is among the failed. */
  lemma SoundSpread(g: Edges, s0: State, s1: State, seeds: set<Fn>, seen: set<Fn>, pending: set<Fn>,
                    depIds: map<Fn, seq<Name>>, rdepIds: map<Fn, seq<Name>>, unready: set<Fn>)
    requires Sound(s0, seen, pending, depIds, rdepIds, unready)
    requires Spread(g, s0, s1, seeds)
    requires unready <= seeds
    requires forall f, n :: f in depIds && n in depIds[f] ==> (f, Build(n)) in g
    requires forall f, n :: f in rdepIds && n in rdepIds[f] ==> (f, Run(n)) in g
    ensures Sound(s1, seen, pending, depIds, rdepIds, {})
  {
    SpreadClean(g, s0, s1, seeds);
    forall t | t in s1.lists ensures NoDuplicates(s1.lists[t]) {
      WithoutKeepsNoDuplicates(s0.lists[t], s1.failed - s0.failed);
    }
    forall f | f in seen && f !in s1.failed ensures DepsLive(s1, depIds, rdepIds, f) {
      assert DepsLive(s0, depIds, rdepIds, f);
    }
  }

  /** A file becomes seen with its dependency lists; it is not ready until they were checked. */
  lemma SoundNewFile(s: State, seen: set<Fn>, fn: Fn, depIds: map<Fn, seq<Name>>, rdepIds: map<Fn, seq<Name>>,
                     ids: seq<Name>, rids: seq<Name>)
    requires Sound(s, seen, {fn}, depIds, rdepIds, {})
    requires fn !in seen
    ensures Sound(s, seen + {fn}, {}, depIds[fn := ids], rdepIds[fn := rids], {fn})
  {
    forall f | f in seen && f !in s.failed ensures DepsLive(s, depIds[fn := ids], rdepIds[fn := rids], f) {
      assert DepsLive(s, depIds, rdepIds, f);
    }
  }

  /** A target declared failed leaves exactly its dependees unready. */
  lemma SoundDeclareGone(s: State, seen: set<Fn>, depIds: map<Fn, seq<Name>>, rdepIds: map<Fn, seq<Name>>,
                         t: Target, dependees: set<Fn>, g: Edges)
    requires Sound(s, seen, {}, depIds, rdepIds, {})
    requires dependees == set e | e in g && e.1 == t :: e.0
    requires forall f, n :: f in depIds && n in depIds[f] ==> (f, Build(n)) in g
    requires forall f, n :: f in rdepIds && n in rdepIds[f] ==> (f, Run(n)) in g
    ensures Sound(s.(gone := s.gone + {t}), seen, {}, depIds, rdepIds, dependees)
  {
    forall f | f in seen && f !in s.failed && f !in dependees
      ensures DepsLive(s.(gone := s.gone + {t}), depIds, rdepIds, f)
    {
      assert DepsLive(s, depIds, rdepIds, f);
      assert (f, t) in g ==> f in dependees;
    }
  }

  /** fn is a provider of t, appended if it was not one yet. */
  ghost function Listed(s: State, t: Target, fn: Fn): State {
    if t in s.lists && fn in s.lists[t] then s
    else s.(lists := s.lists[t := (if t in s.lists then s.lists[t] else []) + [fn]])
  }

  lemma SoundListed(s: State, seen: set<Fn>, depIds: map<Fn, seq<Name>>, rdepIds: map<Fn, seq<Name>>, t: Target, fn: Fn)
    requires Sound(s, seen, {}, depIds, rdepIds, {})
    requires fn !in s.failed
    ensures Sound(Listed(s, t, fn), seen, {fn}, depIds, rdepIds, {})
  {
    var s' := Listed(s, t, fn);
    forall f | f in seen && f !in s.failed ensures DepsLive(s', depIds, rdepIds, f) {
      assert DepsLive(s, depIds, rdepIds, f);
    }
  }

  lemma ExtendsTransitive(s0: State, s1: State, s2: State)
    requires Extends(s0, s1) && Extends(s1, s2)
    ensures Extends(s0, s2)
  {}

  /** The provider list of t, empty when the target is unknown. */
  ghost function ListOf(s: State, t: Target): seq<Fn> {
    if t in s.lists then s.lists[t] else []
  }

  /** Outside the targets in busy, provider lists only lose the files that failed in between. */
  ghost predicate Steady(s0: State, s1: State, busy: set<Target>) {
    && s0.failed <= s1.failed
    && forall t :: t !in busy ==> ListOf(s1, t) == Without(ListOf(s0, t), s1.failed - s0.failed)
  }

  lemma SteadyTransitive(s0: State, s1: State, s2: State, busy: set<Target>)
    requires Steady(s0, s1, busy)
    requires Steady(s1, s2, busy) || Steady(s1, s2, {})
    ensures Steady(s0, s2, busy)
  {
    assert s2.failed - s0.failed == (s1.failed - s0.failed) + (s2.failed - s1.failed);
    forall t | t !in busy ensures ListOf(s2, t) == Without(ListOf(s0, t), s2.failed - s0.failed) {
      WithoutTwice(ListOf(s0, t), s1.failed - s0.failed, s2.failed - s1.failed);
    }
  }

  lemma SteadyRefl(s: State, busy: set<Target>)
    ensures Steady(s, s, busy)
  {
    assert s.failed - s.failed == {};
    forall t ensures Without(ListOf(s, t), {}) == ListOf(s, t) {
      WithoutNothing(ListOf(s, t), {});
    }
  }

  lemma ExtendsSteady(s0: State, s1: State)
    requires Extends(s0, s1)
    ensures Steady(s0, s1, {})
  {
    SteadyRefl(s0, {});
    forall t ensures ListOf(s1, t) == ListOf(s0, t) {}
  }

  lemma SpreadSteady(g: Edges, s0: State, s1: State, seeds: set<Fn>)
    requires Spread(g, s0, s1, seeds)
    ensures Steady(s0, s1, {})
  {
    forall t ensures ListOf(s1, t) == Without(ListOf(s0, t), s1.failed - s0.failed) {
      if t !in s0.lists {
        WithoutNothing([], s1.failed - s0.failed);
      }
    }
  }

  /** Every provided target lists exactly its candidates that have not failed, in order of preference. */
  ghost predicate Exact(s: State, candidates: map<Target, seq<Fn>>) {
    forall t :: ListOf(s, t) != [] ==> t in candidates && ListOf(s, t) == Without(candidates[t], s.failed)
  }

  lemma ExactSteady(s0: State, s1: State, candidates: map<Target, seq<Fn>>, busy: set<Target>)
    requires Exact(s0, candidates)
    requires Steady(s0, s1, busy)
    requires forall t :: t in busy && ListOf(s1, t) != [] ==>
               t in candidates && ListOf(s1, t) == Without(candidates[t], s1.failed)
    ensures Exact(s1, candidates)
  {
    forall t | ListOf(s1, t) != [] && t !in busy
      ensures t in candidates && ListOf(s1, t) == Without(candidates[t], s1.failed)
    {
      assert ListOf(s1, t)[0] in ListOf(s0, t);
      WithoutTwice(candidates[t], s0.failed, s1.failed - s0.failed);
      assert s0.failed + (s1.failed - s0.failed) == s1.failed;
    }
  }

  /** One more candidate listed, then pruned by the failures it caused. */
  lemma ListedCandidate(candidates: seq<Fn>, i: nat, s0: State, s1: State, s2: State, t: Target)
    requires i < |candidates| && NoDuplicates(candidates)
    requires ListOf(s0, t) == Without(candidates[..i], s0.failed)
    requires candidates[i] !in s0.failed
    requires s1 == Listed(s0, t, candidates[i])
    requires s1.failed <= s2.failed && ListOf(s2, t) == Without(ListOf(s1, t), s2.failed - s1.failed)
    ensures ListOf(s2, t) == Without(candidates[..i + 1], s2.failed)
  {
    var next := candidates[..i + 1];
    assert next[..i] == candidates[..i] && next[|next| - 1] == candidates[i];
    assert candidates[i] !in candidates[..i];
    assert ListOf(s1, t) == Without(next, s0.failed);
    WithoutTwice(next, s0.failed, s2.failed - s0.failed);
    assert s0.failed + (s2.failed - s0.failed) == s2.failed;
  }

  lemma SkippedCandidate(candidates: seq<Fn>, i: nat, dead: set<Fn>)
    requires i < |candidates| && candidates[i] in dead
    ensures Without(candidates[..i + 1], dead) == Without(candidates[..i], dead)
  {
    var next := candidates[..i + 1];
    assert next[..i] == candidates[..i] && next[|next| - 1] == candidates[i];
  }

  /** A file was added: its targets are noted, and if it needs a failed target it fails with all that follows. */
  ghost predicate FileAdded(g: Edges, s0: State, s1: State, fn: Fn, doomed: bool) {
    if doomed then exists s :: Extends(s0, s) && Spread(g, s, s1, {fn}) else Extends(s0, s1)
  }

  lemma FileAddedSteady(g: Edges, s0: State, s1: State, fn: Fn, doomed: bool)
    requires FileAdded(g, s0, s1, fn, doomed)
    ensures Steady(s0, s1, {})
  {
    if doomed {
      var s :| Extends(s0, s) && Spread(g, s, s1, {fn});
      ExtendsSteady(s0, s);
      SpreadSteady(g, s, s1, {fn});
      SteadyTransitive(s0, s, s1, {});
    } else {
      ExtendsSteady(s0, s1);
    }
  }
}
